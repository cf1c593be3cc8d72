/** util/cache: a cache of reference-counted handles, the unpinned ones in order of their release. */
module Cache {
  import opened Base
  import opened HandleTable

  // ---------------------------------------------------------------- lists of handles

  ghost predicate NoDup(s: seq<Handle>) {
    forall i, j :: 0 <= i < j < |s| ==> s[i] != s[j]
  }

  /** LRU_Remove: the list without the handle. */
  function Without(s: seq<Handle>, h: Handle): (r: seq<Handle>) {
    if s == [] then [] else if s[0] == h then s[1..] else [s[0]] + Without(s[1..], h)
  }

  function Sans(s: seq<Handle>, h: Handle?): (r: seq<Handle>) {
    if h == null then s else Without(s, h)
  }

  /** What is freed when the cache lets go of h: nothing if somebody still refers to it. */
  function Freed(lru: seq<Handle>, h: Handle?): (r: seq<Handle>) {
    if h != null && h in lru then [h] else []
  }

  function Charges(s: seq<Handle>): (n: nat) {
    if s == [] then 0 else s[0].charge + Charges(s[1..])
  }

  /** r has the elements of s but for h. */
  ghost predicate Minus(s: seq<Handle>, h: Handle, r: seq<Handle>) {
    (forall g :: g in r ==> g in s && g != h) && (forall g :: g in s && g != h ==> g in r)
  }

  ghost predicate Plus(s: seq<Handle>, h: Handle, r: seq<Handle>) {
    (forall g :: g in r ==> g in s || g == h) && (forall g :: g in s ==> g in r) && h in r
  }

  lemma {:induction false} WithoutIs(s: seq<Handle>, h: Handle)
    requires NoDup(s)
    ensures NoDup(Without(s, h)) && Minus(s, h, Without(s, h))
    ensures h !in s ==> Without(s, h) == s
    ensures Charges(Without(s, h)) == Charges(s) - if h in s then h.charge else 0
  {
    if s != [] {
      assert forall i, j :: 0 <= i < j < |s[1..]| ==> s[1..][i] == s[i + 1] && s[1..][j] == s[j + 1];
      WithoutIs(s[1..], h);
      assert s == [s[0]] + s[1..];
      assert s[0] !in s[1..] by {
        forall i | 0 <= i < |s[1..]| ensures s[1..][i] != s[0] { assert s[i + 1] != s[0]; }
      }
    }
  }

  lemma {:induction false} ChargesSnoc(s: seq<Handle>, h: Handle)
    ensures Charges(s + [h]) == Charges(s) + h.charge
  {
    if s == [] {
      assert s + [h] == [h];
    } else {
      assert (s + [h])[1..] == s[1..] + [h];
      ChargesSnoc(s[1..], h);
    }
  }

  /** LRU_Append. */
  lemma AppendIs(s: seq<Handle>, h: Handle)
    requires NoDup(s) && h !in s
    ensures NoDup(s + [h]) && Charges(s + [h]) == Charges(s) + h.charge
    ensures Plus(s, h, s + [h])
  {
    ChargesSnoc(s, h);
  }

  /** The lists as a whole: what is cached is alive, what is freed is not, and the usage is the
      charge of what is cached. */
  ghost predicate Lists(lru: seq<Handle>, inUse: seq<Handle>, usage: nat, alive: set<Handle>, held: multiset<Handle>,
                        deleted: seq<Handle>)
  {
    && NoDup(lru) && NoDup(inUse) && (forall h :: h in lru ==> h !in inUse)
    && (forall h :: h in lru ==> h in alive) && (forall h :: h in inUse ==> h in alive)
    && usage == Charges(lru) + Charges(inUse)
    && NoDup(deleted) && (forall h :: h in deleted ==> h !in alive)
    && (forall h :: h in held ==> h in alive)
  }

  /** The table holds the listed handles, except perhaps `gone`. */
  ghost predicate Tabled(list: seq<Chain>, lru: seq<Handle>, inUse: seq<Handle>, gone: Handle?) {
    && (forall h :: InTable(list, h) ==> (h in lru || h in inUse) && h != gone)
    && (forall h :: h in lru && h != gone ==> InTable(list, h))
    && (forall h :: h in inUse && h != gone ==> InTable(list, h))
  }

  lemma PinLists(lru: seq<Handle>, inUse: seq<Handle>, usage: nat, alive: set<Handle>, held: multiset<Handle>,
      deleted: seq<Handle>, e: Handle)
    requires Lists(lru, inUse, usage, alive, held, deleted) && e in lru
    ensures Lists(Without(lru, e), inUse + [e], usage, alive, held, deleted)
    ensures Minus(lru, e, Without(lru, e))
    ensures Plus(inUse, e, inUse + [e])
  {
    hide NoDup, Charges, Without;
    WithoutIs(lru, e);
    AppendIs(inUse, e);
  }

  lemma UnpinLists(lru: seq<Handle>, inUse: seq<Handle>, usage: nat, alive: set<Handle>, held: multiset<Handle>,
      deleted: seq<Handle>, e: Handle)
    requires Lists(lru, inUse, usage, alive, held, deleted) && e in inUse
    ensures Lists(lru + [e], Without(inUse, e), usage, alive, held, deleted)
    ensures Minus(inUse, e, Without(inUse, e))
    ensures Plus(lru, e, lru + [e])
  {
    hide NoDup, Charges, Without;
    WithoutIs(inUse, e);
    AppendIs(lru, e);
  }

  lemma FreeLists(lru: seq<Handle>, inUse: seq<Handle>, usage: nat, alive: set<Handle>, held: multiset<Handle>,
      deleted: seq<Handle>, e: Handle)
    requires Lists(lru, inUse, usage, alive, held, deleted) && e in alive && e !in lru && e !in inUse && e !in held
    ensures Lists(lru, inUse, usage, alive - {e}, held, deleted + [e])
  {
    hide NoDup, Charges;
    AppendIs(deleted, e);
  }

  lemma DropLists(lru: seq<Handle>, inUse: seq<Handle>, usage: nat, alive: set<Handle>, held: multiset<Handle>,
      deleted: seq<Handle>, e: Handle)
    requires Lists(lru, inUse, usage, alive, held, deleted) && (e in lru || e in inUse)
    ensures usage >= e.charge && Lists(Without(lru, e), Without(inUse, e), usage - e.charge, alive, held, deleted)
    ensures Minus(lru, e, Without(lru, e))
    ensures Minus(inUse, e, Without(inUse, e))
  {
    hide NoDup, Charges, Without;
    WithoutIs(lru, e);
    WithoutIs(inUse, e);
  }

  lemma HeldGrows(lru: seq<Handle>, inUse: seq<Handle>, usage: nat, alive: set<Handle>, held: multiset<Handle>,
      deleted: seq<Handle>, e: Handle)
    requires Lists(lru, inUse, usage, alive, held, deleted) && e in alive
    ensures Lists(lru, inUse, usage, alive, held + multiset{e}, deleted)
  {
    hide NoDup, Charges;
  }

  lemma HeldShrinks(lru: seq<Handle>, inUse: seq<Handle>, usage: nat, alive: set<Handle>, held: multiset<Handle>,
      deleted: seq<Handle>, e: Handle)
    requires Lists(lru, inUse, usage, alive, held, deleted) && e in held
    ensures Lists(lru, inUse, usage, alive, held - multiset{e}, deleted) && e in alive
  {
    hide NoDup, Charges;
  }

  lemma ListedAlive(lru: seq<Handle>, inUse: seq<Handle>, usage: nat, alive: set<Handle>, held: multiset<Handle>,
      deleted: seq<Handle>, e: Handle)
    requires Lists(lru, inUse, usage, alive, held, deleted) && (e in lru || e in inUse)
    ensures e in alive && !(e in lru && e in inUse)
  {
    hide NoDup, Charges;
  }

  lemma PinTable(list: seq<Chain>, lru: seq<Handle>, inUse: seq<Handle>, e: Handle)
    requires Tabled(list, lru, inUse, null) && e in lru && Minus(lru, e, Without(lru, e))
    ensures Tabled(list, Without(lru, e), inUse + [e], null)
  {
    hide InTable, Without;
  }

  lemma UnpinTable(list: seq<Chain>, lru: seq<Handle>, inUse: seq<Handle>, e: Handle)
    requires Tabled(list, lru, inUse, null) && e in inUse && Minus(inUse, e, Without(inUse, e))
    ensures Tabled(list, lru + [e], Without(inUse, e), null)
  {
    hide InTable, Without;
  }

  lemma DropTable(list: seq<Chain>, lru: seq<Handle>, inUse: seq<Handle>, e: Handle)
    requires Tabled(list, lru, inUse, e)
    requires Minus(lru, e, Without(lru, e))
    requires Minus(inUse, e, Without(inUse, e))
    ensures Tabled(list, Without(lru, e), Without(inUse, e), null)
  {
    hide InTable, Without;
  }

  // ---------------------------------------------------------------- the cache

  class LRUCache {
    const table: HandleTable
    var capacity: nat
    var usage: nat
    /** Cached handles nobody else refers to, the next victim first; cached handles in use. */
    var lru: seq<Handle>
    var inUse: seq<Handle>
    /** Handles not freed yet; references given out; handles freed, in order. */
    ghost var alive: set<Handle>
    ghost var held: multiset<Handle>
    ghost var deleted: seq<Handle>

    /** The references to a handle: those given out, the cache's own, and `extra` ones that the
        operation under way is about to drop. */
    ghost predicate CountOk(h: Handle, extra: nat)
      reads this, h
    {
      && h.refs == held[h] + extra + (if h.inCache then 1 else 0) && h.refs >= 1
      && (h.inCache <==> h in lru || h in inUse)
      && (h in lru ==> h.refs == 1) && (h in inUse ==> h.refs >= 2)
    }

    ghost predicate CountsOk(off: Handle?)
      reads this, alive
    {
      forall h :: h in alive ==> CountOk(h, if h == off then 1 else 0)
    }

    ghost predicate Good(off: Handle?, gone: Handle?)
      reads this, table, alive
    {
      && Lists(lru, inUse, usage, alive, held, deleted) && CountsOk(off)
      && table.Valid() && Tabled(table.list, lru, inUse, gone)
    }

    ghost predicate Valid()
      reads this, table, alive
    {
      Good(null, null)
    }

    constructor (capacity: nat)
      ensures Valid() && lru == [] && inUse == [] && alive == {} && held == multiset{} && deleted == []
      ensures this.capacity == capacity && fresh(table)
    {
      table := new HandleTable();
      this.capacity, usage, lru, inUse, alive, held, deleted := capacity, 0, [], [], {}, multiset{}, [];
    }

    /** What the invariant says of a handle that is not freed: it is in the table exactly if it is
        marked as cached, and on the list of victims exactly if only the cache refers to it. */
    lemma Accounts(h: Handle)
      requires Valid() && h in alive
      ensures InTable(table.list, h) <==> h.inCache
      ensures h in lru <==> h.inCache && h.refs == 1
      ensures h.refs == held[h] + (if h.inCache then 1 else 0) && h !in deleted
    {
      hide NoDup, Charges, HandleTable.Valid;
      assert CountOk(h, 0);
    }

    /** When there are no victims left, everything cached is in somebody's hands. */
    lemma AllPinned()
      requires Valid() && lru == []
      ensures usage == Charges(inUse) && forall h :: InTable(table.list, h) ==> held[h] >= 1
    {
      hide NoDup, HandleTable.Valid;
      assert Charges(lru) == 0;
      forall h | InTable(table.list, h)
        ensures held[h] >= 1
      {
        assert h in alive;
        assert CountOk(h, 0);
      }
    }

    /** No handle is freed twice. */
    lemma FreedOnce(i: nat, j: nat)
      requires Valid() && i < j < |deleted|
      ensures deleted[i] != deleted[j] && deleted[i] !in alive
    {
      hide Charges, HandleTable.Valid;
    }

    /** LRUCache::Ref: a handle that was unpinned is pinned now. */
    method Ref(e: Handle)
      requires Valid() && e in alive
      modifies this`lru, this`inUse, this`held, e`refs
      ensures Valid() && held == old(held) + multiset{e} && e.refs == old(e.refs) + 1
      ensures if e in old(lru) then lru == Without(old(lru), e) && inUse == old(inUse) + [e]
              else lru == old(lru) && inUse == old(inUse)
    {
      hide Lists, Tabled, HandleTable.Valid, Without;
      assert CountOk(e, 0);
      if e.refs == 1 && e.inCache {
        PinLists(lru, inUse, usage, alive, held, deleted, e);
        PinTable(table.list, lru, inUse, e);
        lru := Without(lru, e);
        inUse := inUse + [e];
      }
      e.refs := e.refs + 1;
      HeldGrows(lru, inUse, usage, alive, held, deleted, e);
      held := held + multiset{e};
      forall h | h in alive
        ensures CountOk(h, 0)
      {
        assert old(CountOk(h, 0));
      }
    }

    /** LRUCache::Unref: the last reference frees the handle, the last but the cache's own unpins
        it. */
    method Unref(e: Handle)
      requires Good(e, null) && e in alive
      modifies this`lru, this`inUse, this`alive, this`deleted, e`refs
      ensures Valid()
      ensures if old(e.refs) == 1 then deleted == old(deleted) + [e] && alive == old(alive) - {e}
              else deleted == old(deleted) && alive == old(alive)
      ensures if old(e.refs) == 2 && e in old(inUse) then lru == old(lru) + [e] && inUse == Without(old(inUse), e)
              else lru == old(lru) && inUse == old(inUse)
    {
      hide Lists, Tabled, HandleTable.Valid, Without;
      assert CountOk(e, 1);
      e.refs := e.refs - 1;
      if e.refs == 0 {
        FreeLists(lru, inUse, usage, alive, held, deleted, e);
        deleted := deleted + [e];
        alive := alive - {e};
      } else if e.inCache && e.refs == 1 {
        UnpinLists(lru, inUse, usage, alive, held, deleted, e);
        UnpinTable(table.list, lru, inUse, e);
        inUse := Without(inUse, e);
        lru := lru + [e];
      }
      forall h | h in alive
        ensures CountOk(h, 0)
      {
        assert old(CountOk(h, if h == e then 1 else 0));
      }
    }

    /** LRUCache::FinishErase: the cache gives up its own reference. */
    method FinishErase(e: Handle?)
      requires Good(null, e) && (e != null ==> e in lru || e in inUse)
      modifies this`lru, this`inUse, this`alive, this`deleted, this`usage, alive
      ensures Valid()
      ensures e == null ==>
        lru == old(lru) && inUse == old(inUse) && usage == old(usage) && deleted == old(deleted)
      ensures e != null ==>
        lru == Without(old(lru), e) && usage == old(usage) - e.charge && inUse == Without(old(inUse), e)
      ensures e != null ==> deleted == if e in old(lru) then old(deleted) + [e] else old(deleted)
      ensures if e != null && e in old(lru) then alive == old(alive) - {e} else alive == old(alive)
    {
      hide Lists, Tabled, HandleTable.Valid, Without;
      if e != null {
        ListedAlive(lru, inUse, usage, alive, held, deleted, e);
        assert CountOk(e, 0);
        DropLists(lru, inUse, usage, alive, held, deleted, e);
        DropTable(table.list, lru, inUse, e);
        lru, inUse := Without(lru, e), Without(inUse, e);
        e.inCache := false;
        usage := usage - e.charge;
        forall h | h in alive
          ensures CountOk(h, if h == e then 1 else 0)
        {
          assert old(CountOk(h, 0));
        }
        Unref(e);
      }
    }

    /** LRUCache::Lookup: a hit is pinned. */
    method Lookup(key: Bytes, hash: Word) returns (r: Handle?)
      requires Valid()
      modifies this`lru, this`inUse, this`held, alive
      ensures Valid()
      ensures r == null ==> held == old(held) && forall h :: InTable(table.list, h) ==> !Matches(h, key, hash)
      ensures r != null ==>
        InTable(table.list, r) && Matches(r, key, hash) && held == old(held) + multiset{r} && r in inUse
      ensures lru == Sans(old(lru), r)
      ensures inUse == old(inUse) + if r != null && r in old(lru) then [r] else []
    {
      hide Lists, HandleTable.Valid, Without;
      r := table.Lookup(key, hash);
      if r != null {
        ListedAlive(lru, inUse, usage, alive, held, deleted, r);
        NotVictim(lru, inUse, usage, alive, held, deleted, r);
        Ref(r);
        assert CountOk(r, 0);
      }
    }

    /** LRUCache::Release: one reference less. */
    method Release(e: Handle)
      requires Valid() && e in held
      modifies this`lru, this`inUse, this`alive, this`deleted, this`held, alive
      ensures Valid() && held == old(held) - multiset{e}
      ensures deleted == if old(e.refs) == 1 then old(deleted) + [e] else old(deleted)
      ensures if old(e.refs) == 2 && e in old(inUse) then lru == old(lru) + [e] && inUse == Without(old(inUse), e)
              else lru == old(lru) && inUse == old(inUse)
    {
      hide Lists, Tabled, HandleTable.Valid;
      HeldShrinks(lru, inUse, usage, alive, held, deleted, e);
      held := held - multiset{e};
      forall h | h in alive
        ensures CountOk(h, if h == e then 1 else 0)
      {
        assert old(CountOk(h, 0));
      }
      Unref(e);
    }

    /** LRUCache::Erase: the handle of the key leaves the cache, and is freed unless somebody holds it. */
    method Erase(key: Bytes, hash: Word) returns (ghost e: Handle?)
      requires Valid()
      modifies this`lru, this`inUse, this`alive, this`deleted, this`usage, table, alive
      ensures Valid() && forall h :: InTable(table.list, h) ==> !Matches(h, key, hash)
      ensures e != null ==> InTable(old(table.list), e) && Matches(e, key, hash) && usage == old(usage) - e.charge
      ensures e == null ==> usage == old(usage) && forall h :: InTable(old(table.list), h) ==> !Matches(h, key, hash)
      ensures lru == Sans(old(lru), e) && inUse == Sans(old(inUse), e)
      ensures deleted == old(deleted) + Freed(old(lru), e)
      ensures forall h :: InTable(table.list, h) <==> InTable(old(table.list), h) && h != e
    {
      hide Lists, HandleTable.Valid, Without;
      var was := table.Remove(key, hash);
      FinishErase(was);
      e := was;
    }

    /** One victim: the coldest unpinned handle is freed. */
    method EvictOne()
      requires Valid() && lru != []
      modifies this`lru, this`inUse, this`alive, this`deleted, this`usage, table, alive
      ensures Valid() && inUse == old(inUse) && alive <= old(alive)
      ensures lru == old(lru)[1..] && deleted == old(deleted) + [old(lru)[0]]
      ensures usage == old(usage) - old(lru)[0].charge
      ensures forall h :: InTable(table.list, h) <==> InTable(old(table.list), h) && h != old(lru)[0]
    {
      hide Lists, HandleTable.Valid, Without;
      var victim := lru[0];
      assert victim in lru && InTable(table.list, victim);
      ghost var list := table.list;
      table.Placement();
      var e := table.Remove(victim.key, victim.hash);
      AtMostOne(list, victim, e);
      WithoutFirst(lru);
      NotInUse(lru, inUse, usage, alive, held, deleted, e);
      FinishErase(e);
    }

    /** The eviction loop of Insert: k victims go, from the cold end, and no more than needed. */
    method Evict() returns (ghost k: nat)
      requires Valid()
      modifies this`lru, this`inUse, this`alive, this`deleted, this`usage, table, alive
      ensures Valid() && inUse == old(inUse) && alive <= old(alive) && (usage <= capacity || lru == [])
      ensures Evicted(old(lru), k, lru, old(deleted), deleted)
      ensures k > 0 ==> usage + old(lru)[k - 1].charge > capacity
      ensures forall h :: InTable(table.list, h) <==> InTable(old(table.list), h) && h !in old(lru)[..k]
      ensures usage + Charges(old(lru)[..k]) == old(usage) && (old(usage) <= capacity ==> k == 0)
    {
      hide Valid, Charges;
      k := 0;
      assert Charges(old(lru)[..0]) == 0 by { NoCharges(); }
      while usage > capacity && lru != []
        invariant Valid() && inUse == old(inUse) && alive <= old(alive)
        invariant k <= |old(lru)| && Evicted(old(lru), k, lru, old(deleted), deleted)
        invariant k > 0 ==> usage + old(lru)[k - 1].charge > capacity
        invariant forall h :: InTable(table.list, h) <==> InTable(old(table.list), h) && h !in old(lru)[..k]
        invariant usage + Charges(old(lru)[..k]) == old(usage) && (old(usage) <= capacity ==> k == 0)
        decreases |lru|
      {
        EvictOne();
        assert old(lru)[..k + 1] == old(lru)[..k] + [old(lru)[k]];
        ChargesSnoc(old(lru)[..k], old(lru)[k]);
        k := k + 1;
      }
    }

    /** LRUCache::Insert. With a capacity, the handle is cached and pinned, in the place of one with
        the same key (`was`); then k victims go, until the usage is within the capacity or everything
        cached is pinned: each of them while the usage was above the capacity. Everything else stays. */
    method Insert(key: Bytes, hash: Word, charge: nat) returns (h: Handle, ghost was: Handle?, ghost k: nat)
      requires Valid()
      modifies this`lru, this`inUse, this`alive, this`deleted, this`usage, this`held, table, alive
      ensures Valid() && fresh(h) && h.key == key && h.hash == hash && h.charge == charge
      ensures held == old(held) + multiset{h}
      ensures was != null ==> InTable(old(table.list), was) && Matches(was, key, hash)
      ensures was == null && capacity > 0 ==> forall g :: InTable(old(table.list), g) ==> !Matches(g, key, hash)
      ensures capacity == 0 ==> was == null && inUse == old(inUse) && h !in inUse
      ensures capacity > 0 ==> h in inUse && inUse == Sans(old(inUse) + [h], was)
      ensures Evicted(Sans(old(lru), was), k, lru, old(deleted) + Freed(old(lru), was), deleted)
      ensures forall g :: InTable(table.list, g) <==>
        (if g == h then capacity > 0 else InTable(old(table.list), g) && g != was && g !in Sans(old(lru), was)[..k])
      ensures usage + Charges(Sans(old(lru), was)[..k]) ==
        UsageAfter(old(usage), if capacity > 0 then charge else 0, was)
      ensures usage <= capacity || lru == []
      ensures k > 0 ==> usage + Sans(old(lru), was)[k - 1].charge > capacity
      ensures UsageAfter(old(usage), if capacity > 0 then charge else 0, was) <= capacity ==> k == 0
    {
      hide Valid, Without, Charges, Evicted, InTable;
      h := Make(key, hash, charge);
      was := null;
      assert deleted + Freed(lru, null) == deleted;
      if capacity > 0 {
        was := Place(h);
      }
      k := Evict();
      if capacity > 0 { InList(h); }
    }

    lemma InList(h: Handle)
      requires Valid() && h in inUse
      ensures InTable(table.list, h)
    {
      hide Lists, HandleTable.Valid;
    }

    /** A handle that is referred to by its maker only. */
    method Make(key: Bytes, hash: Word, charge: nat) returns (h: Handle)
      requires Valid()
      modifies this`alive, this`held
      ensures Valid() && fresh(h) && h.key == key && h.hash == hash && h.charge == charge && h.refs == 1 && !h.inCache
      ensures held == old(held) + multiset{h} && alive == old(alive) + {h}
      ensures h !in lru && h !in inUse && !InTable(table.list, h)
    {
      hide Lists, Tabled, HandleTable.Valid, Without, Charges;
      h := new Handle(key, hash, charge);
      NewLists(lru, inUse, usage, alive, held, deleted, h);
      NotTabled(table.list, lru, inUse, h);
      alive, held := alive + {h}, held + multiset{h};
      forall g | g in alive
        ensures CountOk(g, 0)
      {
        assert g != h ==> old(CountOk(g, 0));
      }
    }

    /** The part of Insert that caches the new handle. */
    method Place(h: Handle) returns (ghost was: Handle?)
      requires Valid() && h in alive && h !in lru && h !in inUse && h.refs == 1 && !h.inCache
      modifies this`lru, this`inUse, this`alive, this`deleted, this`usage, table, alive
      ensures Valid() && h in inUse && InTable(table.list, h) && held == old(held) && alive <= old(alive)
      ensures was != null ==> InTable(old(table.list), was) && Matches(was, h.key, h.hash)
      ensures was == null ==> forall g :: InTable(old(table.list), g) ==> !Matches(g, h.key, h.hash)
      ensures lru == Sans(old(lru), was) && inUse == Sans(old(inUse) + [h], was)
      ensures deleted == old(deleted) + Freed(old(lru), was) && usage == UsageAfter(old(usage), h.charge, was)
      ensures Replaced(old(table.list), table.list, h, was)
    {
      hide Lists, Tabled, HandleTable.Valid, Without;
      ghost var list := table.list;
      h.refs := h.refs + 1;
      h.inCache := true;
      CacheLists(lru, inUse, usage, alive, held, deleted, h);
      inUse := inUse + [h];
      usage := usage + h.charge;
      var gone := table.Insert(h);
      was := gone;
      InsertTabled(list, table.list, lru, old(inUse), h, was);
      forall g | g in alive
        ensures CountOk(g, 0)
      {
        assert old(CountOk(g, 0));
      }
      ghost var mine := inUse;
      InUseOnce(lru, inUse, usage, alive, held, deleted);
      FinishErase(gone);
      StillThere(mine, h, was, inUse);
      TabledHas(table.list, lru, inUse, h);
    }
  }

  /** The usage when a handle has taken the place of `was`. */
  function UsageAfter(usage: nat, charge: nat, was: Handle?): (u: int) {
    usage + charge - if was == null then 0 else was.charge
  }

  lemma NoCharges()
    ensures Charges([]) == 0
  {}

  lemma NotTabled(list: seq<Chain>, lru: seq<Handle>, inUse: seq<Handle>, h: Handle)
    requires Tabled(list, lru, inUse, null) && h !in lru && h !in inUse
    ensures !InTable(list, h)
  {}

  lemma NotVictim(lru: seq<Handle>, inUse: seq<Handle>, usage: nat, alive: set<Handle>, held: multiset<Handle>,
      deleted: seq<Handle>, e: Handle)
    requires Lists(lru, inUse, usage, alive, held, deleted)
    ensures e !in lru ==> Without(lru, e) == lru
  {
    WithoutIs(lru, e);
  }

  /** The first k of a list have gone, one after the other. */
  ghost predicate Evicted(was: seq<Handle>, k: int, now: seq<Handle>, freed: seq<Handle>, freed': seq<Handle>) {
    0 <= k <= |was| && now == was[k..] && freed' == freed + was[..k]
  }

  lemma WithoutFirst(s: seq<Handle>)
    requires s != []
    ensures Without(s, s[0]) == s[1..]
  {}

  lemma NotInUse(lru: seq<Handle>, inUse: seq<Handle>, usage: nat, alive: set<Handle>, held: multiset<Handle>,
      deleted: seq<Handle>, e: Handle)
    requires Lists(lru, inUse, usage, alive, held, deleted) && e in lru
    ensures Without(inUse, e) == inUse
  {
    WithoutIs(inUse, e);
  }

  lemma NewLists(lru: seq<Handle>, inUse: seq<Handle>, usage: nat, alive: set<Handle>, held: multiset<Handle>,
      deleted: seq<Handle>, h: Handle)
    requires Lists(lru, inUse, usage, alive, held, deleted) && h !in alive && h !in deleted
    ensures Lists(lru, inUse, usage, alive + {h}, held + multiset{h}, deleted)
    ensures h !in lru && h !in inUse && h !in held
  {
    hide NoDup, Charges;
  }

  lemma CacheLists(lru: seq<Handle>, inUse: seq<Handle>, usage: nat, alive: set<Handle>, held: multiset<Handle>,
      deleted: seq<Handle>, h: Handle)
    requires Lists(lru, inUse, usage, alive, held, deleted) && h in alive && h !in lru && h !in inUse
    ensures Lists(lru, inUse + [h], usage + h.charge, alive, held, deleted) && Plus(inUse, h, inUse + [h])
  {
    hide NoDup, Charges;
    AppendIs(inUse, h);
  }

  lemma InsertTabled(list: seq<Chain>, list': seq<Chain>, lru: seq<Handle>, inUse: seq<Handle>, h: Handle, was: Handle?)
    requires Tabled(list, lru, inUse, null) && h !in lru && h !in inUse
    requires was != null ==> InTable(list, was)
    requires Replaced(list, list', h, was)
    ensures Tabled(list', lru, inUse + [h], was) && was != h && (was != null ==> was in lru || was in inUse)
  {
    hide InTable;
  }

  lemma StillThere(s: seq<Handle>, h: Handle, was: Handle?, r: seq<Handle>)
    requires h in s && h != was && NoDup(s) && r == if was == null then s else Without(s, was)
    ensures h in r
  {
    if was != null { WithoutIs(s, was); }
  }

  lemma TabledHas(list: seq<Chain>, lru: seq<Handle>, inUse: seq<Handle>, h: Handle)
    requires Tabled(list, lru, inUse, null) && h in inUse
    ensures InTable(list, h)
  {}

  lemma InUseOnce(lru: seq<Handle>, inUse: seq<Handle>, usage: nat, alive: set<Handle>, held: multiset<Handle>,
      deleted: seq<Handle>)
    requires Lists(lru, inUse, usage, alive, held, deleted)
    ensures NoDup(inUse)
  {}
}
