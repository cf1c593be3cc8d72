/** util/cache: the chained hash table from keys to cache handles. */
module HandleTable {
  import opened Base

  /** LRUHandle. `refs` counts the references to it, the cache's own included. */
  class Handle {
    const key: Bytes
    const hash: Word
    const charge: nat
    var refs: nat
    var inCache: bool

    constructor (key: Bytes, hash: Word, charge: nat)
      ensures this.key == key && this.hash == hash && this.charge == charge && refs == 1 && !inCache
    {
      this.key, this.hash, this.charge, refs, inCache := key, hash, charge, 1, false;
    }
  }

  type Chain = seq<Handle>

  predicate Matches(h: Handle, key: Bytes, hash: Word) {
    h.hash == hash && h.key == key
  }

  /** Powers of two from 4 on: the capacities of the table, for which masking the hash is taking it
      modulo the capacity. */
  predicate Capacity(n: nat) {
    n == 4 || (n > 4 && n % 2 == 0 && Capacity(n / 2))
  }

  ghost predicate InTable(list: seq<Chain>, older h: Handle) {
    exists i :: 0 <= i < |list| && h in list[i]
  }

  /** Every handle hangs in the chain of its hash, and no two with the same key and hash. */
  ghost predicate Placed(list: seq<Chain>, i: nat) {
    i < |list| ==> forall p :: 0 <= p < |list[i]| ==> list[i][p].hash % |list| == i
  }

  ghost predicate Unique(chain: Chain) {
    forall p, q :: 0 <= p < q < |chain| ==> !Matches(chain[p], chain[q].key, chain[q].hash)
  }

  ghost predicate WellPlaced(list: seq<Chain>) {
    |list| > 0 && (forall i: nat :: Placed(list, i)) && forall i :: 0 <= i < |list| ==> Unique(list[i])
  }

  lemma PlacedAt(list: seq<Chain>, h: Handle)
    requires WellPlaced(list) && InTable(list, h)
    ensures h in list[h.hash % |list|]
  {
    var i: nat :| i < |list| && h in list[i];
    assert Placed(list, i);
  }

  /** A key and a hash name at most one handle of the table. */
  lemma AtMostOne(list: seq<Chain>, h: Handle, g: Handle)
    requires WellPlaced(list) && InTable(list, h) && InTable(list, g) && Matches(h, g.key, g.hash)
    ensures h == g
  {
    PlacedAt(list, h);
    PlacedAt(list, g);
    var c := list[h.hash % |list|];
    var p :| 0 <= p < |c| && c[p] == h;
    var q :| 0 <= q < |c| && c[q] == g;
    assert Unique(c) && Matches(g, h.key, h.hash);
  }

  function Count(list: seq<Chain>): (n: nat) {
    if list == [] then 0 else Count(list[..|list| - 1]) + |list[|list| - 1]|
  }

  lemma {:induction false} CountSet(list: seq<Chain>, i: nat, chain: Chain)
    requires i < |list|
    ensures Count(list[i := chain]) == Count(list) + |chain| - |list[i]|
    decreases |list|
  {
    var n := |list| - 1;
    if i < n {
      CountSet(list[..n], i, chain);
      assert list[i := chain][..n] == list[..n][i := chain];
    } else {
      assert list[i := chain][..n] == list[..n];
    }
  }

  /** Replacing one chain: what is in the table afterwards. */
  lemma ChainSet(list: seq<Chain>, i: nat, chain: Chain)
    requires WellPlaced(list) && i < |list| && Unique(chain)
    requires forall p :: 0 <= p < |chain| ==> chain[p].hash % |list| == i
    ensures WellPlaced(list[i := chain])
    ensures forall h :: InTable(list[i := chain], h) <==> h in chain || (InTable(list, h) && h !in list[i])
  {
    var l' := list[i := chain];
    forall j: nat
      ensures Placed(l', j)
    {
      assert Placed(list, j);
    }
    forall h
      ensures InTable(l', h) <==> h in chain || (InTable(list, h) && h !in list[i])
    {
      if InTable(list, h) { PlacedAt(list, h); }
      if h in list[i] {
        var p :| 0 <= p < |list[i]| && list[i][p] == h;
        assert Placed(list, i);
      }
      if h in chain { assert l'[i] == chain; }
      if InTable(l', h) && h !in chain {
        var j: nat :| j < |l'| && h in l'[j];
        assert j != i && list[j] == l'[j];
        assert Placed(list, j);
        var p :| 0 <= p < |list[j]| && list[j][p] == h;
      }
      if InTable(list, h) && h !in list[i] {
        var j: nat :| j < |list| && h in list[j];
        assert l'[j] == list[j];
      }
    }
  }

  /** The table with h in the place of `was`. */
  ghost predicate Replaced(list: seq<Chain>, list': seq<Chain>, h: Handle, was: Handle?) {
    && InTable(list', h) && (forall g :: InTable(list', g) ==> g == h || (InTable(list, g) && g != was))
    && (forall g :: InTable(list, g) && g != was ==> InTable(list', g))
  }

  class HandleTable {
    var list: seq<Chain>
    var elementNum: nat

    ghost predicate Sound()
      reads this
    {
      WellPlaced(list) && Capacity(|list|) && elementNum == Count(list)
    }

    /** There is no more than one handle to a chain on average. */
    ghost predicate Valid()
      reads this
    {
      Sound() && elementNum <= |list|
    }

    constructor ()
      ensures Valid() && forall h :: !InTable(list, h)
    {
      list, elementNum := [[], [], [], []], 0;
      new;
      EmptyList(list);
    }

    /** Find: the chain of the hash, and the first matching place in it or its end. */
    method Find(key: Bytes, hash: Word) returns (i: nat, p: nat)
      requires Valid()
      ensures i == hash % |list| && i < |list| && p <= |list[i]|
      ensures forall q :: 0 <= q < p ==> !Matches(list[i][q], key, hash)
      ensures p < |list[i]| ==> Matches(list[i][p], key, hash)
    {
      i := hash % |list|;
      p := 0;
      while p < |list[i]| && (list[i][p].hash != hash || list[i][p].key != key)
        invariant p <= |list[i]| && forall q :: 0 <= q < p ==> !Matches(list[i][q], key, hash)
      {
        p := p + 1;
      }
    }

    lemma Placement()
      requires Valid()
      ensures WellPlaced(list)
    {}

    lemma NotThere(key: Bytes, hash: Word, i: nat)
      requires Valid() && i == hash % |list|
      requires forall q :: 0 <= q < |list[i]| ==> !Matches(list[i][q], key, hash)
      ensures forall h :: InTable(list, h) ==> !Matches(h, key, hash)
    {
      forall h | InTable(list, h)
        ensures !Matches(h, key, hash)
      {
        PlacedAt(list, h);
        if h.hash == hash {
          var q :| 0 <= q < |list[i]| && list[i][q] == h;
        }
      }
    }

    method Lookup(key: Bytes, hash: Word) returns (r: Handle?)
      requires Valid()
      ensures r == null ==> forall h :: InTable(list, h) ==> !Matches(h, key, hash)
      ensures r != null ==> InTable(list, r) && Matches(r, key, hash)
    {
      var i, p := Find(key, hash);
      if p < |list[i]| {
        r := list[i][p];
      } else {
        r := null;
        NotThere(key, hash, i);
      }
    }

    /** Insert replaces the handle with the same key and hash, and returns it. */
    method Insert(h: Handle) returns (was: Handle?)
      requires Valid()
      modifies this
      ensures Valid() && (was != null ==> InTable(old(list), was) && Matches(was, h.key, h.hash))
      ensures was == null ==> forall g :: InTable(old(list), g) ==> !Matches(g, h.key, h.hash)
      ensures Replaced(old(list), list, h, was)
    {
      hide WellPlaced, Capacity, Count;
      var i, p := Find(h.key, h.hash);
      var c := list[i];
      was := if p < |c| then c[p] else null;
      var c' := Linked(c, p, h);
      if was == null { NotThere(h.key, h.hash, i); }
      ChainInsert(list, i, p, h);
      CountSet(list, i, c');
      list := list[i := c'];
      if was == null {
        elementNum := elementNum + 1;
        if elementNum > |list| {
          Resize();
        }
      }
    }

    /** Remove takes the handle with the key and hash out, if there is one. */
    method Remove(key: Bytes, hash: Word) returns (r: Handle?)
      requires Valid()
      modifies this
      ensures Valid() && (r != null ==> InTable(old(list), r) && Matches(r, key, hash))
      ensures r == null ==> forall g :: InTable(old(list), g) ==> !Matches(g, key, hash)
      ensures forall g :: InTable(list, g) <==> InTable(old(list), g) && g != r
      ensures forall g :: InTable(list, g) ==> !Matches(g, key, hash)
    {
      hide WellPlaced, Capacity, Count;
      var i, p := Find(key, hash);
      var c := list[i];
      if p < |c| {
        r := c[p];
        forall g | InTable(list, g) && Matches(g, key, hash)
          ensures g == r
        {
          assert r in list[i];
          AtMostOne(list, r, g);
        }
        ChainRemove(list, i, p);
        CountSet(list, i, c[..p] + c[p + 1..]);
        list := list[i := c[..p] + c[p + 1..]];
        elementNum := elementNum - 1;
      } else {
        r := null;
        NotThere(key, hash, i);
      }
    }

    /** Resize: every handle moves to the front of its new chain. */
    method Resize()
      requires Sound()
      modifies this
      ensures Valid() && elementNum == old(elementNum)
      ensures forall g :: InTable(list, g) <==> InTable(old(list), g)
    {
      hide WellPlaced, Count, Capacity;
      var newCapacity := NewCapacity(elementNum);
      var newList: seq<Chain> := seq(newCapacity, _ => []);
      EmptyList(newList);
      NoneMoved(list);
      for i := 0 to |list|
        invariant list == old(list) && elementNum == old(elementNum) && |newList| == newCapacity
        invariant WellPlaced(newList) && Count(newList) == Count(list[..i])
        invariant forall g :: InTable(newList, g) <==> InTable(list[..i], g)
      {
        var c := list[i];
        for p := 0 to |c|
          invariant list == old(list) && elementNum == old(elementNum) && |newList| == newCapacity
          invariant WellPlaced(newList) && Count(newList) == Count(list[..i]) + p
          invariant forall g :: InTable(newList, g) <==> InTable(list[..i], g) || g in c[..p]
        {
          var h := c[p];
          var j := h.hash % newCapacity;
          NotYetMoved(list, i, p);
          ChainPrepend(newList, j, h);
          CountSet(newList, j, [h] + newList[j]);
          MovedNext(list, i, p);
          newList := newList[j := [h] + newList[j]];
        }
        ChainMoved(list, i);
      }
      assert list[..|list|] == list;
      list := newList;
    }
  }

  method NewCapacity(n: nat) returns (c: nat)
    ensures Capacity(c) && c >= n && c >= 4
  {
    c := 4;
    while c < n
      invariant Capacity(c) && c >= 4
    {
      c := c * 2;
    }
  }

  lemma EmptyList(list: seq<Chain>)
    requires |list| > 0 && forall i :: 0 <= i < |list| ==> list[i] == []
    ensures WellPlaced(list) && Count(list) == 0 && forall g :: !InTable(list, g)
  {
    forall i: nat ensures Placed(list, i) {}
    EmptyCount(list);
  }

  lemma {:induction false} EmptyCount(list: seq<Chain>)
    requires forall i :: 0 <= i < |list| ==> list[i] == []
    ensures Count(list) == 0
  {
    if list != [] { EmptyCount(list[..|list| - 1]); }
  }

  lemma NoneMoved(list: seq<Chain>)
    ensures Count(list[..0]) == 0 && forall g :: !InTable(list[..0], g)
  {}

  lemma ChainMoved(list: seq<Chain>, i: nat)
    requires i < |list|
    ensures Count(list[..i + 1]) == Count(list[..i]) + |list[i]|
    ensures forall g :: InTable(list[..i + 1], g) <==> InTable(list[..i], g) || g in list[i][..|list[i]|]
  {
    assert list[..i + 1][..i] == list[..i];
    assert list[i][..|list[i]|] == list[i];
    forall g
      ensures InTable(list[..i + 1], g) <==> InTable(list[..i], g) || g in list[i]
    {
      if InTable(list[..i + 1], g) {
        var j :| 0 <= j < i + 1 && g in list[..i + 1][j];
        if j < i { assert list[..i][j] == list[j]; }
      }
      if InTable(list[..i], g) {
        var j :| 0 <= j < i && g in list[..i][j];
        assert list[..i + 1][j] == list[j];
      }
      if g in list[i] { assert list[..i + 1][i] == list[i]; }
    }
  }

  lemma MovedNext(list: seq<Chain>, i: nat, p: nat)
    requires i < |list| && p < |list[i]|
    ensures forall g :: g in list[i][..p + 1] <==> g in list[i][..p] || g == list[i][p]
  {
    assert list[i][..p + 1] == list[i][..p] + [list[i][p]];
  }

  lemma NotYetMoved(list: seq<Chain>, i: nat, p: nat)
    requires WellPlaced(list) && i < |list| && p < |list[i]|
    ensures var h := list[i][p]; forall g :: InTable(list[..i], g) || g in list[i][..p] ==> !Matches(g, h.key, h.hash)
    ensures !InTable(list[..i], list[i][p]) && list[i][p] !in list[i][..p]
  {
    var h := list[i][p];
    assert Unique(list[i]) && Placed(list, i);
    forall g | InTable(list[..i], g) || g in list[i][..p]
      ensures !Matches(g, h.key, h.hash)
    {
      if g in list[i][..p] {
        var q :| 0 <= q < p && list[i][..p][q] == g;
      } else {
        var j :| 0 <= j < i && g in list[..i][j];
        assert Placed(list, j);
        var q :| 0 <= q < |list[j]| && list[j][q] == g;
        assert g.hash % |list| == j;
      }
    }
  }

  lemma ChainPrepend(list: seq<Chain>, i: nat, h: Handle)
    requires WellPlaced(list) && i < |list| && i == h.hash % |list|
    requires forall g :: InTable(list, g) ==> !Matches(g, h.key, h.hash)
    ensures WellPlaced(list[i := [h] + list[i]])
    ensures forall g :: InTable(list[i := [h] + list[i]], g) <==> g == h || InTable(list, g)
  {
    var c := list[i];
    assert Placed(list, i) && Unique(c);
    forall q | 0 <= q < |c|
      ensures InTable(list, c[q]) && !Matches(h, c[q].key, c[q].hash)
    {
      assert c[q] in list[i];
    }
    ChainSet(list, i, [h] + c);
    var l' := list[i := [h] + c];
    forall g
      ensures InTable(l', g) <==> g == h || InTable(list, g)
    {
      assert g in c ==> InTable(list, g);
      assert InTable(l', g) <==> g in [h] + c || (InTable(list, g) && g !in c);
    }
  }

  lemma ChainRemove(list: seq<Chain>, i: nat, p: nat)
    requires WellPlaced(list) && i < |list| && p < |list[i]|
    ensures var c := list[i];
      var l' := list[i := c[..p] + c[p + 1..]];
      InTable(list, c[p]) && WellPlaced(l') && forall g :: InTable(l', g) <==> InTable(list, g) && g != c[p]
  {
    var c := list[i];
    var c' := c[..p] + c[p + 1..];
    assert Placed(list, i) && Unique(c) && c[p] in list[i];
    ChainSet(list, i, c');
    forall g
      ensures g in c' <==> g in c && g != c[p]
    {
      if g in c' {
        var q :| 0 <= q < |c'| && c'[q] == g;
        var o := if q < p then q else q + 1;
        assert c[o] == g;
        assert o != p && c[o] != c[p];
      }
      if g in c && g != c[p] {
        var q :| 0 <= q < |c| && c[q] == g;
        assert c'[if q < p then q else q - 1] == g;
      }
    }
  }

  /** The chain after an insertion at place p. */
  function Linked(c: Chain, p: nat, h: Handle): (r: Chain)
    requires p <= |c|
  {
    if p < |c| then c[..p] + [h] + c[p + 1..] else c[..p] + [h]
  }

  lemma LinkedUnique(c: Chain, p: nat, h: Handle)
    requires Unique(c) && p <= |c| && forall q :: 0 <= q < p ==> !Matches(c[q], h.key, h.hash)
    requires p < |c| ==> Matches(c[p], h.key, h.hash)
    ensures Unique(Linked(c, p, h))
  {
    forall q | p < q < |c|
      ensures !Matches(h, c[q].key, c[q].hash)
    {
      assert !Matches(c[p], c[q].key, c[q].hash);
    }
  }

  lemma LinkedElements(c: Chain, p: nat, h: Handle)
    requires Unique(c) && p <= |c|
    ensures forall g :: g in Linked(c, p, h) <==> g == h || (g in c && !(p < |c| && g == c[p]))
  {
    var c' := Linked(c, p, h);
    forall g
      ensures g in c' <==> g == h || (g in c && !(p < |c| && g == c[p]))
    {
      assert c'[p] == h;
      if g in c && !(p < |c| && g == c[p]) {
        var q :| 0 <= q < |c| && c[q] == g;
        assert c'[q] == g;
      }
      if g in c' && g != h {
        var q :| 0 <= q < |c'| && c'[q] == g;
        assert q != p && c[q] == g;
        if p < |c| { assert c[q] != c[p]; }
      }
    }
  }

  lemma ChainInsert(list: seq<Chain>, i: nat, p: nat, h: Handle)
    requires WellPlaced(list) && i < |list| && i == h.hash % |list| && p <= |list[i]|
    requires forall q :: 0 <= q < p ==> !Matches(list[i][q], h.key, h.hash)
    requires p < |list[i]| ==> Matches(list[i][p], h.key, h.hash)
    ensures var l' := list[i := Linked(list[i], p, h)];
      WellPlaced(l') && forall g ::
        InTable(l', g) <==> g == h || (InTable(list, g) && !(p < |list[i]| && g == list[i][p]))
  {
    var c := list[i];
    assert Placed(list, i) && Unique(c);
    LinkedUnique(c, p, h);
    LinkedElements(c, p, h);
    ChainSet(list, i, Linked(c, p, h));
    var l' := list[i := Linked(c, p, h)];
    hide Linked, WellPlaced, Unique;
    forall g
      ensures InTable(l', g) <==> g == h || (InTable(list, g) && !(p < |c| && g == c[p]))
    {
      assert g in c ==> InTable(list, g);
      assert InTable(l', g) <==> g in Linked(c, p, h) || (InTable(list, g) && g !in c);
    }
  }
}
