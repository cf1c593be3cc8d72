/** db/memtable/memtable.cc: versions of keys in a skip list of encoded records. */
module MemTable {
  import opened Base
  import opened Coding
  import opened Comparator
  import E = Entries
  import M = Merging
  import S = SkipList

  /** A version as Put receives it. */
  datatype Rec = Rec(user: Bytes, sn: nat, kind: nat, value: Bytes) {
    predicate Fits() {
      sn <= MAX_SEQUENCE && kind <= TYPE_INSERTION && |user| + 8 < W32 && |value| < W32
    }

    function Tag(): (t: nat) {
      Pack(sn, kind)
    }

    function ToEntry(): (e: E.Entry) {
      E.Entry(Rank(user), sn, if kind == TYPE_INSERTION then Some(value) else None)
    }
  }

  /** The record in memory: the internal key and the value, each behind its length. */
  function Record(r: Rec): (p: Bytes) {
    LengthPrefixed(InternalKey(r.user, r.Tag())) + LengthPrefixed(r.value)
  }

  /** DecodeLengthPrefixedSlice on a record. */
  function RecordKey(p: Bytes): (k: Bytes) {
    match GetLengthPrefixed(p)
    case Parsed(k, _) => k
    case Bad => []
    case Undefined => []
  }

  /** MemTable::KeyComparator. */
  function RecordOrder(a: Bytes, b: Bytes): (r: int) {
    InternalCompare(RecordKey(a), RecordKey(b))
  }

  lemma RecordOrderTotal()
    ensures M.TotalOrder(RecordOrder)
  {
    InternalTotal();
    hide InternalCompare, RecordKey;
  }

  lemma RecordParts(key: Bytes, value: Bytes)
    requires |key| < W32 && |value| < W32
    ensures GetLengthPrefixed(LengthPrefixed(key) + LengthPrefixed(value)) == Parsed(key, LengthPrefixed(value))
    ensures GetLengthPrefixed(LengthPrefixed(value)) == Parsed(value, [])
  {
    hide LengthPrefixed, GetLengthPrefixed;
    LengthPrefixedRoundTrip(key, LengthPrefixed(value));
    LengthPrefixedRoundTrip(value, []);
    assert LengthPrefixed(value) + [] == LengthPrefixed(value);
  }

  /** LookupKey::FullKey. */
  function FullKey(user: Bytes, sn: nat): (p: Bytes) {
    LengthPrefixed(InternalKey(user, Pack(sn, TYPE_LOOKUP)))
  }

  lemma FullKeyParts(user: Bytes, sn: nat)
    requires |user| + 8 < W32
    ensures RecordKey(FullKey(user, sn)) == InternalKey(user, Pack(sn, TYPE_LOOKUP))
  {
    hide LengthPrefixed, GetLengthPrefixed, InternalKey;
    LengthPrefixedRoundTrip(InternalKey(user, Pack(sn, TYPE_LOOKUP)), []);
    assert FullKey(user, sn) + [] == FullKey(user, sn);
  }

  lemma RecordAgainst(r: Rec, user: Bytes, sn: nat)
    requires r.Fits() && sn <= MAX_SEQUENCE && |user| + 8 < W32
    ensures RecordOrder(Record(r), FullKey(user, sn)) < 0
       <==> Rank(r.user) < Rank(user) || (r.user == user && r.sn > sn)
  {
    hide LengthPrefixed, GetLengthPrefixed, InternalKey, FullKey, Rank, Compare, Pack, UserKeyOf, TagOf;
    RecordParts(InternalKey(r.user, r.Tag()), r.value);
    FullKeyParts(user, sn);
    PackParts(r.sn, r.kind);
    PackParts(sn, TYPE_LOOKUP);
    RankEmbeds(r.user, user);
    if r.sn != sn { PackOrder(r.sn, r.kind, sn, TYPE_LOOKUP); } else { SamePack(sn, r.kind); }
  }

  lemma SamePack(sn: nat, kind: nat)
    requires kind <= TYPE_INSERTION
    ensures Pack(sn, kind) <= Pack(sn, TYPE_LOOKUP)
  {}

  ghost predicate Encoded(keys: seq<Bytes>, recs: seq<Rec>) {
    |keys| == |recs| && forall i :: 0 <= i < |recs| ==> recs[i].Fits() && keys[i] == Record(recs[i])
  }

  /** The versions in a memtable. */
  ghost function ViewOf(recs: seq<Rec>): (r: iset<E.Entry>) {
    iset rec | rec in recs :: rec.ToEntry()
  }

  lemma NothingEncoded()
    ensures Encoded([], []) && ViewOf([]) == iset{}
  {}

  lemma InView(recs: seq<Rec>, e: E.Entry)
    ensures e in ViewOf(recs) <==> exists i :: 0 <= i < |recs| && recs[i].ToEntry() == e
  {
    if e in ViewOf(recs) {
      var rec :| rec in recs && rec.ToEntry() == e;
      var i :| 0 <= i < |recs| && recs[i] == rec;
    }
  }

  /** What the first record at or above the lookup key says about the newest visible version. */
  function Found(recs: seq<Rec>, user: Bytes, at: nat): (r: Option<E.Entry>) {
    if at < |recs| && recs[at].user == user then Some(recs[at].ToEntry()) else None
  }

  /** Record i is the newest of the user's key at or below sn; there is none for i past the end, or
      for another key at i. */
  ghost predicate NewestAt(recs: seq<Rec>, user: Bytes, sn: nat, i: nat) {
    && (i < |recs| && recs[i].user == user ==> recs[i].sn <= sn)
    && forall x :: x in recs && x.user == user && x.sn <= sn ==>
         i < |recs| && recs[i].user == user && x.sn <= recs[i].sn
  }

  lemma SeekNewest(keys: seq<Bytes>, recs: seq<Rec>, user: Bytes, sn: nat, at: nat)
    requires Encoded(keys, recs) && M.Ascending(RecordOrder, keys) && sn <= MAX_SEQUENCE && |user| + 8 < W32
    requires at <= |recs|
    requires forall i :: 0 <= i < at ==> RecordOrder(keys[i], FullKey(user, sn)) < 0
    requires forall i :: at <= i < |keys| ==> RecordOrder(keys[i], FullKey(user, sn)) >= 0
    ensures NewestAt(recs, user, sn, at)
  {
    hide Record, FullKey, Rank, RecordOrder;
    if at < |recs| { RecordAgainst(recs[at], user, sn); }
    forall x | x in recs && x.user == user && x.sn <= sn
      ensures at < |recs| && recs[at].user == user && x.sn <= recs[at].sn
    {
      var i :| 0 <= i < |recs| && recs[i] == x;
      RecordAgainst(recs[i], user, sn);
      FirstCovers(keys, recs, user, sn, at, i);
    }
  }

  /** The newest record of a user key decides by its own type, and an older one never does. */
  lemma NewestFinds(recs: seq<Rec>, user: Bytes, sn: nat, at: nat)
    requires NewestAt(recs, user, sn, at) && at <= |recs|
    ensures E.Finds(ViewOf(recs), Rank(user), sn, Found(recs, user, at))
  {
    hide Rank, ViewOf;
    forall x | x in ViewOf(recs) && x.key == Rank(user)
      ensures exists r :: r in recs && r.user == user && r.sn == x.sn
    {
      InView(recs, x);
      var i :| 0 <= i < |recs| && recs[i].ToEntry() == x;
      RankEmbeds(recs[i].user, user);
      assert recs[i] in recs;
    }
    if at < |recs| { InView(recs, recs[at].ToEntry()); }
  }

  /** What a reader at sn is told: the value of the newest record, or of a deletion that there is
      none; and nothing when there is no such record. */
  ghost predicate Reads(recs: seq<Rec>, user: Bytes, sn: nat, hit: bool, value: Option<Bytes>) {
    if hit then
      exists i :: 0 <= i < |recs| && recs[i].user == user && NewestAt(recs, user, sn, i)
        && value == if recs[i].kind == TYPE_INSERTION then Some(recs[i].value) else None
    else value == None && forall x :: x in recs && x.user == user ==> x.sn > sn
  }

  ghost predicate OneMore(recs: seq<Rec>, recs': seq<Rec>, r: Rec) {
    multiset(recs') == multiset(recs) + multiset{r}
  }

  /** A value that was put is read, and a key that was deleted is not found: the last write under
      the key decides for whoever reads at its number or, with no other write since, above it. */
  lemma LastWriteReads(recs: seq<Rec>, recs': seq<Rec>, r: Rec, sn: nat, hit: bool, value: Option<Bytes>)
    requires OneMore(recs, recs', r) && r.sn <= sn && Reads(recs', r.user, sn, hit, value)
    requires forall x :: x in recs && x.user == r.user ==> x.sn < r.sn
    ensures r.kind == TYPE_INSERTION ==> hit && value == Some(r.value)
    ensures r.kind == TYPE_DELETION ==> hit && value == None
  {
    assert r in multiset(recs');
    forall x | x in recs'
      ensures x == r || x in recs
    {
      assert x in multiset(recs');
    }
  }

  /** Reads at older numbers, and of other keys, are as before. */
  lemma OtherReadsStay(recs: seq<Rec>, recs': seq<Rec>, r: Rec, user: Bytes, sn: nat, hit: bool, value: Option<Bytes>)
    requires OneMore(recs, recs', r) && (user != r.user || sn < r.sn)
    requires Reads(recs', user, sn, hit, value)
    ensures Reads(recs, user, sn, hit, value)
  {
    forall x
      ensures x in recs' <==> x in recs || x == r
    {
      assert x in recs' <==> x in multiset(recs');
      assert x in recs <==> x in multiset(recs);
    }
    if hit {
      var i :| 0 <= i < |recs'| && recs'[i].user == user && NewestAt(recs', user, sn, i)
        && value == if recs'[i].kind == TYPE_INSERTION then Some(recs'[i].value) else None;
      assert recs'[i] in recs;
      var j :| 0 <= j < |recs| && recs[j] == recs'[i];
      assert NewestAt(recs, user, sn, j);
    }
  }

  lemma SeekFindsNewest(keys: seq<Bytes>, recs: seq<Rec>, user: Bytes, sn: nat, at: nat)
    requires Encoded(keys, recs) && M.Ascending(RecordOrder, keys) && sn <= MAX_SEQUENCE && |user| + 8 < W32
    requires at <= |recs|
    requires forall i :: 0 <= i < at ==> RecordOrder(keys[i], FullKey(user, sn)) < 0
    requires forall i :: at <= i < |keys| ==> RecordOrder(keys[i], FullKey(user, sn)) >= 0
    ensures NewestAt(recs, user, sn, at) && E.Finds(ViewOf(recs), Rank(user), sn, Found(recs, user, at))
  {
    hide *;
    SeekNewest(keys, recs, user, sn, at);
    NewestFinds(recs, user, sn, at);
  }

  lemma FirstCovers(keys: seq<Bytes>, recs: seq<Rec>, user: Bytes, sn: nat, at: nat, i: nat)
    requires Encoded(keys, recs) && M.Ascending(RecordOrder, keys) && sn <= MAX_SEQUENCE && |user| + 8 < W32
    requires at <= i < |recs| && recs[i].user == user && recs[i].sn <= sn
    requires RecordOrder(keys[at], FullKey(user, sn)) >= 0
    ensures recs[at].user == user && recs[at].sn <= sn && recs[i].sn <= recs[at].sn
  {
    hide Record, FullKey, Rank, RecordOrder;
    RecordAgainst(recs[at], user, sn);
    RankEmbeds(recs[at].user, user);
    if i > at {
      RecordAgainst(recs[at], recs[at].user, recs[at].sn);
      RecordAgainst(recs[i], recs[at].user, recs[at].sn);
      NotBelow(keys[at], keys[i], FullKey(recs[at].user, recs[at].sn));
    }
  }

  lemma NotBelow(a: Bytes, b: Bytes, k: Bytes)
    requires RecordOrder(a, b) <= 0 && RecordOrder(a, k) >= 0
    ensures RecordOrder(b, k) >= 0
  {
    hide RecordOrder;
    RecordOrderTotal();
    assert RecordOrder(k, a) <= 0;
    assert RecordOrder(k, b) <= 0;
  }

  /** The buffer that Put fills. */
  method Encode(sn: nat, kind: nat, key: Bytes, value: Bytes) returns (buf: Bytes)
    requires Rec(key, sn, kind, value).Fits()
    ensures buf == Record(Rec(key, sn, kind, value))
  {
    hide Fixed64, Pack;
    buf := EncodeVarint(|key| + 8);
    buf := buf + key + Fixed64(Pack(sn, kind));
    var len := EncodeVarint(|value|);
    buf := buf + len + value;
    RecordBytes(Rec(key, sn, kind, value), buf);
  }

  class MemTable {
    const table: S.List<Bytes>
    ghost var recs: seq<Rec>

    ghost predicate Valid()
      reads this, table, table.nodes
    {
      table.Valid() && table.cmp == RecordOrder && Encoded(table.Keys(), recs)
    }

    ghost function Repr(): (r: set<object>)
      reads table
    {
      {this, table} + set n | n in table.nodes
    }

    ghost function View(): (r: iset<E.Entry>)
      reads this
    {
      ViewOf(recs)
    }

    constructor ()
      ensures Valid() && recs == [] && View() == iset{} && fresh(Repr())
    {
      hide RecordOrder, M.TotalOrder, S.List.Valid, Encoded, ViewOf;
      RecordOrderTotal();
      NothingEncoded();
      table := new S.List(RecordOrder, []);
      recs := [];
    }

    /** MemTable::Put: encode the record and insert it; `height` is the skip list's random choice. */
    method Put(sn: nat, kind: nat, key: Bytes, value: Bytes, height: nat)
      requires Valid() && Rec(key, sn, kind, value).Fits() && 1 <= height <= S.MAX_HEIGHT
      modifies Repr()
      ensures Valid() && View() == old(View()) + iset{Rec(key, sn, kind, value).ToEntry()}
      ensures OneMore(old(recs), recs, Rec(key, sn, kind, value))
      ensures fresh(Repr() - old(Repr()))
    {
      hide RecordOrder, S.List.Valid, S.Inserted, S.KeysOf, Record, ViewOf, Encoded;
      ghost var r := Rec(key, sn, kind, value);
      var buf := Encode(sn, kind, key, value);
      ghost var keys := table.Keys();
      ghost var pos := table.Insert(buf, height);
      ghost var at := pos - 1;
      EncodedInserted(keys, recs, at, r);
      InsertedOne(recs, at, r);
      recs := S.Inserted(recs, at, r);
    }

    /** MemTable::Get: a hit is the newest record at or below sn, which may be a deletion. */
    method Get(user: Bytes, sn: nat) returns (hit: bool, value: Option<Bytes>)
      requires Valid() && sn <= MAX_SEQUENCE && |user| + 8 < W32
      ensures Reads(recs, user, sn, hit, value)
      ensures exists r :: E.Finds(View(), Rank(user), sn, r) && hit == r.Some? && value == E.Answer(r)
    {
      hide RecordOrder, S.List.Valid, S.KeysOf, FullKey, Rank, Compare, LengthPrefixed, GetLengthPrefixed,
          UserKeyOf, TagOf, Pack, InternalKey, ViewOf, M.Ascending, E.IsBest;
      var iter := new S.Iter(table);
      iter.Seek(FullKey(user, sn));
      ghost var at := iter.pos - 1;
      table.PosInKeys(FullKey(user, sn), iter.pos);
      table.KeysAscend();
      SeekFindsNewest(table.Keys(), recs, user, sn, at);
      hit, value := false, None;
      if iter.Valid() {
        var record := iter.node.key;
        ghost var r := recs[at];
        RecordParts(InternalKey(r.user, r.Tag()), r.value);
        RecParts(r);
        var p := GetLengthPrefixed(record);
        var internal, rest := p.value, p.rest;
        RankEmbeds(user, UserKeyOf(internal));
        if Compare(user, UserKeyOf(internal)) == 0 {
          if TagOf(internal) % 256 == TYPE_INSERTION {
            var v := GetLengthPrefixed(rest);
            hit, value := true, Some(v.value);
          } else if TagOf(internal) % 256 == TYPE_DELETION {
            hit := true;
          }
        }
      }
      assert E.Finds(View(), Rank(user), sn, Found(recs, user, at));
    }
  }

  lemma InsertedOne(recs: seq<Rec>, at: nat, r: Rec)
    requires at <= |recs|
    ensures OneMore(recs, S.Inserted(recs, at, r), r)
  {
    assert recs == recs[..at] + recs[at..];
  }

  lemma RecParts(r: Rec)
    requires r.Fits()
    ensures var k := InternalKey(r.user, r.Tag()); UserKeyOf(k) == r.user && TagOf(k) % 256 == r.kind
  {
    hide InternalKey, Pack, UserKeyOf, TagOf;
    PackParts(r.sn, r.kind);
  }

  lemma RecordBytes(r: Rec, buf: Bytes)
    requires r.Fits() && buf == Varint(|r.user| + 8) + r.user + Fixed64(r.Tag()) + Varint(|r.value|) + r.value
    ensures buf == Record(r)
  {
    hide Varint, Fixed64, InternalKey, TagOf, UserKeyOf, Pack;
    InternalKeyIs(r.user, r.Tag());
    assert buf == (Varint(|r.user| + 8) + (r.user + Fixed64(r.Tag()))) + (Varint(|r.value|) + r.value);
  }

  lemma EncodedInserted(keys: seq<Bytes>, recs: seq<Rec>, at: nat, r: Rec)
    requires Encoded(keys, recs) && at <= |keys| && r.Fits()
    ensures |recs| == |keys|
    ensures Encoded(S.Inserted(keys, at, Record(r)), S.Inserted(recs, at, r))
    ensures ViewOf(S.Inserted(recs, at, r)) == ViewOf(recs) + iset{r.ToEntry()}
  {
    hide Record;
    S.InsertedElements(recs, at, r);
  }
}
