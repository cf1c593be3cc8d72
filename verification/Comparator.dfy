/** util/comparator and db/format/internal_key: the bytewise order on user keys, the order on
    internal keys, and the short separators that go into an index block. */
module Comparator {
  import opened Base
  import opened Coding
  import opened Block
  import Entries

  // ---------------------------------------------------------------- bytewise order

  /** Slice::compare: memcmp on the common length, then the shorter slice first. */
  function Compare(a: Bytes, b: Bytes): (r: int) {
    if a == [] || b == [] then (if a == b then 0 else if a == [] then -1 else 1)
    else if a[0] != b[0] then (if a[0] < b[0] then -1 else 1)
    else Compare(a[1..], b[1..])
  }

  /** A real number for every byte string, read as digits behind a radix point. */
  function Rank(a: Bytes): (r: real)
    ensures 0.0 <= r < 1.0
  {
    if a == [] then 0.0 else (a[0] as real + 1.0 + Rank(a[1..])) / 257.0
  }

  /** The bytewise order embeds in the reals. */
  lemma {:induction false} RankEmbeds(a: Bytes, b: Bytes)
    ensures Compare(a, b) < 0 <==> Rank(a) < Rank(b)
    ensures Compare(a, b) > 0 <==> Rank(a) > Rank(b)
    ensures Compare(a, b) == 0 <==> a == b
  {
    if a != [] && b != [] {
      RankEmbeds(a[1..], b[1..]);
      assert a[0] == b[0] && a[1..] == b[1..] ==> a == [a[0]] + a[1..] == b;
    }
  }

  lemma CompareTotal()
    ensures TotalOrder(Compare)
  {
    forall a, b
      ensures Compare(a, b) < 0 <==> Rank(a) < Rank(b)
      ensures Compare(a, b) > 0 <==> Rank(a) > Rank(b)
    {
      RankEmbeds(a, b);
    }
    hide Compare, Rank;
  }

  lemma {:induction false} CommonFront(p: Bytes, a: Bytes, b: Bytes)
    ensures Compare(p + a, p + b) == Compare(a, b)
  {
    if p == [] {
      assert p + a == a && p + b == b;
    } else {
      CommonFront(p[1..], a, b);
      assert (p + a)[1..] == p[1..] + a && (p + b)[1..] == p[1..] + b;
    }
  }

  /** Keys that agree on the first n bytes compare as they do at byte n. */
  lemma FirstDifference(a: Bytes, b: Bytes, n: nat)
    requires n < |a| && n < |b| && a[..n] == b[..n] && a[n] < b[n]
    ensures Compare(a, b) < 0
  {
    assert a == a[..n] + a[n..] && b == b[..n] + b[n..];
    CommonFront(a[..n], a[n..], b[n..]);
  }

  /** r is s with one byte raised by one and everything behind it cut off. */
  ghost predicate Raised(s: Bytes, r: Bytes) {
    && 0 < |r| <= |s| && r[..|r| - 1] == s[..|r| - 1]
    && r[|r| - 1] as nat == s[|r| - 1] as nat + 1
  }

  lemma RaisedIsAbove(s: Bytes, r: Bytes)
    requires Raised(s, r)
    ensures Compare(s, r) < 0
  {
    FirstDifference(s, r, |r| - 1);
  }

  /** The keys part at byte d, and there is room for a byte between theirs. */
  ghost predicate HasRoom(start: Bytes, limit: Bytes, d: nat) {
    && d < |start| && d < |limit| && start[..d] == limit[..d]
    && (start[d] as nat) + 1 < limit[d] as nat
  }

  lemma SameAt(a: Bytes, b: Bytes, n: nat, i: nat)
    requires i < n <= |a| && n <= |b| && a[..n] == b[..n]
    ensures a[i] == b[i]
  {
    assert a[..n][i] == b[..n][i];
  }

  /** There is room only where the keys part. */
  lemma RoomIsAt(start: Bytes, limit: Bytes, d: nat, e: nat)
    requires HasRoom(start, limit, d) && e <= |start| && e <= |limit| && start[..e] == limit[..e]
    requires e < |start| && e < |limit| ==> start[e] != limit[e]
    ensures d == e
  {
    if d < e {
      SameAt(start, limit, e, d);
    } else if e < d {
      SameAt(start, limit, d, e);
    }
  }

  /** ByteWiseComparator::FindShortestMiddle: where the keys part with room between them, the key is
      cut off there and raised; otherwise it is left alone. */
  method FindShortestMiddle(start: Bytes, limit: Bytes) returns (r: Bytes)
    ensures forall d: nat :: HasRoom(start, limit, d) ==> |r| == d + 1 && Raised(start, r)
    ensures (forall d: nat :: !HasRoom(start, limit, d)) ==> r == start
    ensures r == start || (Raised(start, r) && Compare(r, limit) < 0)
    ensures Compare(start, r) <= 0 && (Compare(start, limit) < 0 ==> Compare(r, limit) < 0)
  {
    hide Compare;
    var minLen := if |start| < |limit| then |start| else |limit|;
    var diff := 0;
    while diff < minLen && start[diff] == limit[diff]
      invariant diff <= minLen && start[..diff] == limit[..diff]
    {
      diff := diff + 1;
    }
    r := start;
    RankEmbeds(start, start);
    forall d: nat | HasRoom(start, limit, d)
      ensures d == diff
    {
      RoomIsAt(start, limit, d, diff);
    }
    if diff < minLen {
      var diffByte := start[diff];
      if diffByte < 0xff && diffByte + 1 < limit[diff] {
        r := start[..diff] + [diffByte + 1];
        assert r[..diff] == start[..diff];
        assert HasRoom(start, limit, diff);
        FirstDifference(r, limit, diff);
        RaisedIsAbove(start, r);
      }
    }
  }

  /** ByteWiseComparator::FindShortestBigger: a key of nothing but 0xff bytes is left alone. */
  method FindShortestBigger(start: Bytes) returns (r: Bytes)
    ensures r == start || Raised(start, r)
    ensures r == start <==> forall i :: 0 <= i < |start| ==> start[i] == 0xff
    ensures Compare(start, r) <= 0
    ensures forall i :: r != start && 0 <= i < |r| - 1 ==> start[i] == 0xff
  {
    hide Compare;
    RankEmbeds(start, start);
    for i := 0 to |start|
      invariant forall j :: 0 <= j < i ==> start[j] == 0xff
    {
      var ch := start[i];
      if ch < 0xff {
        r := start[..i] + [ch + 1];
        assert r[..i] == start[..i];
        RaisedIsAbove(start, r);
        return;
      }
    }
    return start;
  }

  // ---------------------------------------------------------------- internal keys

  const TYPE_DELETION: nat := 0
  const TYPE_INSERTION: nat := 1
  const TYPE_LOOKUP: nat := 1
  const MAX_SEQUENCE: nat := 0xff_ffff_ffff_ffff
  const MAX_TAG: nat := 0xffff_ffff_ffff_ff01

  /** PackSequenceAndType. */
  function Pack(sn: nat, kind: nat): (tag: nat) {
    sn * 256 + kind
  }

  lemma PackParts(sn: nat, kind: nat)
    requires sn <= MAX_SEQUENCE && kind <= TYPE_INSERTION
    ensures Pack(sn, kind) <= MAX_TAG && Pack(sn, kind) / 256 == sn && Pack(sn, kind) % 256 == kind
  {}

  lemma PackOrder(sn: nat, kind: nat, sn': nat, kind': nat)
    requires kind <= TYPE_INSERTION && kind' <= TYPE_INSERTION && sn != sn'
    ensures Pack(sn, kind) < Pack(sn', kind') <==> sn < sn'
    ensures Pack(sn, kind) > Pack(sn', kind') <==> sn > sn'
  {}

  /** AppendInternalKey: the user key, then sequence number and type packed into 64 bits. */
  function InternalKey(user: Bytes, tag: nat): (r: Bytes)
    ensures |r| == |user| + 8 && UserKeyOf(r) == user && (tag < W64 ==> TagOf(r) == tag)
  {
    InternalKeyTail(user, tag);
    user + Fixed64(tag)
  }

  lemma InternalKeyTail(user: Bytes, tag: nat)
    ensures var r := user + Fixed64(tag); |r| == |user| + 8 && r[..|user|] == user && r[|user|..] == Fixed64(tag)
    ensures tag < W64 ==> DecodeFixed64(Fixed64(tag)) == tag
  {
    hide Fixed64, DecodeFixed64;
    if tag < W64 {
      Fixed64RoundTrip(tag, []);
      assert Fixed64(tag) + [] == Fixed64(tag);
    }
  }

  function UserKeyOf(k: Bytes): (r: Bytes)
    requires |k| >= 8
  {
    k[..|k| - 8]
  }

  function TagOf(k: Bytes): (r: nat)
    requires |k| >= 8
    ensures r < W64
  {
    DecodeFixed64(k[|k| - 8..])
  }

  lemma InternalKeyIs(user: Bytes, tag: nat)
    ensures InternalKey(user, tag) == user + Fixed64(tag)
  {
    hide Fixed64, TagOf, UserKeyOf;
  }

  datatype ParsedKey = ParsedKey(user: Bytes, sn: nat, kind: nat)

  /** ParseInternalKey: rejects keys without a tag and unknown record types. */
  function ParseInternalKey(k: Bytes): (r: Option<ParsedKey>) {
    if |k| < 8 || TagOf(k) % 256 > TYPE_INSERTION then None
    else Some(ParsedKey(UserKeyOf(k), TagOf(k) / 256, TagOf(k) % 256))
  }

  lemma ParseRoundTrip(user: Bytes, sn: nat, kind: nat)
    requires sn <= MAX_SEQUENCE && kind <= TYPE_INSERTION
    ensures ParseInternalKey(InternalKey(user, Pack(sn, kind))) == Some(ParsedKey(user, sn, kind))
  {
    hide InternalKey, TagOf, UserKeyOf, Pack;
    PackParts(sn, kind);
  }

  /** InternalKeyComparator::Compare: user key ascending, then tag descending. The source demands
      keys of at least eight bytes; shorter ones are put first here. */
  function InternalCompare(a: Bytes, b: Bytes): (r: int) {
    if |a| < 8 || |b| < 8 then
      (if |a| >= 8 then 1 else if |b| >= 8 then -1 else Compare(a, b))
    else
      var r := Compare(UserKeyOf(a), UserKeyOf(b));
      if r != 0 then r
      else if TagOf(a) > TagOf(b) then -1 else if TagOf(a) < TagOf(b) then 1 else 0
  }

  lemma InternalTotal()
    ensures TotalOrder(InternalCompare)
  {
    hide Compare, Rank, TagOf, UserKeyOf;
    forall a, b: Bytes
      ensures InternalCompare(a, b) < 0 <==> Below(a, b)
      ensures InternalCompare(a, b) > 0 <==> Below(b, a)
    {
      InternalIsBelow(a, b);
    }
    hide InternalCompare;
  }

  /** The same order, by ranks. */
  ghost predicate Below(a: Bytes, b: Bytes) {
    if |a| < 8 || |b| < 8 then |b| >= 8 > |a| || (|a| < 8 && |b| < 8 && Rank(a) < Rank(b))
    else Rank(UserKeyOf(a)) < Rank(UserKeyOf(b)) || (Rank(UserKeyOf(a)) == Rank(UserKeyOf(b)) && TagOf(a) > TagOf(b))
  }

  lemma InternalIsBelow(a: Bytes, b: Bytes)
    ensures InternalCompare(a, b) < 0 <==> Below(a, b)
    ensures InternalCompare(a, b) > 0 <==> Below(b, a)
  {
    hide Compare, Rank, TagOf, UserKeyOf;
    RankEmbeds(a, b);
    if |a| >= 8 && |b| >= 8 { RankEmbeds(UserKeyOf(a), UserKeyOf(b)); }
  }

  /** Internal keys compare as the versions they stand for. */
  lemma InternalIsBefore(u: Bytes, sn: nat, kind: nat, u': Bytes, sn': nat, kind': nat, v: Option<Bytes>,
      v': Option<Bytes>)
    requires sn <= MAX_SEQUENCE && kind <= TYPE_INSERTION && sn' <= MAX_SEQUENCE && kind' <= TYPE_INSERTION
    requires u != u' || sn != sn'
    ensures InternalCompare(InternalKey(u, Pack(sn, kind)), InternalKey(u', Pack(sn', kind'))) < 0
       <==> Entries.Before(Entries.Entry(Rank(u), sn, v), Entries.Entry(Rank(u'), sn', v'))
  {
    hide InternalKey, TagOf, UserKeyOf, Compare, Rank, Pack;
    PackParts(sn, kind);
    PackParts(sn', kind');
    RankEmbeds(u, u');
    if sn != sn' { PackOrder(sn, kind, sn', kind'); }
  }

  /** What a separator between two adjacent keys of a table must do: no key in the gap it opens
      above `last` has the user key of `next`, so a lookup that falls into the gap may stop. */
  ghost predicate Separator(last: Bytes, sep: Bytes, next: Bytes) {
    && |sep| >= 8
    && InternalCompare(last, sep) <= 0 && InternalCompare(sep, next) < 0
    && (forall t: Bytes :: |t| >= 8 && |next| >= 8 && InternalCompare(last, t) < 0 && InternalCompare(t, sep) <= 0
          ==> UserKeyOf(t) != UserKeyOf(next))
  }

  /** InternalKeyComparator::FindShortestMiddle: shorter exactly if the user keys part with room
      between them before the last byte of the first. */
  method FindShortestInternalMiddle(start: Bytes, limit: Bytes) returns (r: Bytes)
    requires |start| >= 8 && |limit| >= 8 && InternalCompare(start, limit) < 0
    ensures Separator(start, r, limit) && |r| <= |start| + 8
    ensures forall d: nat :: HasRoom(UserKeyOf(start), UserKeyOf(limit), d) && d + 1 < |start| - 8 ==> |r| == d + 9
    ensures (forall d: nat :: HasRoom(UserKeyOf(start), UserKeyOf(limit), d) ==> d + 1 >= |start| - 8) ==> r == start
  {
    hide Compare, TagOf, Raised, InternalCompare, Fixed64, HasRoom;
    var startUser := UserKeyOf(start);
    var limitUser := UserKeyOf(limit);
    var tmp := FindShortestMiddle(startUser, limitUser);
    if Raised(startUser, tmp) { RaisedIsAbove(startUser, tmp); }
    if |tmp| < |startUser| && Compare(startUser, tmp) < 0 {
      r := InternalKey(tmp, MAX_TAG);
      ShortSeparates(start, r, limit);
    } else {
      r := start;
      SelfSeparates(start, limit);
    }
  }

  lemma ShortSeparates(start: Bytes, r: Bytes, limit: Bytes)
    requires |start| >= 8 && |r| >= 8 && |limit| >= 8
    requires Compare(UserKeyOf(start), UserKeyOf(r)) < 0 && Compare(UserKeyOf(r), UserKeyOf(limit)) < 0
    ensures Separator(start, r, limit)
  {
    hide Compare, TagOf, UserKeyOf;
    CompareTotal();
    forall t: Bytes | |t| >= 8 && InternalCompare(start, t) < 0 && InternalCompare(t, r) <= 0
      ensures UserKeyOf(t) != UserKeyOf(limit)
    {
      assert Compare(UserKeyOf(t), UserKeyOf(r)) <= 0;
    }
  }

  lemma SelfSeparates(start: Bytes, limit: Bytes)
    requires |start| >= 8 && |limit| >= 8 && InternalCompare(start, limit) < 0
    ensures Separator(start, start, limit)
  {
    InternalTotal();
    hide InternalCompare;
  }

  /** The shortened whole key is also the shortened user key, if it is short enough for one. */
  lemma BiggerCuts(start: Bytes, tmp: Bytes)
    requires |start| >= 8 && (tmp == start || Raised(start, tmp))
    requires tmp == start <==> forall i :: 0 <= i < |start| ==> start[i] == 0xff
    requires forall i :: tmp != start && 0 <= i < |tmp| - 1 ==> start[i] == 0xff
    ensures |tmp| < |start| - 8 <==> exists i :: 0 <= i < |start| - 9 && start[i] != 0xff
    ensures |tmp| < |start| - 8 ==> Raised(UserKeyOf(start), tmp) && Compare(UserKeyOf(start), tmp) < 0
  {
    hide Compare;
    var user := UserKeyOf(start);
    if |tmp| < |user| {
      assert user[..|tmp| - 1] == start[..|tmp| - 1];
      RaisedIsAbove(user, tmp);
      assert start[|tmp| - 1] != 0xff;
    }
  }

  /** InternalKeyComparator::FindShortestBigger. It shortens a copy of the whole internal key, but
      takes the result only when that is shorter than the user key: exactly if a byte other than
      0xff comes before the last byte of the user key. */
  method FindShortestInternalBigger(start: Bytes) returns (r: Bytes)
    requires |start| >= 8
    ensures |r| >= 8 && InternalCompare(start, r) <= 0 && |r| <= |start| + 8
    ensures r != start <==> exists i :: 0 <= i < |start| - 9 && start[i] != 0xff
    ensures r != start ==> Raised(UserKeyOf(start), UserKeyOf(r)) && forall i :: 0 <= i < |r| - 9 ==> start[i] == 0xff
  {
    hide TagOf, Fixed64, Compare, Raised;
    var startUser := UserKeyOf(start);
    var tmp := FindShortestBigger(start);
    BiggerCuts(start, tmp);
    if |tmp| < |startUser| && Compare(startUser, tmp) < 0 {
      r := InternalKey(tmp, MAX_TAG);
    } else {
      r := start;
      InternalTotal();
    }
  }

  // ---------------------------------------------------------------- versions

  /** `best` is the newest version of user key `user` among ks with a tag of at most `tag`. */
  ghost predicate NewestAtMost(ks: seq<Bytes>, user: Bytes, tag: nat, best: Option<Bytes>) {
    match best
    case Some(b) =>
      && b in ks && |b| >= 8 && UserKeyOf(b) == user && TagOf(b) <= tag
      && (forall k :: k in ks && |k| >= 8 && UserKeyOf(k) == user && TagOf(k) <= tag ==> TagOf(k) <= TagOf(b))
    case None => forall k :: k in ks && |k| >= 8 && UserKeyOf(k) == user ==> TagOf(k) > tag
  }

  /** The first key not below (user, tag) is the wanted version, if it is a version of `user`. */
  lemma FirstGeIsNewest(kvs: seq<KV>, ks: seq<Bytes>, user: Bytes, tag: nat, at: nat)
    requires tag < W64 && Sorted(InternalCompare, kvs) && IsFirstGe(InternalCompare, kvs, InternalKey(user, tag), at)
    requires |ks| == |kvs| && forall i :: 0 <= i < |kvs| ==> ks[i] == kvs[i].key && |ks[i]| >= 8
    ensures NewestAtMost(ks, user, tag, if at < |kvs| && UserKeyOf(kvs[at].key) == user then Some(kvs[at].key)
        else None)
  {
    hide Fixed64, TagOf, Compare, UserKeyOf;
    var target := InternalKey(user, tag);
    forall i | 0 <= i < |kvs|
      ensures Compare(UserKeyOf(ks[i]), user) == 0 <==> UserKeyOf(ks[i]) == user
      ensures InternalCompare(kvs[i].key, target) >= 0 <==> i >= at
    {
      RankEmbeds(UserKeyOf(ks[i]), user);
    }
    RankEmbeds(user, user);
    if at < |kvs| {
      assert ks[at] in ks;
      CompareTotal();
      forall i | at < i < |kvs|
        ensures UserKeyOf(ks[i]) == user ==> UserKeyOf(ks[at]) == user && TagOf(ks[i]) <= TagOf(ks[at])
      {
        assert InternalCompare(kvs[at].key, kvs[i].key) < 0;
      }
    }
  }
}
