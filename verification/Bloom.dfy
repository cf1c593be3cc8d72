/** db/filter/bloom: a Bloom filter over any hash function. */
module Bloom {
  import opened Base

  // ---------------------------------------------------------------- bits

  /** Bit k of a number, the lowest first: (b >> k) & 1. */
  predicate Bit(b: nat, k: nat) {
    if k == 0 then b % 2 == 1 else Bit(b / 2, k - 1)
  }

  function Pow(n: nat): (p: nat)
    ensures p >= 1
  {
    if n == 0 then 1 else 2 * Pow(n - 1)
  }

  /** b | (1 << k), for a number of n bits. */
  function Or(b: nat, k: nat, n: nat): (r: nat)
    requires k < n && b < Pow(n)
    ensures r < Pow(n)
  {
    var half := Pow(n - 1);
    assert Pow(n) == 2 * half;
    if k == 0 then b / 2 * 2 + 1 else 2 * Or(b / 2, k - 1, n - 1) + b % 2
  }

  lemma {:induction false} OrSets(b: nat, k: nat, n: nat, j: nat)
    requires k < n && b < Pow(n)
    ensures Bit(Or(b, k, n), j) <==> j == k || Bit(b, j)
  {
    if k > 0 && j > 0 {
      OrSets(b / 2, k - 1, n - 1, j - 1);
      assert Or(b, k, n) / 2 == Or(b / 2, k - 1, n - 1);
    }
  }

  lemma PowEight()
    ensures Pow(8) == 256
  {
    assert Pow(4) == 16;
  }

  /** Bit `pos` of a byte array. */
  predicate BitAt(a: Bytes, pos: nat)
    requires pos < 8 * |a|
  {
    Bit(a[pos / 8], pos % 8)
  }

  // ---------------------------------------------------------------- the filter

  /** A policy. The number of probes, which the source derives from the bits per key by a
      floating-point factor, is any number from 1 to 30. */
  datatype Policy = Policy(hash: Bytes -> Word, bitsPerKey: nat, hashNum: Byte) {
    predicate Ok() {
      1 <= hashNum <= 30
    }
  }

  /** (h >> 17) | (h << 15), in 32 bits. */
  function Delta(h: Word): (d: Word) {
    h / 0x2_0000 + h % 0x2_0000 * 0x8000
  }

  /** The j-th value of h, which grows by delta and wraps around. */
  function Probe(h: Word, j: nat): (r: Word) {
    if j == 0 then h else (Probe(h, j - 1) + Delta(h)) % W32
  }

  predicate ProbeSet(a: Bytes, h: Word, j: nat) {
    |a| > 0 && BitAt(a, Probe(h, j) % (8 * |a|))
  }

  /** All bits of a key are set. */
  ghost predicate Marked(a: Bytes, h: Word, n: nat) {
    forall j :: 0 <= j < n ==> ProbeSet(a, h, j)
  }

  /** The bits wanted, 64 at least, rounded up to whole bytes. */
  predicate Sized(bits: nat, wanted: nat) {
    bits >= 64 && bits % 8 == 0 && wanted <= bits && (bits > 64 ==> bits < wanted + 8)
  }

  /** The filter for `keys`: an array with exactly the bits of their probes, and the number of
      probes. */
  ghost predicate FilterFor(p: Policy, filter: Bytes, keys: seq<Bytes>) {
    && |filter| >= 9 && filter[|filter| - 1] == p.hashNum && Sized(8 * (|filter| - 1), |keys| * p.bitsPerKey)
    && OnlyProbed(p, filter[..|filter| - 1], keys)
    && forall k :: k in keys ==> Marked(filter[..|filter| - 1], p.hash(k), p.hashNum)
  }

  /** Bit pos is one of the first n probes of h, in an array of `size` bytes. */
  ghost predicate Probed(h: Word, n: nat, size: nat, pos: nat) {
    size > 0 && exists j :: 0 <= j < n && pos == Probe(h, j) % (8 * size)
  }

  /** No bit is set without a key that asks for it. */
  ghost predicate OnlyProbed(p: Policy, a: Bytes, keys: seq<Bytes>) {
    forall pos: nat :: pos < 8 * |a| && BitAt(a, pos) ==>
      exists k :: k in keys && Probed(p.hash(k), p.hashNum, |a|, pos)
  }

  /** Every new bit in b is a probe of h. */
  ghost predicate NewProbed(a: Bytes, b: Bytes, h: Word, n: nat) {
    |a| == |b| && forall pos: nat :: pos < 8 * |a| && BitAt(b, pos) && !BitAt(a, pos) ==> Probed(h, n, |a|, pos)
  }

  lemma OnlyProbedNext(p: Policy, a: Bytes, b: Bytes, keys: seq<Bytes>, key: Bytes)
    requires OnlyProbed(p, a, keys) && NewProbed(a, b, p.hash(key), p.hashNum)
    ensures OnlyProbed(p, b, keys + [key])
  {
    hide Probed, BitAt;
    forall pos: nat | pos < 8 * |b| && BitAt(b, pos)
      ensures exists k :: k in keys + [key] && Probed(p.hash(k), p.hashNum, |b|, pos)
    {
      if BitAt(a, pos) {
        var k :| k in keys && Probed(p.hash(k), p.hashNum, |a|, pos);
        assert k in keys + [key];
      } else {
        assert key in keys + [key];
      }
    }
  }

  lemma NewProbedNext(a: Bytes, b: Bytes, c: Bytes, h: Word, j: nat, at: nat)
    requires NewProbed(a, b, h, j) && |c| == |b| > 0 && at == Probe(h, j) % (8 * |a|)
    requires forall q: nat :: q < 8 * |c| && BitAt(c, q) ==> q == at || BitAt(b, q)
    ensures NewProbed(a, c, h, j + 1)
  {
    hide BitAt, Probe;
    forall pos: nat | pos < 8 * |a| && BitAt(c, pos) && !BitAt(a, pos)
      ensures Probed(h, j + 1, |a|, pos)
    {
      if BitAt(b, pos) {
        var i :| 0 <= i < j && pos == Probe(h, i) % (8 * |a|);
      }
    }
  }

  /** More bits never hurt. */
  ghost predicate Within(a: Bytes, b: Bytes) {
    |a| == |b| && forall pos: nat :: pos < 8 * |a| && BitAt(a, pos) ==> BitAt(b, pos)
  }

  lemma MarkedStays(a: Bytes, b: Bytes, h: Word, n: nat)
    requires Marked(a, h, n) && Within(a, b)
    ensures Marked(b, h, n)
  {
    forall j | 0 <= j < n
      ensures ProbeSet(b, h, j)
    {
      assert ProbeSet(a, h, j);
    }
  }

  /** One step of the inner loop: array[pos / 8] |= 1 << (pos % 8). */
  method SetBit(a: array<Byte>, pos: nat)
    requires pos < 8 * a.Length
    modifies a
    ensures Within(old(a[..]), a[..]) && BitAt(a[..], pos)
    ensures forall q: nat :: q < 8 * a.Length && BitAt(a[..], q) ==> q == pos || BitAt(old(a[..]), q)
  {
    PowEight();
    ghost var was := a[..];
    a[pos / 8] := Or(a[pos / 8], pos % 8, 8);
    forall q: nat | q < 8 * a.Length
      ensures BitAt(a[..], q) <==> q == pos || BitAt(was, q)
    {
      OrSets(was[pos / 8], pos % 8, 8, q % 8);
    }
  }

  /** BloomFilterPolicy::CreatFilter: appends a filter for the keys. */
  method CreateFilter(p: Policy, keys: seq<Bytes>, dst: Bytes) returns (r: Bytes, ghost filter: Bytes)
    requires p.Ok()
    ensures r == dst + filter && FilterFor(p, filter, keys)
  {
    hide Marked, Within, BitAt, Probe, Delta, OnlyProbed;
    var bits := |keys| * p.bitsPerKey;
    if bits < 64 { bits := 64; }
    var bytes := (bits + 7) / 8;
    bits := bytes * 8;
    var a := new Byte[bytes](_ => 0);
    NothingSet(p, a[..]);
    for i := 0 to |keys|
      invariant OnlyProbed(p, a[..], keys[..i])
      invariant forall k :: k in keys[..i] ==> Marked(a[..], p.hash(k), p.hashNum)
    {
      var h := p.hash(keys[i]);
      ghost var was := a[..];
      SetProbes(a, h, p.hashNum, keys[..i], p.hash);
      OnlyProbedNext(p, was, a[..], keys[..i], keys[i]);
      assert keys[..i + 1] == keys[..i] + [keys[i]];
    }
    assert keys[..|keys|] == keys;
    filter := a[..] + [p.hashNum];
    assert filter[..|filter| - 1] == a[..];
    r := dst + a[..];
    r := r + [p.hashNum];
  }

  lemma NothingSet(p: Policy, a: Bytes)
    requires forall i :: 0 <= i < |a| ==> a[i] == 0
    ensures OnlyProbed(p, a, [])
  {
    forall pos: nat | pos < 8 * |a|
      ensures !BitAt(a, pos)
    {
      ZeroClear(pos % 8);
    }
  }

  lemma {:induction false} ZeroClear(k: nat)
    ensures !Bit(0, k)
  {
    if k > 0 { ZeroClear(k - 1); }
  }

  /** The inner loop of CreatFilter, for one key; earlier keys stay marked. */
  method SetProbes(a: array<Byte>, h0: Word, n: nat, ghost keys: seq<Bytes>, ghost hash: Bytes -> Word)
    requires a.Length > 0 && forall k :: k in keys ==> Marked(a[..], hash(k), n)
    modifies a
    ensures Marked(a[..], h0, n) && forall k :: k in keys ==> Marked(a[..], hash(k), n)
    ensures NewProbed(old(a[..]), a[..], h0, n)
  {
    hide Within, BitAt, Delta, Probed;
    var h: Word := h0;
    var delta := Delta(h0);
    for j := 0 to n
      invariant h == Probe(h0, j) && Marked(a[..], h0, j) && NewProbed(old(a[..]), a[..], h0, j)
      invariant forall k :: k in keys ==> Marked(a[..], hash(k), n)
    {
      ghost var was := a[..];
      SetBit(a, h % (8 * a.Length));
      NewProbedNext(old(a[..]), was, a[..], h0, j, h % (8 * a.Length));
      forall k | k in keys
        ensures Marked(a[..], hash(k), n)
      {
        MarkedStays(was, a[..], hash(k), n);
      }
      MarkedStays(was, a[..], h0, j);
      assert ProbeSet(a[..], h0, j);
      h := (h + delta) % W32;
    }
  }

  /** All probes of the key are set, or the filter is of a kind not understood. */
  ghost predicate MayMatch(p: Policy, key: Bytes, filter: Bytes) {
    |filter| >= 2 && (filter[|filter| - 1] > 30 || Marked(filter[..|filter| - 1], p.hash(key), filter[|filter| - 1]))
  }

  lemma ProbeNext(h: Word, j: nat)
    ensures Probe(h, 0) == h && Probe(h, j + 1) == (Probe(h, j) + Delta(h)) % W32
  {}

  lemma ProbeReads(filter: Bytes, h: Word, j: nat)
    requires |filter| >= 2
    ensures var pos := Probe(h, j) % ((|filter| - 1) * 8);
      ProbeSet(filter[..|filter| - 1], h, j) <==> Bit(filter[pos / 8], pos % 8)
  {
    hide Probe, Bit;
  }

  /** BloomFilterPolicy::KeyMayMatch: all probes hit, or the filter is of a kind not understood. */
  method KeyMayMatch(p: Policy, key: Bytes, filter: Bytes) returns (r: bool)
    ensures r == MayMatch(p, key, filter)
  {
    var len := |filter|;
    if len < 2 { return false; }
    var bits := (len - 1) * 8;
    var hashNum := filter[len - 1];
    if hashNum > 30 { return true; }
    var h: Word := p.hash(key);
    var delta := Delta(h);
    ghost var a := filter[..len - 1];
    hide Bit, ProbeSet, Delta, Probe;
    ProbeNext(h, 0);
    for j := 0 to hashNum
      invariant h == Probe(p.hash(key), j) && Marked(a, p.hash(key), j)
    {
      var pos := h % bits;
      ProbeReads(filter, p.hash(key), j);
      ProbeNext(p.hash(key), j);
      if !Bit(filter[pos / 8], pos % 8) {
        assert !ProbeSet(a, p.hash(key), j);
        return false;
      }
      h := (h + delta) % W32;
    }
    return true;
  }

  /** No false negatives: a key the filter was made for always matches. */
  lemma NoFalseNegative(p: Policy, filter: Bytes, keys: seq<Bytes>, key: Bytes)
    requires p.Ok() && FilterFor(p, filter, keys) && key in keys
    ensures MayMatch(p, key, filter)
  {}

  /** A bit is set exactly if it is a probe of some key. */
  lemma BitIff(p: Policy, a: Bytes, keys: seq<Bytes>, pos: nat)
    requires |a| > 0 && pos < 8 * |a| && OnlyProbed(p, a, keys)
    requires forall k :: k in keys ==> Marked(a, p.hash(k), p.hashNum)
    ensures BitAt(a, pos) <==> exists k :: k in keys && Probed(p.hash(k), p.hashNum, |a|, pos)
  {
    hide BitAt, Probe;
    if k :| k in keys && Probed(p.hash(k), p.hashNum, |a|, pos) {
      var i :| 0 <= i < p.hashNum && pos == Probe(p.hash(k), i) % (8 * |a|);
      assert ProbeSet(a, p.hash(k), i);
    }
  }

  /** The j-th probe of h falls on a probe of some key. */
  ghost predicate SharesProbe(p: Policy, keys: seq<Bytes>, size: nat, h: Word, j: nat) {
    size > 0 && exists k :: k in keys && Probed(p.hash(k), p.hashNum, size, Probe(h, j) % (8 * size))
  }

  /** False positives: a key matches exactly if each of its probes falls on a probe of some key that
      the filter was made for. */
  lemma MatchesIff(p: Policy, filter: Bytes, keys: seq<Bytes>, key: Bytes)
    requires p.Ok() && FilterFor(p, filter, keys)
    ensures var size := |filter| - 1;
      MayMatch(p, key, filter) <==> forall j :: 0 <= j < p.hashNum ==> SharesProbe(p, keys, size, p.hash(key), j)
  {
    hide BitAt, Probe, Probed, OnlyProbed;
    var a, h := filter[..|filter| - 1], p.hash(key);
    forall j | 0 <= j < p.hashNum
      ensures ProbeSet(a, h, j) <==> SharesProbe(p, keys, |a|, h, j)
    {
      BitIff(p, a, keys, Probe(h, j) % (8 * |a|));
    }
  }
}
