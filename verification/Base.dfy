/** Shared vocabulary: bytes, machine widths and an option type. */
module Base {
  type Byte = b: nat | b < 256
  type Bytes = seq<Byte>

  const W32: nat := 0x1_0000_0000
  const W64: nat := 0x1_0000_0000_0000_0000

  type Word = w: nat | w < W32

  datatype Option<+T> = None | Some(value: T)

  function Zeros(n: nat): (r: Bytes)
    ensures |r| == n
  {
    seq(n, _ => 0)
  }

  /** The concatenation of a sequence of sequences. */
  function Flatten<T>(ss: seq<seq<T>>): (r: seq<T>)
    ensures ss == [] ==> r == []
  {
    if ss == [] then [] else ss[0] + Flatten(ss[1..])
  }

  lemma FlattenAppend<T>(ss: seq<seq<T>>, tt: seq<seq<T>>)
    ensures Flatten(ss + tt) == Flatten(ss) + Flatten(tt)
  {
    if ss == [] {
      assert ss + tt == tt;
    } else {
      FlattenAppend(ss[1..], tt);
      assert (ss + tt)[1..] == ss[1..] + tt;
    }
  }

  lemma FlattenSnoc<T>(ss: seq<seq<T>>, t: seq<T>)
    ensures Flatten(ss + [t]) == Flatten(ss) + t
  {
    FlattenAppend(ss, [t]);
    assert Flatten([t]) == t + Flatten<T>([]) == t;
  }

  /** Where the i-th piece starts in the concatenation. */
  function Start<T>(ss: seq<seq<T>>, i: nat): (n: nat)
    requires i <= |ss|
  {
    |Flatten(ss[..i])|
  }

  lemma StartStep<T>(ss: seq<seq<T>>, i: nat)
    requires i < |ss|
    ensures Start(ss, i + 1) == Start(ss, i) + |ss[i]|
  {
    FlattenSnoc(ss[..i], ss[i]);
    assert ss[..i + 1] == ss[..i] + [ss[i]];
  }

  lemma StartEnds<T>(ss: seq<seq<T>>)
    ensures Start(ss, 0) == 0 && Start(ss, |ss|) == |Flatten(ss)|
  {
    assert ss[..|ss|] == ss;
  }

  lemma Regroup<T>(a: seq<T>, b: seq<T>, c: seq<T>)
    ensures a + (b + c) == a + b + c
  {}

  lemma SplitAround<T>(s: seq<T>, i: nat)
    requires i < |s|
    ensures s == s[..i] + ([s[i]] + s[i + 1..])
  {}

  lemma FlattenAround<T>(ss: seq<seq<T>>, i: nat)
    requires i < |ss|
    ensures Flatten(ss) == Flatten(ss[..i]) + ss[i] + Flatten(ss[i + 1..])
  {
    hide Flatten;
    SplitAround(ss, i);
    FlattenAppend(ss[..i], [ss[i]] + ss[i + 1..]);
    FlattenCons(ss[i], ss[i + 1..]);
    Regroup(Flatten(ss[..i]), ss[i], Flatten(ss[i + 1..]));
  }

  lemma FlattenCons<T>(s: seq<T>, ss: seq<seq<T>>)
    ensures Flatten([s] + ss) == s + Flatten(ss)
  {
    assert ([s] + ss)[1..] == ss;
  }

  /** The j-th element of the i-th piece, in the concatenation. */
  lemma FlattenAt<T>(ss: seq<seq<T>>, i: nat, j: nat)
    requires i < |ss| && j < |ss[i]|
    ensures Start(ss, i) + j < |Flatten(ss)| && Flatten(ss)[Start(ss, i) + j] == ss[i][j]
  {
    FlattenAround(ss, i);
  }

  /** Every element of the concatenation comes from a piece. */
  lemma {:induction false} FlattenFrom<T>(ss: seq<seq<T>>, n: nat) returns (i: nat, j: nat)
    requires n < |Flatten(ss)|
    ensures i < |ss| && j < |ss[i]| && n == Start(ss, i) + j && Flatten(ss)[n] == ss[i][j]
  {
    var last := |ss| - 1;
    assert ss == ss[..last] + [ss[last]];
    FlattenSnoc(ss[..last], ss[last]);
    if n < |Flatten(ss[..last])| {
      i, j := FlattenFrom(ss[..last], n);
      assert ss[..last][..i] == ss[..i];
    } else {
      i, j := last, n - |Flatten(ss[..last])|;
    }
  }

  lemma {:induction false} StartMonotone<T>(ss: seq<seq<T>>, i: nat, k: nat)
    requires i <= k <= |ss|
    ensures Start(ss, i) <= Start(ss, k)
    decreases k - i
  {
    if i < k {
      StartStep(ss, i);
      StartMonotone(ss, i + 1, k);
    }
  }
}
