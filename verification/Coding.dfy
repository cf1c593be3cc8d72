/** util/coding: little-endian fixed-width integers, base-128 varints,
    length-prefixed slices and the CRC mask. */
module Coding {
  import opened Base

  /** Outcome of decoding the front of a slice. `Undefined` marks the inputs on which the
      source shifts a 32-bit word by 32 or more bits, which C++ leaves undefined. */
  datatype Parse<+T> = Parsed(value: T, rest: Bytes) | Bad | Undefined

  // ---------------------------------------------------------------- fixed width

  function Fixed32(v: nat): (r: Bytes)
    ensures |r| == 4
  {
    var q1 := v / 256;
    var q2 := q1 / 256;
    var q3 := q2 / 256;
    [v % 256, q1 % 256, q2 % 256, q3 % 256]
  }

  function DecodeFixed32(p: Bytes): (v: Word)
    requires |p| >= 4
  {
    var b0: nat, b1: nat, b2: nat, b3: nat := p[0], p[1], p[2], p[3];
    b0 + 0x100 * b1 + 0x1_0000 * b2 + 0x100_0000 * b3
  }

  function Fixed64(v: nat): (r: Bytes)
    ensures |r| == 8
  {
    Fixed32(v) + Fixed32(v / W32)
  }

  function DecodeFixed64(p: Bytes): (v: nat)
    requires |p| >= 8
    ensures v < W64
  {
    DecodeFixed32(p[..4]) + W32 * DecodeFixed32(p[4..8])
  }

  /** Writing keeps exactly the low 32 bits, whatever follows in the buffer. */
  lemma Fixed32RoundTrip(v: nat, rest: Bytes)
    ensures DecodeFixed32(Fixed32(v) + rest) == v % W32
  {
    var p := Fixed32(v) + rest;
    var q1 := v / 256;
    var q2 := q1 / 256;
    var q3 := q2 / 256;
    assert p[0] == v % 256 && p[1] == q1 % 256 && p[2] == q2 % 256 && p[3] == q3 % 256;
    assert v == q3 / 256 * W32 + DecodeFixed32(p);
    ModUnique(v, q3 / 256, DecodeFixed32(p));
  }

  /** The lowest byte comes first. */
  lemma Fixed32Bytes(v: nat)
    ensures var b := Fixed32(v);
      b[0] as nat + 0x100 * b[1] as nat + 0x1_0000 * b[2] as nat + 0x100_0000 * b[3] as nat == v % W32
  {
    Fixed32RoundTrip(v, []);
    assert Fixed32(v) + [] == Fixed32(v);
  }

  /** Reading and writing again gives the same four bytes, the lowest first. */
  lemma Fixed32Back(p: Bytes)
    requires |p| >= 4
    ensures Fixed32(DecodeFixed32(p)) == p[..4]
  {
    var b0: nat, b1: nat, b2: nat, b3: nat := p[0], p[1], p[2], p[3];
    var v := DecodeFixed32(p);
    assert v == b0 + 256 * (b1 + 256 * (b2 + 256 * b3));
    assert v % 256 == b0 && v / 256 == b1 + 256 * (b2 + 256 * b3);
    assert v / 256 % 256 == b1 && v / 256 / 256 == b2 + 256 * b3;
  }

  lemma ModUnique(v: nat, k: nat, r: nat)
    requires v == k * W32 + r && r < W32
    ensures v % W32 == r && v / W32 == k
  {}

  lemma Fixed64RoundTrip(v: nat, rest: Bytes)
    requires v < W64
    ensures DecodeFixed64(Fixed64(v) + rest) == v
  {
    var p := Fixed64(v) + rest;
    assert p[..4] == Fixed32(v) + [];
    assert p[4..8] == Fixed32(v / W32) + [];
    Fixed32RoundTrip(v, []);
    Fixed32RoundTrip(v / W32, []);
  }

  // ---------------------------------------------------------------- varints

  /** The bytes a varint occupies: seven bits each, low first, top bit set on all but the last. */
  function Varint(v: nat): (r: Bytes)
    ensures |r| >= 1
  {
    if v < 128 then [v] else [128 + v % 128] + Varint(v / 128)
  }

  /** A varint of two bytes: the low seven bits come first, with the top bit set. */
  lemma VarintBytes(low: nat, high: nat)
    requires low < 128 && 0 < high < 128
    ensures Varint(low + 128 * high) == [128 + low, high]
  {
    assert (low + 128 * high) % 128 == low && (low + 128 * high) / 128 == high;
  }

  /** 2^(7k), the weight of the k-th varint byte. */
  function Unit(k: nat): (u: nat)
    ensures u >= 1
  {
    if k == 0 then 1 else 128 * Unit(k - 1)
  }

  /** DecodeVarint32 from its k-th byte on: a 32-bit accumulator, at most five bytes. */
  function Varint32At(p: Bytes, k: nat, acc: Word): (r: Parse<Word>)
    ensures r.Parsed? ==> |r.rest| < |p|
    decreases |p|
  {
    if k > 4 || p == [] then Bad
    else
      var acc' := (acc + p[0] % 128 * Unit(k)) % W32;
      if p[0] >= 128 then Varint32At(p[1..], k + 1, acc') else Parsed(acc', p[1..])
  }

  /** DecodeVarint64 from its k-th byte on. The accumulator is 32 bits wide here too, so
      the sixth byte is shifted by 35 bits: undefined. */
  function Varint64At(p: Bytes, k: nat, acc: Word): (r: Parse<Word>)
    ensures r.Parsed? ==> |r.rest| < |p|
    decreases |p|
  {
    if k > 9 || p == [] then Bad
    else if k > 4 then Undefined
    else
      var acc' := (acc + p[0] % 128 * Unit(k)) % W32;
      if p[0] >= 128 then Varint64At(p[1..], k + 1, acc') else Parsed(acc', p[1..])
  }

  function GetVarint32(p: Bytes): (r: Parse<Word>)
    ensures r.Parsed? ==> |r.rest| < |p|
  {
    Varint32At(p, 0, 0)
  }

  function GetVarint64(p: Bytes): (r: Parse<Word>)
    ensures r.Parsed? ==> |r.rest| < |p|
  {
    Varint64At(p, 0, 0)
  }

  lemma Units()
    ensures Unit(0) == 1 && Unit(1) == 0x80 && Unit(2) == 0x4000
    ensures Unit(3) == 0x20_0000 && Unit(4) == 0x1000_0000 && Unit(5) == 0x8_0000_0000
  {
    assert Unit(3) == 0x20_0000;
  }

  /** The value of a varint, split into its first byte and the rest. */
  lemma VarintSplit(v: nat, k: nat)
    ensures v % 128 * Unit(k) + v / 128 * Unit(k + 1) == v * Unit(k)
    ensures v % 128 * Unit(k) <= 127 * Unit(k)
    ensures v / 128 >= 1 ==> v / 128 * Unit(k + 1) >= Unit(k + 1)
  {
    var u, u1 := Unit(k), Unit(k + 1);
    assert u1 == 128 * u;
    hide Unit;
    Distribute(v / 128, v % 128, u);
    MulMono(v % 128, 127, u);
    if v / 128 >= 1 { MulMono(1, v / 128, u1); }
  }

  lemma Distribute(q: nat, r: nat, u: nat)
    ensures r * u + q * (128 * u) == (r + 128 * q) * u
  {}

  lemma MulMono(a: nat, b: nat, u: nat)
    requires a <= b
    ensures a * u <= b * u
  {}

  lemma {:induction false} Varint32AtRoundTrip(v: nat, k: nat, acc: Word, rest: Bytes)
    requires k <= 4 && acc + v * Unit(k) < W32
    ensures Varint32At(Varint(v) + rest, k, acc) == Parsed(acc + v * Unit(k), rest)
    decreases v
  {
    var p := VarintFront(v, rest);
    VarintSplit(v, k);
    Units();
    hide Unit, Varint;
    if v >= 128 {
      var first := v % 128 * Unit(k);
      assert k != 4;
      Varint32AtRoundTrip(v / 128, k + 1, acc + first, rest);
      assert (acc + first) % W32 == acc + first;
    }
  }

  lemma VarintFront(v: nat, rest: Bytes) returns (p: Bytes)
    ensures p == Varint(v) + rest && p != []
    ensures if v < 128 then p[0] == v && p[1..] == rest
            else p[0] == 128 + v % 128 && p[0] % 128 == v % 128 && p[1..] == Varint(v / 128) + rest
  {
    p := Varint(v) + rest;
  }

  /** PutVarint32 then GetVarint32 gives the value back and leaves the rest of the slice. */
  lemma Varint32RoundTrip(v: Word, rest: Bytes)
    ensures GetVarint32(Varint(v) + rest) == Parsed(v, rest)
  {
    Units();
    Varint32AtRoundTrip(v, 0, 0, rest);
  }

  /** One turn of the decoding loop over an encoded number. */
  lemma Varint64Turn(v: nat, k: nat, acc: Word, rest: Bytes)
    requires k <= 4
    ensures var acc' := (acc + v % 128 * Unit(k)) % W32;
      Varint64At(Varint(v) + rest, k, acc)
      == if v < 128 then Parsed(acc', rest) else Varint64At(Varint(v / 128) + rest, k + 1, acc')
  {
    hide Unit, Varint;
    var p := VarintFront(v, rest);
    assert p[0] % 128 == v % 128;
  }

  lemma Varint64Ends(v: nat, acc: Word, rest: Bytes)
    ensures Varint64At(Varint(v) + rest, 5, acc) == Undefined
  {
    var p := VarintFront(v, rest);
  }

  lemma {:induction false} Varint64AtRoundTrip(v: nat, k: nat, acc: Word, rest: Bytes)
    requires k <= 4 && acc < Unit(k)
    ensures var r := Varint64At(Varint(v) + rest, k, acc);
      if v < Unit(5 - k) then r == Parsed((acc + v * Unit(k)) % W32, rest) else r == Undefined
    decreases v
  {
    hide Varint, Varint64At;
    Varint64Turn(v, k, acc, rest);
    VarintSplit(v, k);
    Units();
    assert Unit(5 - k) == 128 * Unit(4 - k);
    hide Unit;
    if v < 128 {
      assert Unit(5 - k) >= 128;
    } else {
      DivLess(v, Unit(4 - k));
      var acc' := (acc + v % 128 * Unit(k)) % W32;
      if k == 4 {
        Varint64Ends(v / 128, acc', rest);
      } else {
        assert acc' == acc + v % 128 * Unit(k);
        Varint64AtRoundTrip(v / 128, k + 1, acc', rest);
      }
    }
  }

  lemma DivLess(v: nat, u: nat)
    ensures v < 128 * u <==> v / 128 < u
  {}

  /** The 64-bit varint survives a round trip exactly below 2^32: the decoder's accumulator is
      32 bits wide. */
  lemma Varint64RoundTripIff(v: nat, rest: Bytes)
    requires v < W64
    ensures GetVarint64(Varint(v) + rest) == Parsed(v, rest) <==> v < W32
  {
    Units();
    hide Unit, Varint;
    Varint64AtRoundTrip(v, 0, 0, rest);
  }

  /** 2^32 is written in five bytes and read back as zero. */
  lemma Varint64LosesHighBits()
    ensures GetVarint64(Varint(W32)) == Parsed(0, [])
  {
    Units();
    Varint64AtRoundTrip(W32, 0, 0, []);
    assert Varint(W32) + [] == Varint(W32);
  }

  /** EncodeVarint32/64: the loop writes exactly `Varint(val)`. */
  method EncodeVarint(val: nat) returns (out: Bytes)
    ensures out == Varint(val)
  {
    var v := val;
    out := [];
    while v >= 128
      invariant out + Varint(v) == Varint(val)
    {
      out := out + [128 + v % 128];
      v := v / 128;
    }
    out := out + [v];
  }

  /** DecodeVarint32's loop over the buffer. */
  method DecodeVarint32(input: Bytes) returns (r: Parse<Word>)
    ensures r == GetVarint32(input)
  {
    var p, k, acc: Word := input, 0, 0;
    while k <= 4 && p != []
      invariant Varint32At(p, k, acc) == GetVarint32(input)
      decreases 5 - k
    {
      var byte := p[0];
      acc := (acc + byte % 128 * Unit(k)) % W32;
      p := p[1..];
      if byte < 128 { return Parsed(acc, p); }
      k := k + 1;
    }
    return Bad;
  }

  /** VarintLength counts the bytes that EncodeVarint writes. */
  method VarintLength(val: nat) returns (n: nat)
    ensures n == |Varint(val)|
  {
    n := 1;
    var v := val;
    while v >= 128
      invariant n - 1 + |Varint(v)| == |Varint(val)|
    {
      n := n + 1;
      v := v / 128;
    }
  }

  // ---------------------------------------------------------------- slices

  function LengthPrefixed(s: Bytes): (r: Bytes)
    ensures |r| > |s|
  {
    Varint(|s| % W32) + s
  }

  function GetLengthPrefixed(p: Bytes): (r: Parse<Bytes>)
    ensures r.Parsed? ==> |r.rest| < |p|
  {
    match GetVarint32(p)
    case Parsed(len, rest) => if |rest| >= len then Parsed(rest[..len], rest[len..]) else Bad
    case Bad => Bad
    case Undefined => Undefined
  }

  lemma LengthPrefixedRoundTrip(s: Bytes, rest: Bytes)
    requires |s| < W32
    ensures GetLengthPrefixed(LengthPrefixed(s) + rest) == Parsed(s, rest)
  {
    assert LengthPrefixed(s) + rest == Varint(|s|) + (s + rest);
    Varint32RoundTrip(|s|, s + rest);
    assert (s + rest)[..|s|] == s && (s + rest)[|s|..] == rest;
  }

  // ---------------------------------------------------------------- CRC

  const MASK: Word := 0x1af289ae

  /** CrcMask: rotate right by 17 (as a 32-bit word), then add a constant modulo 2^32. */
  function CrcMask(crc: Word): (r: Word) {
    (crc / 0x2_0000 + crc % 0x2_0000 * 0x8000 + MASK) % W32
  }

  function CrcUnmask(crc: Word): (r: Word) {
    var c := (crc + W32 - MASK) % W32;
    c % 0x8000 * 0x2_0000 + c / 0x8000
  }

  lemma CrcMaskRoundTrip(crc: Word)
    ensures CrcUnmask(CrcMask(crc)) == crc
  {
    var rot := crc / 0x2_0000 + crc % 0x2_0000 * 0x8000;
    assert rot < W32;
    assert (CrcMask(crc) + W32 - MASK) % W32 == rot;
    assert rot % 0x8000 == crc / 0x2_0000 && rot / 0x8000 == crc % 0x2_0000;
  }

  lemma CrcUnmaskRoundTrip(masked: Word)
    ensures CrcMask(CrcUnmask(masked)) == masked
  {
    var rot := (masked + W32 - MASK) % W32;
    var crc := CrcUnmask(masked);
    assert crc / 0x2_0000 == rot % 0x8000 && crc % 0x2_0000 == rot / 0x8000;
    assert (rot + MASK) % W32 == masked;
  }

  /** A checksum that is fed byte by byte, as crc32c::Extend is. */
  function Extend(step: (Word, Byte) -> Word, crc: Word, p: Bytes): (r: Word)
    decreases |p|
  {
    if p == [] then crc else Extend(step, step(crc, p[0]), p[1..])
  }

  /** Feeding two pieces in turn is feeding their concatenation. */
  lemma ExtendConcat(step: (Word, Byte) -> Word, crc: Word, a: Bytes, b: Bytes)
    ensures Extend(step, Extend(step, crc, a), b) == Extend(step, crc, a + b)
    decreases |a|
  {
    if a == [] {
      assert a + b == b;
    } else {
      assert (a + b)[1..] == a[1..] + b;
      ExtendConcat(step, step(crc, a[0]), a[1..], b);
    }
  }
}
