/** db/sstable/block_format: block handles, block trailers and the table footer. */
module Format {
  import opened Base
  import opened Coding
  import opened Block

  const TAIL_SIZE: nat := 5
  const HANDLE_MAX: nat := 20
  const FOOTER_LENGTH: nat := 48
  const MAGIC: nat := 0xaf41de78
  const UNCOMPRESSED: Byte := 0
  const SNAPPY: Byte := 1

  datatype Handle = Handle(offset: nat, size: nat)

  function EncodeHandle(h: Handle): (r: Bytes) {
    Varint(h.offset) + Varint(h.size)
  }

  function DecodeHandle(p: Bytes): (r: Parse<Handle>) {
    match GetVarint64(p)
    case Bad => Bad
    case Undefined => Undefined
    case Parsed(offset, p1) =>
      match GetVarint64(p1)
      case Bad => Bad
      case Undefined => Undefined
      case Parsed(size, p2) => Parsed(Handle(offset, size), p2)
  }

  /** A handle survives its encoding exactly when both numbers are below 2^32. */
  lemma HandleRoundTripIff(h: Handle, rest: Bytes)
    requires h.offset < W64 && h.size < W64
    ensures DecodeHandle(EncodeHandle(h) + rest) == Parsed(h, rest) <==> h.offset < W32 && h.size < W32
  {
    hide Varint, GetVarint64;
    assert EncodeHandle(h) + rest == Varint(h.offset) + (Varint(h.size) + rest);
    Varint64RoundTripIff(h.offset, Varint(h.size) + rest);
    Varint64RoundTripIff(h.size, rest);
  }

  /** What a table is written and read with. `compress` and `step` stand for Snappy and the
      checksum's inner step. */
  datatype Options = Options(
    snappy: bool, compress: Bytes -> Option<Bytes>, uncompress: Bytes -> Option<Bytes>,
    step: (Word, Byte) -> Word, checkCrc: bool)
  {
    ghost predicate Ok() {
      forall x :: compress(x).Some? ==> uncompress(compress(x).value) == Some(x)
    }

    function Crc(p: Bytes): (r: Word) {
      Extend(step, 0, p)
    }
  }

  /** WriteBlock: the bytes stored for a block, and their type. */
  function Packed(opt: Options, raw: Bytes): (r: (Bytes, Byte)) {
    if opt.snappy && opt.compress(raw).Some? then (opt.compress(raw).value, SNAPPY) else (raw, UNCOMPRESSED)
  }

  /** WriteRawBlock: the trailer. The checksum that is stored does not cover the type byte, which
      is only added to it afterwards. */
  function Tail(opt: Options, contents: Bytes, kind: Byte): (r: Bytes)
    ensures |r| == TAIL_SIZE
  {
    [kind] + Fixed32(CrcMask(opt.Crc(contents)))
  }

  /** ReadBlock. A read past the end of the file comes back short. */
  function ReadBlock(opt: Options, file: Bytes, h: Handle): (r: Option<Bytes>) {
    var n := h.size;
    if h.offset + n + TAIL_SIZE > |file| then None
    else
      var data := file[h.offset..h.offset + n + TAIL_SIZE];
      if opt.checkCrc && CrcUnmask(DecodeFixed32(data[n + 1..])) != opt.Crc(data[..n + 1]) then None
      else if data[n] == UNCOMPRESSED then Some(data[..n])
      else if data[n] == SNAPPY then opt.uncompress(data[..n])
      else None
  }

  /** The block `raw` stands at h. */
  ghost predicate Written(opt: Options, file: Bytes, h: Handle, raw: Bytes) {
    var (contents, kind) := Packed(opt, raw);
    && h.size == |contents| && h.offset + h.size + TAIL_SIZE <= |file|
    && file[h.offset..h.offset + h.size + TAIL_SIZE] == contents + Tail(opt, contents, kind)
  }

  /** What stands there: the compressed block with type 1 if Snappy is on and makes something of it,
      and otherwise the block as it is with type 0. */
  lemma WrittenIs(opt: Options, file: Bytes, h: Handle, raw: Bytes)
    requires Written(opt, file, h, raw)
    ensures h.offset + h.size < |file|
    ensures var n, small := h.offset + h.size, opt.compress(raw);
      if opt.snappy && small.Some? then file[h.offset..n] == small.value && file[n] == 1
      else file[h.offset..n] == raw && file[n] == 0
  {
    hide Fixed32, CrcMask, Extend;
    var (contents, kind) := Packed(opt, raw);
    var stored := file[h.offset..h.offset + h.size + TAIL_SIZE];
    assert stored == contents + Tail(opt, contents, kind);
    assert stored[..h.size] == contents && stored[h.size] == Tail(opt, contents, kind)[0] == kind;
    assert stored[..h.size] == file[h.offset..h.offset + h.size];
  }

  /** A written block is read back, exactly when checksums are not verified or the type byte
      happens not to change the checksum. */
  lemma ReadBackIff(opt: Options, file: Bytes, h: Handle, raw: Bytes)
    requires opt.Ok() && Written(opt, file, h, raw)
    ensures var (contents, kind) := Packed(opt, raw);
      ReadBlock(opt, file, h) == Some(raw) <==> !opt.checkCrc || opt.step(opt.Crc(contents), kind) == opt.Crc(contents)
  {
    hide Fixed32, DecodeFixed32, CrcMask, CrcUnmask;
    var (contents, kind) := Packed(opt, raw);
    var n := h.size;
    var crc := CrcMask(opt.Crc(contents));
    var data := file[h.offset..h.offset + n + TAIL_SIZE];
    assert data == contents + Tail(opt, contents, kind);
    assert data[..n] == contents && data[n] == kind;
    assert data[..n + 1] == contents + [kind];
    assert data[n + 1..] == Fixed32(crc) + [];
    Fixed32RoundTrip(crc, []);
    CrcMaskRoundTrip(opt.Crc(contents));
    ExtendConcat(opt.step, 0, contents, [kind]);
    OneStep(opt.step, opt.Crc(contents), kind);
  }

  lemma OneStep(step: (Word, Byte) -> Word, crc: Word, b: Byte)
    ensures Extend(step, crc, [b]) == step(crc, b)
  {
    assert [b][1..] == [];
  }

  lemma StaysWritten(opt: Options, file: Bytes, more: Bytes, h: Handle, raw: Bytes)
    requires Written(opt, file, h, raw)
    ensures Written(opt, file + more, h, raw)
  {
    assert (file + more)[h.offset..h.offset + h.size + TAIL_SIZE] == file[h.offset..h.offset + h.size + TAIL_SIZE];
  }

  // ---------------------------------------------------------------- footer

  /** std::string::resize. */
  function Resize(p: Bytes, n: nat): (r: Bytes)
    ensures |r| == n
  {
    if |p| <= n then p + Zeros(n - |p|) else p[..n]
  }

  function EncodeFooter(index: Handle, filter: Handle): (r: Bytes)
    ensures |r| == FOOTER_LENGTH
  {
    Resize(EncodeHandle(index) + EncodeHandle(filter), 2 * HANDLE_MAX) + Fixed64(MAGIC)
  }

  /** Footer::DecodeFrom, as far as the index handle. */
  function DecodeFooter(p: Bytes): (r: Parse<Handle>)
    requires |p| == FOOTER_LENGTH
  {
    if DecodeFixed64(p[FOOTER_LENGTH - 8..]) != MAGIC then Bad
    else
      match DecodeHandle(p)
      case Bad => Bad
      case Undefined => Undefined
      case Parsed(index, rest) =>
        match DecodeHandle(rest)
        case Bad => Bad
        case Undefined => Undefined
        case Parsed(_, _) => Parsed(index, rest)
  }

  lemma {:induction false} VarintShort(v: nat, k: nat)
    requires v < Unit(k + 1)
    ensures |Varint(v)| <= k + 1
    decreases k
  {
    if k > 0 && v >= 128 {
      VarintShort(v / 128, k - 1);
    } else if k == 0 {
      assert Unit(1) == 128 * Unit(0);
    }
  }

  lemma HandleShort(h: Handle)
    requires h.offset < W32 && h.size < W32
    ensures |EncodeHandle(h)| <= 10
  {
    Units();
    hide Unit, Varint;
    VarintShort(h.offset, 4);
    VarintShort(h.size, 4);
  }

  lemma FooterBytes(index: Handle, filter: Handle) returns (rest: Bytes)
    requires |EncodeHandle(index)| + |EncodeHandle(filter)| <= 2 * HANDLE_MAX
    ensures EncodeFooter(index, filter) == EncodeHandle(index) + (EncodeHandle(filter) + rest)
    ensures EncodeFooter(index, filter)[FOOTER_LENGTH - 8..] == Fixed64(MAGIC) + []
  {
    hide EncodeHandle, Fixed64, Zeros;
    var front := EncodeHandle(index) + EncodeHandle(filter);
    rest := Zeros(2 * HANDLE_MAX - |front|) + Fixed64(MAGIC);
  }

  lemma FooterRoundTrip(index: Handle, filter: Handle)
    requires index.offset < W32 && index.size < W32 && filter.offset < W32 && filter.size < W32
    ensures DecodeFooter(EncodeFooter(index, filter)).Parsed?
        && DecodeFooter(EncodeFooter(index, filter)).value == index
  {
    hide EncodeHandle, DecodeHandle, Fixed64, DecodeFixed64, EncodeFooter;
    HandleShort(index);
    HandleShort(filter);
    var rest := FooterBytes(index, filter);
    HandleRoundTripIff(index, EncodeHandle(filter) + rest);
    HandleRoundTripIff(filter, rest);
    Fixed64RoundTrip(MAGIC, []);
  }
}
