/** db/log: the write-ahead log. A record is cut into fragments, each with a 7-byte header, so
    that no fragment crosses a 32 KiB block; the reader puts the records together again and
    gives up quietly where the file was cut short. */
module Log {
  import opened Base
  import opened Coding

  const BLOCK: nat := 32768
  const HEADER: nat := 7

  const FULL: Byte := 1
  const FIRST: Byte := 2
  const MIDDLE: Byte := 3
  const LAST: Byte := 4
  const EOF: nat := 5
  const BAD_RECORD: nat := 6

  /** crc32c as far as the log can see it: a seed and a byte-wise step. */
  datatype Checksum = Checksum(step: (Word, Byte) -> Word, seed: Word) {
    function Of(p: Bytes): (r: Word) { Extend(step, seed, p) }
  }

  function Min(a: nat, b: nat): (r: nat) { if a < b then a else b }

  /** Bytes left in the block that holds file position p. */
  function Left(p: nat): (r: nat)
    ensures 1 <= r <= BLOCK
  {
    BLOCK - p % BLOCK
  }

  // ---------------------------------------------------------------- writing

  /** One fragment on disk: masked CRC of type and payload, 16-bit length, type, payload. */
  function Physical(c: Checksum, kind: Byte, data: Bytes): (r: Bytes)
    ensures |r| == HEADER + |data|
  {
    Fixed32(CrcMask(c.Of([kind] + data))) + [|data| % 256, |data| / 256 % 256, kind] + data
  }

  /** Zero bytes written before a fragment at p, because no header fits in the block any more. */
  function Pad(p: nat): (r: nat) { if Left(p) < HEADER then Left(p) else 0 }

  /** Payload length of the fragment written at position p for `remain` outstanding bytes. */
  function FragmentLength(p: nat, remain: nat): (r: nat)
    ensures r <= remain
    ensures HEADER + r <= Left(p + Pad(p))
    ensures r < remain ==> HEADER + r == Left(p + Pad(p))
  {
    Min(remain, Left(p + Pad(p)) - HEADER)
  }

  function Kind(begin: bool, end: bool): (r: Byte) {
    if begin && end then FULL else if begin then FIRST else if end then LAST else MIDDLE
  }

  /** Everything AddRecord appends for `data` when the file is p bytes long. */
  function Emit(c: Checksum, p: nat, data: Bytes, begin: bool): (r: Bytes)
    ensures |r| >= HEADER
    decreases |data|, if Left(p + Pad(p)) == HEADER then 1 else 0
  {
    var len := FragmentLength(p, |data|);
    var end := len == |data|;
    var piece := Zeros(Pad(p)) + Physical(c, Kind(begin, end), data[..len]);
    if end then piece else piece + Emit(c, p + |piece|, data[len..], false)
  }

  /** One turn of AddRecord's loop: `Emit` is the fragment at p followed by the rest, and
      the rest is smaller in the order that makes the loop terminate. */
  lemma EmitStep(c: Checksum, p: nat, data: Bytes, begin: bool)
    ensures var len := FragmentLength(p, |data|);
      var end := len == |data|;
      var piece := Zeros(Pad(p)) + Physical(c, Kind(begin, end), data[..len]);
      var q := p + |piece|;
      && |piece| == Pad(p) + HEADER + len
      && (end ==> Emit(c, p, data, begin) == piece)
      && (!end ==> Emit(c, p, data, begin) == piece + Emit(c, q, data[len..], false))
      && (!end && len == 0 ==> Left(p + Pad(p)) == HEADER && Left(q + Pad(q)) != HEADER)
  {
    hide Physical, Zeros, Kind, Pad, Left, FragmentLength;
    if Left(p + Pad(p)) == HEADER { FreshBlock(p); }
    assert FragmentLength(p, |data|) == 0 < |data| ==> Left(p + Pad(p)) == HEADER;
  }

  /** A header that just fits is followed by a new block. */
  lemma FreshBlock(p: nat)
    requires Left(p + Pad(p)) == HEADER
    ensures var q := p + Pad(p) + HEADER; Left(q + Pad(q)) == BLOCK
  {
    assert (p + Pad(p) + HEADER) % BLOCK == 0;
  }

  /** The block offset tracks the file length, so the source's padding test is `Pad`. */
  lemma PadMatches(blockOffset: nat, p: nat)
    requires blockOffset <= BLOCK && blockOffset % BLOCK == p % BLOCK
    ensures var left := BLOCK - blockOffset;
      var offset' := if left < HEADER then 0 else blockOffset;
      && Pad(p) == (if left < HEADER then left else 0)
      && offset' % BLOCK == (p + Pad(p)) % BLOCK
      && Left(p + Pad(p)) == BLOCK - offset'
  {}

  /** The bytes the writer appends for a list of records. */
  function LogBytes(c: Checksum, p: nat, records: seq<Bytes>): (r: Bytes)
    decreases |records|
  {
    if records == [] then []
    else var e := Emit(c, p, records[0], true); e + LogBytes(c, p + |e|, records[1..])
  }

  /** Writing one more record extends the log. */
  lemma {:induction false} LogBytesSnoc(c: Checksum, p: nat, records: seq<Bytes>, r: Bytes)
    ensures LogBytes(c, p, records + [r]) ==
      LogBytes(c, p, records) + Emit(c, p + |LogBytes(c, p, records)|, r, true)
    decreases |records|
  {
    hide Emit;
    if records == [] {
      assert ([] + [r])[1..] == [];
    } else {
      var e := Emit(c, p, records[0], true);
      assert (records + [r])[1..] == records[1..] + [r];
      LogBytesSnoc(c, p + |e|, records[1..], r);
    }
  }

  lemma ModAdd(a: nat, b: nat, n: nat)
    requires a % BLOCK == b % BLOCK
    ensures (a + n) % BLOCK == (b + n) % BLOCK
  {}

  lemma Assoc(a: Bytes, b: Bytes, c: Bytes)
    ensures a + b + c == a + (b + c)
  {}

  class Writer {
    const c: Checksum
    var dest: Bytes
    var blockOffset: nat

    /** What the file held before, and the records added since. */
    ghost const start: Bytes
    ghost var records: seq<Bytes>

    ghost predicate InBlock()
      reads this
    {
      blockOffset <= BLOCK && blockOffset % BLOCK == |dest| % BLOCK
    }

    /** The file is the log of the records. */
    ghost predicate Valid()
      reads this
    {
      InBlock() && dest == start + LogBytes(c, |start|, records)
    }

    constructor (c: Checksum, dest: Bytes)
      ensures Valid() && this.c == c && this.dest == start == dest && records == []
    {
      this.c, this.dest, this.blockOffset := c, dest, |dest| % BLOCK;
      start, records := dest, [];
      new;
      assert start + [] == start;
    }

    /** Writer::AddRecord: the file becomes the log of one more record. */
    method AddRecord(data: Bytes)
      requires Valid()
      modifies this
      ensures Valid() && records == old(records) + [data]
      ensures dest == old(dest) + Emit(c, |old(dest)|, data, true)
    {
      hide LogBytes, Emit;
      LogBytesSnoc(c, |start|, records, data);
      AppendRecord(data);
      records := records + [data];
      assert start + (LogBytes(c, |start|, old(records)) + Emit(c, |old(dest)|, data, true)) == dest;
    }

    /** The loop of AddRecord, fragment by fragment. */
    method AppendRecord(data: Bytes)
      requires InBlock()
      modifies this`dest, this`blockOffset
      ensures InBlock()
      ensures dest == old(dest) + Emit(c, |old(dest)|, data, true)
    {
      hide Physical, Kind, Zeros, Emit, Pad, Left;
      var rest, begin := data, true;
      while true
        invariant InBlock()
        invariant old(dest) + Emit(c, |old(dest)|, data, true) == dest + Emit(c, |dest|, rest, begin)
        decreases |rest|, if Left(|dest| + Pad(|dest|)) == HEADER then 1 else 0
      {
        ghost var before := dest;
        PadMatches(blockOffset, |dest|);
        EmitStep(c, |before|, rest, begin);
        var blockLeft := BLOCK - blockOffset;
        if blockLeft < HEADER {
          if blockLeft > 0 {
            dest := dest + Zeros(blockLeft);
          }
          blockOffset := 0;
        }
        assert dest == before + Zeros(Pad(|before|));
        var avail := BLOCK - blockOffset - HEADER;
        var length := if |rest| < avail then |rest| else avail;
        var end := |rest| == length;
        ghost var piece := Zeros(Pad(|before|)) + Physical(c, Kind(begin, end), rest[..length]);
        WritePhysicalRecord(Kind(begin, end), rest[..length]);
        assert dest == before + piece;
        if end { return; }
        rest := rest[length..];
        begin := false;
        Assoc(before, piece, Emit(c, |dest|, rest, false));
      }
    }

    /** Writer::WritePhysicalRecord; the CRC is extended from the precomputed CRC of the type. */
    method WritePhysicalRecord(kind: Byte, data: Bytes)
      requires HEADER + |data| <= BLOCK - blockOffset
      requires InBlock()
      modifies this`dest, this`blockOffset
      ensures InBlock()
      ensures dest == old(dest) + Physical(c, kind, data)
      ensures blockOffset == old(blockOffset) + HEADER + |data|
    {
      hide CrcMask, Fixed32, Extend;
      var crc := Extend(c.step, c.Of([kind]), data);
      ExtendConcat(c.step, c.seed, [kind], data);
      var header := Fixed32(CrcMask(crc)) + [|data| % 256, |data| / 256 % 256, kind];
      assert Physical(c, kind, data) == header + data;
      ModAdd(blockOffset, |dest|, HEADER + |data|);
      hide Physical;
      dest := dest + header;
      dest := dest + data;
      blockOffset := blockOffset + HEADER + |data|;
      assert dest == old(dest) + (header + data);
    }
  }

  // ---------------------------------------------------------------- reading

  /** Reader state: the unread part of the current block, the unread part of the file behind
      it, and whether the file's end has been seen. */
  datatype State = State(buffer: Bytes, rest: Bytes, eof: bool) {
    function Size(): (r: nat) { |buffer| + |rest| }

    /** Read the next block of the file into the buffer. */
    function Refill(): (r: State)
      requires !eof
    {
      var n := Min(BLOCK, |rest|);
      State(rest[..n], rest[n..], n < BLOCK)
    }
  }

  datatype Fragment = Fragment(code: nat, data: Bytes, next: State)

  /** ReadPhysicalRecord once the buffer holds a whole header. */
  function Parse1(c: Checksum, s: State): (r: Fragment)
    requires |s.buffer| >= HEADER
    ensures r.next.Size() < s.Size()
  {
    var b := s.buffer;
    var len := b[4] as nat + 256 * b[5] as nat;
    if HEADER + len > |b| then
      Fragment(if s.eof then EOF else BAD_RECORD, [], s.(buffer := []))
    else if CrcUnmask(DecodeFixed32(b)) != c.Of(b[6..HEADER + len]) then
      Fragment(BAD_RECORD, [], s.(buffer := []))
    else
      Fragment(b[6], b[HEADER..HEADER + len], s.(buffer := b[HEADER + len..]))
  }

  function ReadPhysical(c: Checksum, s: State): (r: Fragment)
    ensures r.code == EOF || r.next.Size() < s.Size()
    decreases |s.rest| + if s.eof then 0 else 1
  {
    if |s.buffer| >= HEADER then Parse1(c, s)
    else if s.eof then Fragment(EOF, [], s.(buffer := []))
    else ReadPhysical(c, s.Refill())
  }

  datatype Record = Record(data: Bytes, next: State) | NoMore

  /** ReadRecord with `scratch` collected so far. */
  function ReadRecord(c: Checksum, s: State, scratch: Bytes): (r: Record)
    ensures r.Record? ==> r.next.Size() < s.Size()
    decreases s.Size()
  {
    var f := ReadPhysical(c, s);
    if f.code == EOF then NoMore
    else if f.code == FULL then Record(f.data, f.next)
    else if f.code == FIRST then ReadRecord(c, f.next, f.data)
    else if f.code == MIDDLE then ReadRecord(c, f.next, scratch + f.data)
    else if f.code == LAST then Record(scratch + f.data, f.next)
    else ReadRecord(c, f.next, scratch)
  }

  /** What a caller looping on ReadRecord collects. */
  function ReadAll(c: Checksum, s: State): (r: seq<Bytes>)
    decreases s.Size()
  {
    match ReadRecord(c, s, [])
    case NoMore => []
    case Record(data, next) => [data] + ReadAll(c, next)
  }

  function Open(file: Bytes): (r: State) { State([], file, false) }

  class Reader {
    const c: Checksum
    var s: State

    constructor (c: Checksum, file: Bytes)
      ensures this.c == c && s == Open(file)
    {
      this.c, this.s := c, Open(file);
    }

    /** Reader::ReadPhysicalRecord: consumes one fragment from the buffer. */
    method ReadPhysicalRecord() returns (code: nat, data: Bytes)
      modifies this
      ensures Fragment(code, data, s) == ReadPhysical(c, old(s))
    {
      while true
        invariant ReadPhysical(c, s) == ReadPhysical(c, old(s))
        decreases |s.rest| + if s.eof then 0 else 1
      {
        if |s.buffer| < HEADER {
          if s.eof {
            s := s.(buffer := []);
            return EOF, [];
          }
          s := s.Refill();
          continue;
        }
        var b := s.buffer;
        var len := b[4] as nat + 256 * b[5] as nat;
        if HEADER + len > |b| {
          s := s.(buffer := []);
          return if s.eof then EOF else BAD_RECORD, [];
        }
        if CrcUnmask(DecodeFixed32(b)) != c.Of(b[6..HEADER + len]) {
          s := s.(buffer := []);
          return BAD_RECORD, [];
        }
        s := s.(buffer := b[HEADER + len..]);
        return b[6], b[HEADER..HEADER + len];
      }
    }

    /** Reader::ReadRecord: the loop over fragments. */
    method ReadNext() returns (ok: bool, record: Bytes)
      modifies this
      ensures ok == ReadRecord(c, old(s), []).Record?
      ensures ok ==> Record(record, s) == ReadRecord(c, old(s), [])
    {
      var scratch: Bytes := [];
      while true
        invariant ReadRecord(c, s, scratch) == ReadRecord(c, old(s), [])
        decreases s.Size()
      {
        var code, data := ReadPhysicalRecord();
        if code == FULL { return true, data; }
        else if code == FIRST { scratch := data; }
        else if code == MIDDLE { scratch := scratch + data; }
        else if code == LAST { return true, scratch + data; }
        else if code == EOF { return false, []; }
      }
    }
  }

  // ---------------------------------------------------------------- reading back what was written

  /** The reader stands at file position p with the bytes `s` still to come. */
  ghost predicate At(st: State, p: nat, s: Bytes) {
    && st.buffer + st.rest == s
    && |st.buffer| <= Left(p)
    && (!st.eof ==> (p + |st.buffer|) % BLOCK == 0)
    && (st.eof ==> st.rest == [] && |st.buffer| < Left(p))
  }

  /** The same, with the buffer reaching to the end of p's block or of the file. */
  ghost predicate Loaded(st: State, p: nat, s: Bytes) {
    && At(st, p, s)
    && (st.eof || |st.buffer| == Left(p))
  }

  lemma RefillLoads(st: State, p: nat, s: Bytes)
    requires At(st, p, s) && !st.eof && |st.buffer| < HEADER
    requires |st.buffer| == Pad(p)
    ensures Loaded(st.Refill(), p + Pad(p), s[Pad(p)..])
  {
    assert (p + Pad(p)) % BLOCK == 0;
    assert Left(p + Pad(p)) == BLOCK;
    var n := Min(BLOCK, |st.rest|);
    assert s[Pad(p)..] == st.rest == st.rest[..n] + st.rest[n..];
  }

  lemma FullBuffer(st: State, p: nat, s: Bytes)
    requires At(st, p, s) && !st.eof
    ensures |st.buffer| == Left(p) || (|st.buffer| == 0 && p % BLOCK == 0)
  {
    assert (p + |st.buffer|) % BLOCK == 0;
    assert p % BLOCK + Left(p) == BLOCK;
  }

  /** Skipping padding and refilling, if needed, puts the next header at the buffer's start. */
  lemma SkipPad(c: Checksum, st: State, p: nat, s: Bytes) returns (st1: State)
    requires At(st, p, s)
    ensures |s| >= Pad(p) ==> Loaded(st1, p + Pad(p), s[Pad(p)..]) && ReadPhysical(c, st) == ReadPhysical(c, st1)
    ensures |s| < Pad(p) ==> ReadPhysical(c, st).code == EOF
  {
    st1 := st;
    if st.eof {
      if |s| >= Pad(p) {
        assert Pad(p) == 0;
        assert s[0..] == s;
      }
    } else {
      FullBuffer(st, p, s);
      if |st.buffer| < HEADER {
        if Pad(p) == 0 { assert |st.buffer| == 0; }
        RefillLoads(st, p, s);
        st1 := st.Refill();
      } else {
        assert s[0..] == s;
      }
    }
  }

  lemma HeaderBytes(c: Checksum, kind: Byte, data: Bytes, tail: Bytes, n: nat)
    requires HEADER <= n <= HEADER + |data| + |tail| && |data| < 0x1_0000
    ensures var b := (Physical(c, kind, data) + tail)[..n];
      && b[4] as nat + 256 * b[5] as nat == |data| && b[6] == kind
      && CrcUnmask(DecodeFixed32(b)) == c.Of([kind] + data)
      && (n >= HEADER + |data| ==> b[6..HEADER + |data|] == [kind] + data && b[HEADER..HEADER + |data|] == data)
  {
    hide CrcMask, CrcUnmask, Extend, Fixed32, DecodeFixed32;
    var w := Physical(c, kind, data);
    var b := (w + tail)[..n];
    var crc := CrcMask(c.Of([kind] + data));
    var more := b[4..];
    assert b[..4] == w[..4] == Fixed32(crc);
    assert b == Fixed32(crc) + more;
    Fixed32RoundTrip(crc, more);
    CrcMaskRoundTrip(c.Of([kind] + data));
    assert b[4] == w[4] == |data| % 256 && b[5] == w[5] == |data| / 256 % 256 && b[6] == w[6] == kind;
    if n >= HEADER + |data| {
      assert |w| == HEADER + |data| && w[6..] == [kind] + data;
      assert b[..|w|] == w;
      assert b[6..HEADER + |data|] == b[..|w|][6..];
      assert b[HEADER..HEADER + |data|] == b[6..HEADER + |data|][1..] == data;
    }
  }

  /** A fragment at the start of a loaded buffer is parsed exactly when all of it is there. */
  lemma ParseLoaded(c: Checksum, st: State, q: nat, kind: Byte, data: Bytes, tail: Bytes, s: Bytes)
    requires Loaded(st, q, s) && HEADER + |data| <= Left(q)
    requires s <= Physical(c, kind, data) + tail
    ensures var n := HEADER + |data|;
      var f := ReadPhysical(c, st);
      if |s| >= n then f == Fragment(kind, data, st.(buffer := st.buffer[n..])) && |st.buffer| >= n
      else f.code == EOF
  {
    hide Physical, CrcUnmask, DecodeFixed32, Extend;
    var b := st.buffer;
    assert b <= s;
    if |b| >= HEADER {
      assert b == (Physical(c, kind, data) + tail)[..|b|];
      HeaderBytes(c, kind, data, tail, |b|);
      assert ReadPhysical(c, st) == Parse1(c, st);
    }
  }

  /** One fragment is read back exactly when the file holds all of it. */
  lemma ReadFragment(c: Checksum, st: State, p: nat, kind: Byte, data: Bytes, tail: Bytes, s: Bytes)
    requires At(st, p, s) && HEADER + |data| <= Left(p + Pad(p))
    requires s <= Zeros(Pad(p)) + Physical(c, kind, data) + tail
    ensures var n := Pad(p) + HEADER + |data|;
      var f := ReadPhysical(c, st);
      if |s| >= n then f.code == kind && f.data == data && At(f.next, p + n, s[n..]) else f.code == EOF
  {
    hide Physical, Zeros, Pad, Left, ReadPhysical, At;
    var st1 := SkipPad(c, st, p, s);
    var pad := Zeros(Pad(p));
    if |s| >= |pad| {
      var q, s1, n := p + |pad|, s[|pad|..], HEADER + |data|;
      assert s1 <= Physical(c, kind, data) + tail by {
        assert (pad + Physical(c, kind, data) + tail)[|pad|..] == Physical(c, kind, data) + tail;
      }
      ParseLoaded(c, st1, q, kind, data, tail, s1);
      if |s1| >= n {
        Consume(st1, q, s1, n);
        assert s1[n..] == s[|pad| + n..];
      }
    }
  }

  /** Consuming n of the bytes in the buffer. */
  lemma Consume(st: State, q: nat, s: Bytes, n: nat)
    requires At(st, q, s) && n <= |st.buffer|
    ensures n <= |s| && At(st.(buffer := st.buffer[n..]), q + n, s[n..])
  {
    hide Left;
    var b := st.buffer;
    Advance(q, |b|, n);
    assert b[n..] + st.rest == (b + st.rest)[n..];
  }

  /** Position arithmetic of consuming n of the b bytes that are left in the block. */
  lemma Advance(q: nat, b: nat, n: nat)
    requires n <= b <= Left(q)
    ensures b - n <= Left(q + n)
    ensures (q + b) % BLOCK == 0 ==> (q + n + (b - n)) % BLOCK == 0
    ensures b < Left(q) ==> b - n < Left(q + n)
  {
    if n == Left(q) {
      assert (q + n) % BLOCK == 0;
    } else {
      assert (q + n) % BLOCK == q % BLOCK + n;
    }
  }

  lemma CutPiece(s: Bytes, piece: Bytes, more: Bytes, tail: Bytes)
    requires s <= piece + more + tail
    ensures s <= piece + (more + tail)
    ensures |s| >= |piece| ==> s[|piece|..] <= more + tail
    ensures |s| >= |piece| + |more| ==> s[|piece|..][|more|..] == s[|piece| + |more|..]
  {
    assert piece + more + tail == piece + (more + tail);
    assert (piece + (more + tail))[|piece|..] == more + tail;
  }

  /** A record is read back exactly when the file holds it to its last byte. */
  lemma {:induction false} ReadBackRecord(c: Checksum, st: State, p: nat, data: Bytes, begin: bool,
                                          tail: Bytes, s: Bytes, scratch: Bytes)
    requires At(st, p, s) && s <= Emit(c, p, data, begin) + tail
    ensures var n := |Emit(c, p, data, begin)|;
      var r := ReadRecord(c, st, scratch);
      if |s| >= n then
        r.Record? && r.data == (if begin then data else scratch + data) && At(r.next, p + n, s[n..])
      else r.NoMore?
    decreases |data|, if Left(p + Pad(p)) == HEADER then 1 else 0
  {
    hide Physical, Zeros, Pad, Left, ReadPhysical, Emit, At, FragmentLength;
    EmitStep(c, p, data, begin);
    var len := FragmentLength(p, |data|);
    var end := len == |data|;
    var kind := Kind(begin, end);
    var piece := Zeros(Pad(p)) + Physical(c, kind, data[..len]);
    var f := ReadPhysical(c, st);
    if end {
      assert data[..len] == data;
      ReadFragment(c, st, p, kind, data, tail, s);
    } else {
      var more := Emit(c, p + |piece|, data[len..], false);
      CutPiece(s, piece, more, tail);
      ReadFragment(c, st, p, kind, data[..len], more + tail, s);
      if |s| >= |piece| {
        var s1 := s[|piece|..];
        var scratch1 := if begin then data[..len] else scratch + data[..len];
        ReadBackRecord(c, f.next, p + |piece|, data[len..], false, tail, s1, scratch1);
        assert ReadRecord(c, st, scratch) == ReadRecord(c, f.next, scratch1);
        assert scratch1 + data[len..] == if begin then data else scratch + data;
      }
    }
  }

  /** How many of the records lie completely inside the first n bytes of the log. */
  function Complete(c: Checksum, p: nat, records: seq<Bytes>, n: nat): (k: nat)
    ensures k <= |records|
    decreases |records|
  {
    if records == [] then 0
    else
      var e := |Emit(c, p, records[0], true)|;
      if n < e then 0 else 1 + Complete(c, p + e, records[1..], n - e)
  }

  lemma {:induction false} ReadBackAll(c: Checksum, st: State, p: nat, records: seq<Bytes>, s: Bytes)
    requires At(st, p, s) && s <= LogBytes(c, p, records)
    ensures ReadAll(c, st) == records[..Complete(c, p, records, |s|)]
    decreases |records|
  {
    hide Emit, ReadPhysical, Left, Pad, At;
    if records == [] {
      assert s == [];
      ReadNothing(c, st, p);
    } else {
      hide ReadRecord;
      var e := Emit(c, p, records[0], true);
      var tail := LogBytes(c, p + |e|, records[1..]);
      ReadBackRecord(c, st, p, records[0], true, tail, s, []);
      if |s| >= |e| {
        var r := ReadRecord(c, st, []);
        var s1 := s[|e|..];
        assert s1 <= tail by { assert (e + tail)[|e|..] == tail; }
        ReadBackAll(c, r.next, p + |e|, records[1..], s1);
        var k := Complete(c, p + |e|, records[1..], |s1|);
        assert [records[0]] + records[1..][..k] == records[..k + 1];
      }
    }
  }

  lemma ReadNothing(c: Checksum, st: State, p: nat)
    requires At(st, p, [])
    ensures ReadPhysical(c, st).code == EOF
  {
    assert st.buffer == [] && st.rest == [];
    var st1 := SkipPad(c, st, p, []);
  }

  /** `Complete` is the number k with log(k records) <= n < log(k + 1 records). */
  lemma {:induction false} CompleteIs(c: Checksum, p: nat, records: seq<Bytes>, n: nat)
    ensures var k := Complete(c, p, records, n);
      && |LogBytes(c, p, records[..k])| <= n
      && (k < |records| ==> n < |LogBytes(c, p, records[..k + 1])|)
    decreases |records|
  {
    hide Emit;
    if records != [] {
      var e := Emit(c, p, records[0], true);
      var k := Complete(c, p, records, n);
      assert |LogBytes(c, p, [])| == 0;
      if n < |e| {
        assert records[..1][1..] == [];
        assert LogBytes(c, p, records[..1]) == e + LogBytes(c, p + |e|, []);
      } else {
        CompleteIs(c, p + |e|, records[1..], n - |e|);
        assert records[..k][1..] == records[1..][..k - 1];
        if k < |records| {
          assert records[..k + 1][1..] == records[1..][..k];
        }
      }
    }
  }

  lemma AtStart(file: Bytes)
    ensures At(Open(file), 0, file)
  {
    assert [] + file == file;
  }

  /** Truncation theorem. Cut the log of any records at any byte: the reader returns, in order,
      exactly the records whose last fragment lies inside the prefix, and then stops. */
  lemma TruncatedLog(c: Checksum, records: seq<Bytes>, n: nat, k: nat)
    requires n <= |LogBytes(c, 0, records)| && k <= |records|
    requires |LogBytes(c, 0, records[..k])| <= n
    requires k < |records| ==> n < |LogBytes(c, 0, records[..k + 1])|
    ensures ReadAll(c, Open(LogBytes(c, 0, records)[..n])) == records[..k]
  {
    hide LogBytes, ReadAll, Complete, Emit, At, Open;
    var s := LogBytes(c, 0, records)[..n];
    AtStart(s);
    ReadBackAll(c, Open(s), 0, records, s);
    var j := Complete(c, 0, records, n);
    CompleteIs(c, 0, records, n);
    if j < k { PrefixShorter(c, 0, records, j + 1, k); }
    if k < j { PrefixShorter(c, 0, records, k + 1, j); }
  }

  /** More records make a longer log. */
  lemma {:induction false} PrefixShorter(c: Checksum, p: nat, records: seq<Bytes>, i: nat, j: nat)
    requires i <= j <= |records|
    ensures |LogBytes(c, p, records[..i])| <= |LogBytes(c, p, records[..j])|
    decreases |records|
  {
    hide Emit;
    if i > 0 {
      var e := Emit(c, p, records[0], true);
      assert records[..i][1..] == records[1..][..i - 1];
      assert records[..j][1..] == records[1..][..j - 1];
      PrefixShorter(c, p + |e|, records[1..], i - 1, j - 1);
    }
  }

  /** The whole log reads back as the records that were written. */
  lemma LogRoundTrip(c: Checksum, records: seq<Bytes>)
    ensures ReadAll(c, Open(LogBytes(c, 0, records))) == records
  {
    var s := LogBytes(c, 0, records);
    assert records[..|records|] == records && s[..|s|] == s;
    TruncatedLog(c, records, |s|, |records|);
  }

  // ---------------------------------------------------------------- damaged files

  /** A fragment as the writer makes it stands at position k. */
  ghost predicate StandsAt(c: Checksum, s: Bytes, k: nat, kind: Byte, data: Bytes) {
    k + HEADER + |data| <= |s| && |data| < 0x1_0000 && s[k..k + HEADER + |data|] == Physical(c, kind, data)
  }

  /** The bytes of a fragment that passes the checks are those that the writer makes of it. */
  lemma ParsedIsWritten(c: Checksum, s: State)
    requires |s.buffer| >= HEADER
    ensures var f := Parse1(c, s);
      f.code != EOF && f.code != BAD_RECORD ==>
        && f.code < 256 && StandsAt(c, s.buffer, 0, f.code, f.data)
        && f.next == s.(buffer := s.buffer[HEADER + |f.data|..])
  {
    hide Extend, Fixed32, DecodeFixed32, CrcMask, CrcUnmask;
    var b, f := s.buffer, Parse1(c, s);
    var len := b[4] as nat + 256 * b[5] as nat;
    if f.code != EOF && f.code != BAD_RECORD {
      CrcUnmaskRoundTrip(DecodeFixed32(b));
      Fixed32Back(b);
      assert b[6..HEADER + len] == [b[6]] + b[HEADER..HEADER + len];
      assert b[..HEADER + len] == b[..4] + [b[4], b[5], b[6]] + b[HEADER..HEADER + len];
      assert len % 256 == b[4] && len / 256 % 256 == b[5];
    }
  }

  lemma StandsInFront(c: Checksum, s: Bytes, more: Bytes, kind: Byte, data: Bytes)
    requires StandsAt(c, s, 0, kind, data)
    ensures StandsAt(c, s + more, 0, kind, data)
    ensures var n := HEADER + |data|; n <= |s| && (s + more)[n..] == s[n..] + more
  {
    hide Physical;
    assert (s + more)[..HEADER + |data|] == s[..HEADER + |data|];
  }

  lemma StandsBehind(c: Checksum, s: Bytes, n: nat, k: nat, kind: Byte, data: Bytes)
    requires n <= |s| && StandsAt(c, s[n..], k, kind, data)
    ensures StandsAt(c, s, n + k, kind, data)
  {
    hide Physical;
    assert s[n..][k..k + HEADER + |data|] == s[n + k..n + k + HEADER + |data|];
  }

  /** Whatever the file holds: a fragment that is delivered stands in the unread bytes, byte for byte
      as the writer makes it, and reading goes on somewhere behind it. */
  lemma {:induction false} FragmentIntact(c: Checksum, s: State) returns (k: nat, n: nat)
    requires var f := ReadPhysical(c, s); f.code != EOF && f.code != BAD_RECORD
    ensures var f := ReadPhysical(c, s);
      && f.code < 256 && StandsAt(c, s.buffer + s.rest, k, f.code, f.data)
      && k + HEADER + |f.data| <= n <= |s.buffer + s.rest| && f.next.buffer + f.next.rest == (s.buffer + s.rest)[n..]
    decreases |s.rest| + if s.eof then 0 else 1
  {
    hide Parse1, Physical, StandsAt;
    var all, f := s.buffer + s.rest, ReadPhysical(c, s);
    if |s.buffer| >= HEADER {
      ParsedIsWritten(c, s);
      k, n := 0, HEADER + |f.data|;
      StandsInFront(c, s.buffer, s.rest, f.code, f.data);
    } else {
      var s1 := s.Refill();
      var k1, n1 := FragmentIntact(c, s1);
      assert s1.buffer + s1.rest == s.rest == all[|s.buffer|..];
      k, n := |s.buffer| + k1, |s.buffer| + n1;
      StandsBehind(c, all, |s.buffer|, k1, f.code, f.data);
      assert all[n..] == s.rest[n1..];
    }
  }

  lemma ParsedAway(c: Checksum, s: State) returns (n: nat)
    requires |s.buffer| >= HEADER
    ensures var next := Parse1(c, s).next;
      n <= |s.buffer + s.rest| && next.buffer + next.rest == (s.buffer + s.rest)[n..]
  {
    hide Extend, DecodeFixed32, CrcUnmask;
    n := |s.buffer| - |Parse1(c, s).next.buffer|;
    assert Parse1(c, s).next.buffer == s.buffer[n..];
  }

  /** What is unread after a fragment, delivered or not, is the end of what was unread before. */
  lemma {:induction false} UnreadAfter(c: Checksum, s: State) returns (n: nat)
    ensures var f := ReadPhysical(c, s);
      n <= |s.buffer + s.rest| && f.next.buffer + f.next.rest == (s.buffer + s.rest)[n..]
    decreases |s.rest| + if s.eof then 0 else 1
  {
    hide Parse1;
    var all := s.buffer + s.rest;
    if |s.buffer| >= HEADER {
      n := ParsedAway(c, s);
    } else if s.eof {
      n := |s.buffer|;
    } else {
      var s1 := s.Refill();
      var n1 := UnreadAfter(c, s1);
      assert s1.buffer + s1.rest == s.rest == all[|s.buffer|..];
      n := |s.buffer| + n1;
    }
  }

  /** The payloads of fragments that stand one behind the other, from some position on. */
  ghost predicate MadeOf(c: Checksum, s: Bytes, from: nat, pieces: seq<Bytes>)
    decreases |pieces|
  {
    pieces == [] || exists k: nat, kind: Byte ::
      from <= k && StandsAt(c, s, k, kind, pieces[0]) && MadeOf(c, s, k + HEADER + |pieces[0]|, pieces[1..])
  }

  lemma {:induction false} MadeOfSuffix(c: Checksum, s: Bytes, n: nat, from: nat, pieces: seq<Bytes>)
    requires n <= |s| && MadeOf(c, s[n..], from, pieces)
    ensures MadeOf(c, s, n + from, pieces)
    decreases |pieces|
  {
    hide StandsAt;
    if pieces != [] {
      var k: nat, kind: Byte :|
        && from <= k && StandsAt(c, s[n..], k, kind, pieces[0])
        && MadeOf(c, s[n..], k + HEADER + |pieces[0]|, pieces[1..]);
      var end := k + HEADER + |pieces[0]|;
      StandsBehind(c, s, n, k, kind, pieces[0]);
      MadeOfSuffix(c, s, n, end, pieces[1..]);
    }
  }

  /** Whatever the file holds: a record that is delivered is put together, in order, from fragments
      that stand in the file as the writer makes them. */
  lemma {:induction false} RecordIntact(c: Checksum, s: State, scratch: Bytes) returns (keep: bool, pieces: seq<Bytes>)
    requires ReadRecord(c, s, scratch).Record?
    ensures ReadRecord(c, s, scratch).data == (if keep then scratch else []) + Flatten(pieces)
    ensures pieces != [] && MadeOf(c, s.buffer + s.rest, 0, pieces)
    decreases s.Size()
  {
    hide ReadPhysical, Physical, StandsAt;
    var f, all := ReadPhysical(c, s), s.buffer + s.rest;
    if f.code == FULL || f.code == FIRST || f.code == MIDDLE || f.code == LAST {
      var k, n := FragmentIntact(c, s);
      keep := f.code == MIDDLE || f.code == LAST;
      pieces := [f.data];
      var more: seq<Bytes> := [];
      if f.code == FIRST || f.code == MIDDLE {
        var scratch' := if keep then scratch + f.data else f.data;
        var keep', more' := RecordIntact(c, f.next, scratch');
        MadeOfSuffix(c, all, n, 0, more');
        more := more';
        if keep' {
          pieces := pieces + more;
        } else {
          keep, pieces := false, more;
        }
      }
      assert pieces == more || (pieces[0] == f.data && pieces[1..] == more);
    } else {
      var n := UnreadAfter(c, s);
      keep, pieces := RecordIntact(c, f.next, scratch);
      MadeOfSuffix(c, all, n, 0, pieces);
    }
  }

  /** A block that begins with a fragment whose checksum does not match, or that claims to be longer
      than the block. */
  predicate Damaged(c: Checksum, block: Bytes)
    requires |block| == BLOCK
  {
    var len := block[4] as nat + 256 * block[5] as nat;
    HEADER + len > BLOCK || CrcUnmask(DecodeFixed32(block)) != c.Of(block[6..HEADER + len])
  }

  /** The first two blocks of a long record. */
  lemma LongRecord(c: Checksum, data: Bytes)
    requires |data| > 2 * (BLOCK - HEADER)
    ensures var n := BLOCK - HEADER;
      Emit(c, 0, data, true) ==
        Physical(c, FIRST, data[..n]) + (Physical(c, MIDDLE, data[n..2 * n]) + Emit(c, 2 * BLOCK, data[2 * n..], false))
  {
    hide Physical, Emit;
    var n := BLOCK - HEADER;
    EmitStep(c, 0, data, true);
    EmitStep(c, BLOCK, data[n..], false);
    assert data[n..][..n] == data[n..2 * n] && data[n..][n..] == data[2 * n..];
    assert Zeros(0) == [];
  }

  /** The reader skips a damaged fragment and goes on with the record it was putting together: when
      the second block of a long record is damaged, it delivers, as one record, what is left when the
      part in that block is cut out. */
  lemma DamagedBlockIsCutOut(c: Checksum, data: Bytes, block: Bytes)
    requires |data| > 2 * (BLOCK - HEADER) && |block| == BLOCK && Damaged(c, block)
    ensures var w, n := Emit(c, 0, data, true), BLOCK - HEADER;
      && |w| >= 2 * BLOCK
      && ReadAll(c, Open(w[..BLOCK] + block + w[2 * BLOCK..])) == [data[..n] + data[2 * n..]]
  {
    hide Physical, Emit, ReadAll, Open, Damaged;
    LongRecord(c, data);
    var w, n := Emit(c, 0, data, true), BLOCK - HEADER;
    var first, last := Physical(c, FIRST, data[..n]), Emit(c, 2 * BLOCK, data[2 * n..], false);
    assert w[..BLOCK] == first && w[2 * BLOCK..] == last;
    CutOut(c, data[..n], block, data[2 * n..]);
  }

  /** A full buffer is read when the old one is used up. */
  lemma NextBlock(c: Checksum, s: State, block: Bytes, rest: Bytes)
    requires s == State([], block + rest, false) && |block| == BLOCK
    ensures ReadPhysical(c, s) == Parse1(c, State(block, rest, false))
  {
    hide Parse1;
    assert (block + rest)[..BLOCK] == block && (block + rest)[BLOCK..] == rest;
    assert s.Refill() == State(block, rest, false);
  }

  lemma DamagedRead(c: Checksum, s: State)
    requires |s.buffer| == BLOCK && !s.eof && Damaged(c, s.buffer)
    ensures Parse1(c, s) == Fragment(BAD_RECORD, [], s.(buffer := []))
  {
    hide Extend, CrcUnmask, DecodeFixed32;
  }

  lemma CutOut(c: Checksum, front: Bytes, block: Bytes, back: Bytes)
    requires |front| == BLOCK - HEADER && |block| == BLOCK && Damaged(c, block)
    ensures ReadAll(c, Open(Physical(c, FIRST, front) + block + Emit(c, 2 * BLOCK, back, false))) == [front + back]
  {
    hide Physical, Emit, ReadPhysical, Parse1, Damaged;
    var first, last := Physical(c, FIRST, front), Emit(c, 2 * BLOCK, back, false);
    var s0, s1, s2 := State([], first + (block + last), false), State([], block + last, false), State([], last, false);
    assert Open(first + block + last) == s0;
    NextBlock(c, s0, first, block + last);
    ParseFirst(c, State(first, block + last, false), FIRST, front);
    NextBlock(c, s1, block, last);
    DamagedRead(c, State(block, last, false));
    assert [] + last == last && last + [] == last;
    ReadBackRecord(c, s2, 2 * BLOCK, back, false, [], last, front);
    var end := ReadRecord(c, s2, front);
    assert ReadRecord(c, s0, []) == ReadRecord(c, s1, front) == end;
    ReadNothing(c, end.next, 2 * BLOCK + |last|);
    assert ReadRecord(c, end.next, []) == NoMore;
    assert ReadAll(c, end.next) == [];
  }

  lemma ParseFirst(c: Checksum, s: State, kind: Byte, data: Bytes)
    requires s.buffer == Physical(c, kind, data) && |data| < 0x1_0000
    ensures Parse1(c, s) == Fragment(kind, data, s.(buffer := []))
  {
    hide Physical, Extend, CrcUnmask, DecodeFixed32;
    assert (Physical(c, kind, data) + [])[..HEADER + |data|] == s.buffer;
    HeaderBytes(c, kind, data, [], HEADER + |data|);
  }
}
