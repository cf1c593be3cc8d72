/** db/sstable/block_reader: the iterator over a finished block. */
module BlockReader {
  import opened Base
  import opened Coding
  import opened Block

  datatype Header = Header(shared: Word, nonShared: Word, valueLen: Word)

  /** ParsedEntry: three varints, and enough bytes behind them for key suffix and value. */
  function ParseEntry(p: Bytes): (r: Parse<Header>) {
    match GetVarint32(p)
    case Bad => Bad
    case Undefined => Undefined
    case Parsed(shared, p1) =>
      match GetVarint32(p1)
      case Bad => Bad
      case Undefined => Undefined
      case Parsed(nonShared, p2) =>
        match GetVarint32(p2)
        case Bad => Bad
        case Undefined => Undefined
        case Parsed(valueLen, p3) =>
          if |p3| < (nonShared + valueLen) % W32 then Bad
          else Parsed(Header(shared, nonShared, valueLen), p3)
  }

  // ---------------------------------------------------------------- facts about a layout

  lemma {:induction false} OffsIncrease(l: Layout, i: nat, j: nat)
    requires l.WellFormed() && i < j <= |l.kvs|
    ensures l.offs[i] < l.offs[j]
    decreases j - i
  {
    hide EntryBytes;
    assert l.EntryFits(i);
    if i + 1 < j { OffsIncrease(l, i + 1, j); }
  }

  /** Offsets compare as entry numbers do. */
  lemma OffsOrder(l: Layout, i: nat, j: nat)
    requires l.WellFormed() && i <= |l.kvs| && j <= |l.kvs|
    ensures l.offs[i] <= l.offs[j] <==> i <= j
    ensures l.offs[i] < l.offs[j] <==> i < j
  {
    if i < j { OffsIncrease(l, i, j); }
    if j < i { OffsIncrease(l, j, i); }
  }

  lemma StartInRange(l: Layout, j: nat)
    requires l.WellFormed() && j < |l.starts|
    ensures l.starts[j] <= |l.kvs|
    ensures j > 0 || l.kvs != [] ==> l.starts[j] < |l.kvs|
  {
    assert l.StartFits(j);
  }

  /** Where the unshared part of key i starts. */
  ghost function BodyAt(l: Layout, i: nat): (r: int)
    requires l.Shape() && i < |l.kvs| && l.shared[i] <= |l.kvs[i].key|
  {
    l.offs[i + 1] - |l.kvs[i].key[l.shared[i]..]| - |l.kvs[i].value|
  }

  /** The i-th entry parses back; what follows its header is key suffix, value and the rest. */
  lemma ParseAt(l: Layout, data: Bytes, i: nat)
    requires l.WellFormed() && l.Describes(data) && |data| < W32 && i < |l.kvs|
    ensures l.shared[i] <= |l.kvs[i].key| < W32 && |l.kvs[i].value| < W32
    ensures 0 <= BodyAt(l, i) && l.offs[i] <= l.offs[i + 1] <= |data|
    ensures var kv, shared, at := l.kvs[i], l.shared[i], BodyAt(l, i);
      && ParseEntry(data[l.offs[i]..]) == Parsed(Header(shared, |kv.key| - shared, |kv.value|), data[at..])
      && data[at..at + |kv.key| - shared] == kv.key[shared..]
      && data[at + |kv.key| - shared..l.offs[i + 1]] == kv.value
  {
    hide EntryBytes, ParseEntry, Layout.EntryFits, Layout.EntryAt;
    var front, entry, tail := SplitAt(l, data, i);
    ParseBetween(front, l.shared[i], l.kvs[i], tail);
  }

  /** An entry between other bytes. */
  lemma ParseBetween(front: Bytes, shared: nat, kv: KV, tail: Bytes)
    requires shared <= |kv.key| && |kv.key| + |kv.value| < W32
    ensures var data, n := front + (EntryBytes(shared, kv) + tail), |front| + |EntryBytes(shared, kv)|;
      var at, mid := n - |kv.key[shared..]| - |kv.value|, n - |kv.value|;
      && |front| <= at <= mid <= n <= |data|
      && ParseEntry(data[|front|..]) == Parsed(Header(shared, |kv.key| - shared, |kv.value|), data[at..])
      && data[at..mid] == kv.key[shared..] && data[mid..n] == kv.value
  {
    hide EntryBytes, ParseEntry;
    var entry, suffix := EntryBytes(shared, kv), kv.key[shared..];
    var data := front + (entry + tail);
    var head := HeaderRoundTrip(shared, kv, tail);
    Pieces(front + head, suffix, kv.value, tail);
    assert data == front + head + (suffix + kv.value + tail);
    assert data[|front|..] == entry + tail;
  }

  /** The data before entry i, the entry, and the data behind it. */
  lemma SplitAt(l: Layout, data: Bytes, i: nat) returns (front: Bytes, entry: Bytes, tail: Bytes)
    requires l.WellFormed() && l.Describes(data) && i < |l.kvs|
    ensures l.shared[i] <= |l.kvs[i].key| && |l.kvs[i].key| + |l.kvs[i].value| <= |data|
    ensures l.offs[i + 1] == l.offs[i] + |entry| && l.offs[i + 1] <= |data|
        && entry == EntryBytes(l.shared[i], l.kvs[i])
    ensures |front| == l.offs[i] && data == front + (entry + tail)
  {
    hide EntryBytes;
    assert l.EntryAt(data, i) && l.EntryFits(i);
    PrefixFits(l, data, i);
    front, entry, tail := data[..l.offs[i]], data[l.offs[i]..l.offs[i + 1]], data[l.offs[i + 1]..];
  }

  lemma Pieces(x: Bytes, a: Bytes, b: Bytes, c: Bytes)
    ensures var d, n, m := x + (a + b + c), |x|, |x| + |a|;
      d[n..] == a + b + c && d[n..m] == a && d[m..m + |b|] == b
  {}

  /** Key and value of an entry are shorter than the block that holds them. */
  lemma {:induction false} PrefixFits(l: Layout, data: Bytes, i: nat)
    requires l.WellFormed() && l.Describes(data) && i < |l.kvs|
    ensures l.shared[i] <= |l.kvs[i].key| && |l.kvs[i].key| + |l.kvs[i].value| <= |data|
  {
    assert l.EntryAt(data, i) && l.EntryFits(i);
    assert |l.kvs[i].key[l.shared[i]..]| == |l.kvs[i].key| - l.shared[i];
    if i > 0 { SharedFits(l, data, i); } else { assert l.StartFits(0); }
  }

  lemma {:induction false} SharedFits(l: Layout, data: Bytes, i: nat)
    requires l.WellFormed() && l.Describes(data) && i < |l.kvs|
    ensures l.shared[i] <= l.offs[i]
  {
    assert l.EntryFits(i);
    if i > 0 {
      SharedFits(l, data, i - 1);
      assert l.EntryFits(i - 1);
    } else {
      assert l.StartFits(0);
    }
  }

  lemma HeaderRoundTrip(shared: nat, kv: KV, tail: Bytes) returns (head: Bytes)
    requires shared <= |kv.key| < W32 && |kv.value| < W32
    requires |kv.key| - shared + |kv.value| < W32
    ensures ParseEntry(EntryBytes(shared, kv) + tail) ==
      Parsed(Header(shared, |kv.key| - shared, |kv.value|), kv.key[shared..] + kv.value + tail)
    ensures EntryBytes(shared, kv) + tail == head + (kv.key[shared..] + kv.value + tail)
    ensures EntryBytes(shared, kv) == head + kv.key[shared..] + kv.value
  {
    hide Varint, GetVarint32;
    var body := kv.key[shared..] + kv.value + tail;
    var a, b, c := Varint(shared), Varint(|kv.key| - shared), Varint(|kv.value|);
    assert EntryBytes(shared, kv) + tail == a + (b + (c + body));
    Varint32RoundTrip(shared, b + (c + body));
    Varint32RoundTrip(|kv.key| - shared, c + body);
    Varint32RoundTrip(|kv.value|, body);
    head := a + b + c;
  }

  /** The j-th restart offset and the restart count, as stored behind the entries. */
  lemma TrailerAt(block: Bytes, l: Layout, data: Bytes, restarts: seq<nat>, j: nat)
    requires Finished(block, l, data, restarts) && |block| < W32
    ensures |block| == |data| + 4 * |l.starts| + 4
    ensures DecodeFixed32(block[|block| - 4..]) == |l.starts|
    ensures j < |l.starts| ==> l.starts[j] < |l.offs| && DecodeFixed32(block[|data| + 4 * j..]) == l.offs[l.starts[j]]
  {
    hide Fixed32, DecodeFixed32, Restarts, EntryBytes;
    var n := |restarts|;
    assert block[|block| - 4..] == Fixed32(n) + [];
    Fixed32RoundTrip(n, []);
    if j < n {
      assert block[|data| + 4 * j..] == (Restarts(restarts) + Fixed32(n))[4 * j..];
      RestartAt(restarts, j, Fixed32(n));
      OffsOrder(l, l.starts[j], |l.kvs|);
    }
  }

  // ---------------------------------------------------------------- decoding is determined

  /** Two layouts of the same bytes agree, entry by entry. */
  lemma {:induction false} SameEntries(l: Layout, l': Layout, data: Bytes, i: nat)
    requires l.WellFormed() && l'.WellFormed() && l.Describes(data) && l'.Describes(data) && |data| < W32
    requires i <= |l.kvs|
    ensures i <= |l'.kvs| && l.offs[i] == l'.offs[i] && l.kvs[..i] == l'.kvs[..i]
  {
    hide EntryBytes, ParseEntry, Layout.EntryAt, Layout.Describes;
    if i > 0 {
      SameEntries(l, l', data, i - 1);
      OffsOrder(l, i - 1, |l.kvs|);
      DataEnds(l, data);
      DataEnds(l', data);
      ParseAt(l, data, i - 1);
      ParseAt(l', data, i - 1);
      BodyAfter(l, l', data, i - 1);
      assert l.EntryFits(i - 1) && l'.EntryFits(i - 1);
      assert l.kvs[..i] == l.kvs[..i - 1] + [l.kvs[i - 1]] && l'.kvs[..i] == l'.kvs[..i - 1] + [l'.kvs[i - 1]];
    }
  }

  lemma DataEnds(l: Layout, data: Bytes)
    requires l.Shape() && l.Describes(data)
    ensures l.offs[|l.kvs|] == |data|
  {}

  lemma BodyAfter(l: Layout, l': Layout, data: Bytes, i: nat)
    requires l.WellFormed() && l'.WellFormed() && l.Describes(data) && l'.Describes(data) && |data| < W32
    requires i < |l.kvs| && i < |l'.kvs| && l.offs[i] == l'.offs[i]
    requires i > 0 ==> l.kvs[i - 1] == l'.kvs[i - 1]
    ensures l.offs[i + 1] == l'.offs[i + 1] && l.kvs[i] == l'.kvs[i]
  {
    hide EntryBytes, ParseEntry, Layout.EntryAt, Layout.Describes;
    ParseAt(l, data, i);
    ParseAt(l', data, i);
    var at, at' := BodyAt(l, i), BodyAt(l', i);
    assert |data[at..]| == |data| - at && |data[at'..]| == |data| - at';
    assert at == at';
    assert l.EntryFits(i) && l'.EntryFits(i) && l.StartFits(0) && l'.StartFits(0);
    assert l.kvs[i].key == l.kvs[i].key[..l.shared[i]] + l.kvs[i].key[l.shared[i]..];
    assert l'.kvs[i].key == l'.kvs[i].key[..l'.shared[i]] + l'.kvs[i].key[l'.shared[i]..];
  }

  /** A finished block determines its entries. */
  lemma BlockDetermines(block: Bytes, l: Layout, l': Layout)
    requires BlockOf(block, l) && BlockOf(block, l') && |block| < W32
    ensures l.kvs == l'.kvs
  {
    hide EntryBytes;
    var data, restarts :| Finished(block, l, data, restarts);
    var data', restarts' :| Finished(block, l', data', restarts');
    TrailerAt(block, l, data, restarts, 0);
    TrailerAt(block, l', data', restarts', 0);
    assert data == block[..|data|] && data' == block[..|data'|];
    SameEntries(l, l', data, |l.kvs|);
    SameEntries(l', l, data, |l'.kvs|);
    assert l.kvs[..|l.kvs|] == l.kvs && l'.kvs[..|l'.kvs|] == l'.kvs;
  }

  // ---------------------------------------------------------------- the iterator

  class Iter {
    const cmp: Cmp
    const block: Bytes
    const numRestarts: nat
    const restartOffset: nat
    var offset: nat
    var restartIndex: nat
    var key: Bytes
    var valueStart: nat
    var valueLen: nat

    ghost const l: Layout
    ghost const data: Bytes
    ghost const restarts: seq<nat>
    /** Number of the current entry; |l.kvs| when the iterator is not valid. */
    ghost var pos: nat

    ghost predicate Good() {
      && Finished(block, l, data, restarts) && |block| < W32
      && restartOffset == |data| && numRestarts == |l.starts|
    }

    /** Restart point j is the last one at or before entry i. */
    ghost predicate InRun(j: nat, i: nat) {
      && l.Shape() && j < |l.starts| && l.starts[j] <= i
      && (j + 1 < |l.starts| ==> i < l.starts[j + 1])
    }

    ghost predicate Positioned()
      reads this
    {
      && Good() && pos <= |l.kvs|
      && (if pos < |l.kvs| then
            && offset == l.offs[pos] && key == l.kvs[pos].key
            && valueStart + valueLen == l.offs[pos + 1] <= |block|
            && block[valueStart..valueStart + valueLen] == l.kvs[pos].value
            && InRun(restartIndex, pos)
          else offset == restartOffset && restartIndex == numRestarts)
    }

    /** The next call to SeekNextKey will read entry i. */
    ghost predicate Ready(i: nat)
      reads this
    {
      && Good() && i <= |l.kvs|
      && valueStart + valueLen == l.offs[i]
      && restartIndex < numRestarts && l.starts[restartIndex] <= i
      && (i < |l.kvs| ==> IsPrefixLength(key, l.kvs[i].key, l.shared[i]))
    }

    /** BlockReader's constructor and NewIterator on a finished block. */
    constructor (cmp: Cmp, block: Bytes, ghost l: Layout)
      requires BlockOf(block, l) && |block| < W32
      ensures Positioned() && pos == |l.kvs| && this.l == l && this.block == block && this.cmp == cmp
    {
      ghost var data: Bytes, restarts: seq<nat> :| Finished(block, l, data, restarts);
      TrailerAt(block, l, data, restarts, 0);
      this.cmp, this.block, this.l, this.data, this.restarts := cmp, block, l, data, restarts;
      var n := DecodeFixed32(block[|block| - 4..]);
      numRestarts := n;
      var at := |block| - (1 + n) * 4;
      restartOffset := at;
      offset, restartIndex := at, n;
      key, valueStart, valueLen := [], 0, 0;
      pos := |l.kvs|;
    }

    predicate IsValid()
      reads this
    {
      offset < restartOffset
    }

    lemma InBlock()
      requires Positioned()
      ensures Good() && pos <= |l.kvs|
    {}

    /** IsValid() tells whether the iterator stands on an entry. */
    lemma ValidIff()
      requires Positioned()
      ensures IsValid() <==> pos < |l.kvs|
    {
      OffsOrder(l, pos, |l.kvs|);
    }

    /** Iter::Key and Iter::Value. */
    method Current() returns (kv: KV)
      requires Positioned() && pos < |l.kvs|
      ensures kv == l.kvs[pos]
    {
      kv := KV(key, block[valueStart..valueStart + valueLen]);
    }

    function NextEntryOffset(): (r: nat)
      reads this
    {
      valueStart + valueLen
    }

    method GetRestartOffset(j: nat) returns (r: nat)
      requires Good() && j < numRestarts
      ensures l.starts[j] <= |l.kvs| && r == l.offs[l.starts[j]]
    {
      TrailerAt(block, l, data, restarts, j);
      r := DecodeFixed32(block[restartOffset + 4 * j..]);
    }

    method SeekToRestart(j: nat)
      requires Good() && j < numRestarts
      modifies this
      ensures Ready(l.starts[j]) && restartIndex == j
    {
      key := [];
      restartIndex := j;
      var at := GetRestartOffset(j);
      valueStart, valueLen := at, 0;
      assert l.StartFits(j) && l.EntryFits(l.starts[j]);
    }

    /** What ParsedEntry makes of entry i, and where its key suffix and value lie in the block. */
    lemma EntryParses(i: nat)
      requires Good() && i < |l.kvs|
      ensures l.offs[i] <= l.offs[i + 1] <= restartOffset <= |block|
      ensures l.shared[i] <= |l.kvs[i].key| < W32 && |l.kvs[i].value| < W32
      ensures var p := ParseEntry(block[l.offs[i]..restartOffset]);
        && p.Parsed? && |p.rest| <= restartOffset
        && p.value == Header(l.shared[i], |l.kvs[i].key| - l.shared[i], |l.kvs[i].value|)
        && var at := restartOffset - |p.rest|;
          && at + p.value.nonShared + p.value.valueLen == l.offs[i + 1]
          && block[at..at + p.value.nonShared] == l.kvs[i].key[l.shared[i]..]
          && block[at + p.value.nonShared..l.offs[i + 1]] == l.kvs[i].value
    {
      hide ParseEntry, Layout.EntryFits, Layout.EntryAt, Layout.RestartOffsets, Layout.StartFits;
      ParseAt(l, data, i);
      assert block[..|data|] == data;
      assert block[l.offs[i]..restartOffset] == data[l.offs[i]..];
      var at, mid := BodyAt(l, i), BodyAt(l, i) + |l.kvs[i].key| - l.shared[i];
      assert block[at..mid] == data[at..mid] && block[mid..l.offs[i + 1]] == data[mid..l.offs[i + 1]];
    }

    /** Iter::SeekNextKey: decode the entry behind the current value. */
    method SeekNextKey(ghost i: nat) returns (ok: bool)
      requires Ready(i)
      modifies this
      ensures Positioned() && pos == i && ok == (i < |l.kvs|)
    {
      hide EntryBytes, ParseEntry, Layout.EntryFits, Layout.Describes, Layout.RestartOffsets;
      offset := NextEntryOffset();
      pos := i;
      OffsOrder(l, i, |l.kvs|);
      DataEnds(l, data);
      if offset >= restartOffset {
        offset := restartOffset;
        restartIndex := numRestarts;
        return false;
      }
      EntryParses(i);
      var p := ParseEntry(block[offset..restartOffset]);
      // A built block parses, and keeps enough of the previous key: Error() is not reached.
      assert p.Parsed? && p.value.shared <= |key|;
      var h := p.value;
      var at := restartOffset - |p.rest|;
      key := key[..h.shared] + block[at..at + h.nonShared];
      assert key == l.kvs[i].key;
      valueStart, valueLen := at + h.nonShared, h.valueLen;
      AdvanceRestart(i);
      return true;
    }

    /** The loop at the end of SeekNextKey: move on to the restart point of the new entry. */
    method AdvanceRestart(ghost i: nat)
      requires Good() && i < |l.kvs| && offset == l.offs[i]
      requires restartIndex < numRestarts && l.starts[restartIndex] <= i
      modifies this`restartIndex
      ensures InRun(restartIndex, i)
    {
      while restartIndex + 1 < numRestarts
        invariant restartIndex < numRestarts && l.starts[restartIndex] <= i
      {
        var next := GetRestartOffset(restartIndex + 1);
        OffsOrder(l, l.starts[restartIndex + 1], i);
        if next > offset { break; }
        restartIndex := restartIndex + 1;
      }
    }

    /** Next moves to the following entry, or off the end. */
    method Next()
      requires Positioned() && pos < |l.kvs|
      modifies this
      ensures Positioned() && pos == old(pos) + 1
    {
      assert l.EntryFits(pos + 1);
      assert l.starts[restartIndex] <= pos;
      var _ := SeekNextKey(pos + 1);
    }

    /** Prev undoes Next; before the first entry the iterator becomes invalid. */
    method Prev()
      requires Positioned() && pos < |l.kvs|
      modifies this
      ensures Positioned() && pos == if old(pos) == 0 then |l.kvs| else old(pos) - 1
    {
      hide EntryBytes;
      ghost var i := pos;
      var oldOffset := offset;
      var at := GetRestartOffset(restartIndex);
      while at >= oldOffset
        invariant restartIndex < numRestarts && l.starts[restartIndex] <= |l.kvs|
            && at == l.offs[l.starts[restartIndex]]
        decreases restartIndex
      {
        OffsOrder(l, i, l.starts[restartIndex]);
        if restartIndex == 0 {
          offset := restartOffset;
          restartIndex := numRestarts;
          pos := |l.kvs|;
          return;
        }
        restartIndex := restartIndex - 1;
        at := GetRestartOffset(restartIndex);
      }
      OffsOrder(l, i, l.starts[restartIndex]);
      SeekToRestart(restartIndex);
      ScanTo(oldOffset, l.starts[restartIndex], i);
    }

    /** `while (SeekNextKey() && NextEntryOffset() < bound)`, shared by Prev and SeekToLast:
        stops on the entry just before the one at offset `bound`. */
    method ScanTo(bound: nat, ghost from: nat, ghost i: nat)
      requires Ready(from) && i <= |l.kvs| && bound == l.offs[i]
      requires from < i || from == |l.kvs|
      modifies this
      ensures Positioned() && pos == if from == |l.kvs| then |l.kvs| else i - 1
    {
      hide EntryBytes;
      var ok := SeekNextKey(from);
      if ok { OffsOrder(l, pos + 1, i); }
      while ok && NextEntryOffset() < bound
        invariant Positioned()
        invariant if from == |l.kvs| then !ok && pos == |l.kvs| else
                    ok && pos < i && NextEntryOffset() == l.offs[pos + 1]
                        && (NextEntryOffset() < bound <==> pos + 1 < i)
        decreases |l.kvs| - pos
      {
        assert l.EntryFits(pos + 1);
        ok := SeekNextKey(pos + 1);
        OffsOrder(l, pos + 1, i);
      }
    }

    method SeekToFirst()
      requires Good()
      modifies this
      ensures Positioned() && pos == 0
    {
      SeekToRestart(0);
      var _ := SeekNextKey(0);
    }

    method SeekToLast()
      requires Good()
      modifies this
      ensures Positioned() && pos == if l.kvs == [] then 0 else |l.kvs| - 1
    {
      StartInRange(l, numRestarts - 1);
      SeekToRestart(numRestarts - 1);
      ScanTo(restartOffset, l.starts[numRestarts - 1], |l.kvs|);
    }

    /** The full key stored at restart point j > 0, parsed without moving the iterator. */
    method RestartKey(j: nat) returns (k: Bytes)
      requires Good() && 0 < j < numRestarts
      ensures l.starts[j] < |l.kvs| && k == l.kvs[l.starts[j]].key
    {
      hide EntryBytes, ParseEntry;
      StartInRange(l, j);
      var at := GetRestartOffset(j);
      ghost var i := l.starts[j];
      ParseAt(l, data, i);
      assert l.StartFits(j);
      assert block[at..restartOffset] == data[l.offs[i]..];
      var p := ParseEntry(block[at..restartOffset]);
      // A restart entry shares nothing: the Error() branch is not reached.
      assert p.Parsed? && p.value.shared == 0;
      assert |p.rest| == |data| - BodyAt(l, i);
      k := p.rest[..p.value.nonShared];
      assert k == data[BodyAt(l, i)..BodyAt(l, i) + p.value.nonShared];
    }

    /** The binary search of Seek over restart points [lo0, hi0]: the last one whose key is below the
        target, and the first one if there is none. */
    method SearchRestarts(target: Bytes, lo0: nat, hi0: nat) returns (lo: nat)
      requires Good() && Sorted(cmp, l.kvs) && TotalOrder(cmp)
      requires lo0 <= hi0 < numRestarts && AllBelow(cmp, l.kvs, target, l.starts[lo0])
      ensures lo0 <= lo <= hi0 && AllBelow(cmp, l.kvs, target, l.starts[lo])
      ensures lo < hi0 ==> l.starts[lo + 1] < |l.kvs| && cmp(l.kvs[l.starts[lo + 1]].key, target) >= 0
    {
      hide TotalOrder, Sorted;
      lo := lo0;
      var hi := hi0;
      while lo < hi
        invariant lo0 <= lo <= hi <= hi0 && AllBelow(cmp, l.kvs, target, l.starts[lo])
        invariant hi < hi0 ==> l.starts[hi + 1] < |l.kvs| && cmp(l.kvs[l.starts[hi + 1]].key, target) >= 0
      {
        var mid := (lo + hi + 1) / 2;
        var midKey := RestartKey(mid);
        if cmp(midKey, target) < 0 {
          lo := mid;
          BelowUpTo(cmp, l.kvs, target, l.starts[mid]);
        } else {
          hi := mid - 1;
        }
      }
    }

    /** The linear search of Seek, from entry `from` on. */
    method ScanFor(target: Bytes, ghost from: nat)
      requires Ready(from) && Sorted(cmp, l.kvs) && TotalOrder(cmp) && AllBelow(cmp, l.kvs, target, from)
      modifies this
      ensures Positioned() && IsFirstGe(cmp, l.kvs, target, pos)
    {
      hide EntryBytes, TotalOrder, Sorted;
      ghost var next := from;
      while true
        invariant Ready(next) && AllBelow(cmp, l.kvs, target, next)
        decreases |l.kvs| - next
      {
        var ok := SeekNextKey(next);
        if !ok { return; }
        if cmp(key, target) >= 0 {
          AboveFrom(cmp, l.kvs, target, pos);
          return;
        }
        next := next + 1;
        assert l.EntryFits(next);
      }
    }

    /** Seek from any reachable position, valid or not: the current key narrows the binary
        search over restart points, and a linear scan finishes. */
    method Seek(target: Bytes)
      requires Positioned() && Sorted(cmp, l.kvs) && TotalOrder(cmp)
      modifies this
      ensures Positioned() && IsFirstGe(cmp, l.kvs, target, pos)
    {
      hide EntryBytes, TotalOrder, Sorted;
      var lo, hi := 0, numRestarts - 1;
      var current := 0;
      ValidIff();
      if IsValid() {
        current := cmp(key, target);
        if current < 0 {
          lo := restartIndex;
          BelowUpTo(cmp, l.kvs, target, pos);
        } else if current > 0 {
          hi := restartIndex;
        } else {
          AboveFrom(cmp, l.kvs, target, pos);
          BelowBefore(cmp, l.kvs, target, pos);
          return;
        }
      }
      lo := SearchRestarts(target, lo, hi);
      ghost var next: nat;
      if !(lo == restartIndex && current < 0) {
        SeekToRestart(lo);
        StartInRange(l, lo);
        next := l.starts[lo];
      } else {
        assert l.EntryFits(pos + 1);
        next := pos + 1;
      }
      ScanFor(target, next);
    }
  }

  ghost predicate AllBelow(cmp: Cmp, kvs: seq<KV>, target: Bytes, n: nat) {
    n <= |kvs| && forall i :: 0 <= i < n ==> cmp(kvs[i].key, target) < 0
  }

  lemma BelowUpTo(cmp: Cmp, kvs: seq<KV>, target: Bytes, i: nat)
    requires Sorted(cmp, kvs) && TotalOrder(cmp) && i < |kvs| && cmp(kvs[i].key, target) < 0
    ensures AllBelow(cmp, kvs, target, i + 1) && AllBelow(cmp, kvs, target, i)
  {}

  lemma BelowBefore(cmp: Cmp, kvs: seq<KV>, target: Bytes, i: nat)
    requires Sorted(cmp, kvs) && TotalOrder(cmp) && i < |kvs| && cmp(kvs[i].key, target) <= 0
    ensures AllBelow(cmp, kvs, target, i)
  {}

  lemma StaysAbove(cmp: Cmp, a: Bytes, b: Bytes, target: Bytes)
    requires TotalOrder(cmp) && cmp(a, b) < 0 && cmp(a, target) >= 0
    ensures cmp(b, target) >= 0
  {}

  lemma AboveFrom(cmp: Cmp, kvs: seq<KV>, target: Bytes, i: nat)
    requires Sorted(cmp, kvs) && TotalOrder(cmp) && i < |kvs| && cmp(kvs[i].key, target) >= 0
    ensures forall j :: i <= j < |kvs| ==> cmp(kvs[j].key, target) >= 0
  {
    forall j | i <= j < |kvs|
      ensures cmp(kvs[j].key, target) >= 0
    {
      if i < j { StaysAbove(cmp, kvs[i].key, kvs[j].key, target); }
    }
  }
}
