/** SSTableBuilder: cuts the entries it is given into blocks and indexes them. */
module TableBuilder {
  import opened Base
  import opened Coding
  import opened B = Block
  import opened Comparator
  import opened Format
  import opened Table

  ghost predicate BlockHolds(raw: Bytes, kvs: seq<KV>) {
    exists l :: B.BlockOf(raw, l) && l.kvs == kvs
  }

  /** A block for kvs stands at h. */
  ghost predicate BlockAt(opt: Options, file: Bytes, h: Handle, kvs: seq<KV>) {
    h.offset < W32 && h.size < W32 && exists raw :: Written(opt, file, h, raw) && |raw| < W32 && BlockHolds(raw, kvs)
  }

  ghost predicate Points(opt: Options, file: Bytes, value: Bytes, kvs: seq<KV>) {
    exists h :: value == EncodeHandle(h) && BlockAt(opt, file, h, kvs)
  }

  /** A finished table: a footer that leads to an index block, whose entries lead to one block
      for each group and separate the groups. */
  ghost predicate TableOf(opt: Options, file: Bytes, index: seq<KV>, groups: seq<seq<KV>>) {
    && FOOTER_LENGTH <= |file| < W32
    && (exists h, fh :: file[|file| - FOOTER_LENGTH..] == EncodeFooter(h, fh) && fh.offset < W32 && fh.size < W32
                        && BlockAt(opt, file, h, index))
    && |index| == |groups| && Separated(groups, index) && InternalSorted(Flatten(groups))
    && (forall i :: 0 <= i < |groups| ==> Points(opt, file, index[i].value, groups[i]))
  }

  /** The group list with the open block at its end. */
  ghost function WithOpen(groups: seq<seq<KV>>, open: seq<KV>): (r: seq<seq<KV>>) {
    if open == [] then groups else groups + [open]
  }

  /** Each group so far stands in the file as a block. */
  ghost predicate Stored(opt: Options, file: Bytes, handles: seq<Handle>, raws: seq<Bytes>, groups: seq<seq<KV>>) {
    && |handles| == |raws| == |groups|
    && forall i :: 0 <= i < |groups| ==> Written(opt, file, handles[i], raws[i]) && BlockHolds(raws[i], groups[i])
  }

  /** The index holds the handle of every block, but for a pending last one. */
  ghost predicate Indexed(index: seq<KV>, handles: seq<Handle>, pending: bool, handle: Handle) {
    && |handles| == |index| + (if pending then 1 else 0)
    && (forall i :: 0 <= i < |index| ==> index[i].value == EncodeHandle(handles[i]))
    && (pending ==> handle == handles[|index|])
  }

  lemma StoredMore(opt: Options, file: Bytes, file': Bytes, handles: seq<Handle>, raws: seq<Bytes>,
      groups: seq<seq<KV>>, h: Handle, raw: Bytes, kvs: seq<KV>)
    requires Stored(opt, file, handles, raws, groups) && file <= file'
    requires Written(opt, file', h, raw) && BlockHolds(raw, kvs)
    ensures Stored(opt, file', handles, raws, groups)
    ensures Stored(opt, file', handles + [h], raws + [raw], groups + [kvs])
  {
    hide Written, BlockHolds;
    assert file' == file + file'[|file|..];
    forall i | 0 <= i < |groups|
      ensures Written(opt, file', handles[i], raws[i])
    {
      StaysWritten(opt, file, file'[|file|..], handles[i], raws[i]);
    }
  }

  class Builder {
    const opt: Options
    const blockSize: nat
    const data: B.Builder
    const index: B.Builder
    var closed: bool
    var file: Bytes
    var offset: nat
    var lastKey: Bytes
    var numEntries: nat
    var dataBlockOver: bool
    var handle: Handle
    ghost var groups: seq<seq<KV>>
    ghost var handles: seq<Handle>
    ghost var raws: seq<Bytes>

    /** Everything added so far. */
    ghost function Entries(): (r: seq<KV>)
      reads this, data
    {
      Flatten(WithOpen(groups, data.layout.kvs))
    }

    ghost predicate Valid()
      reads this, data, index
    {
      && data != index && data.interval >= 1 && data.Valid() && index.Valid() && !data.finished && !index.finished
      && offset == |file|
      && Stored(opt, file, handles, raws, groups)
      && Indexed(index.layout.kvs, handles, dataBlockOver, handle) && |handles| == |groups|
      && Separated(WithOpen(groups, data.layout.kvs), index.layout.kvs)
      && (dataBlockOver ==> data.layout.kvs == []) && (!dataBlockOver && groups != [] ==> data.layout.kvs != [])
      && InternalSorted(Entries()) && numEntries == |Entries()|
      && (Entries() != [] ==> lastKey == LastKey(Entries()))
    }

    /** A new builder; the index block gets a restart point at every entry. */
    constructor (opt: Options, blockSize: nat, interval: nat)
      requires interval >= 1
      ensures Valid() && !closed && Entries() == [] && this.opt == opt && fresh(data) && fresh(index)
      ensures this.blockSize == blockSize && data.interval == interval && index.interval == 1
    {
      hide B.EntryBytes, Separator, InternalCompare;
      this.opt, this.blockSize := opt, blockSize;
      data := new B.Builder(interval);
      index := new B.Builder(1);
      closed, file, offset, lastKey, numEntries, dataBlockOver := false, [], 0, [], 0, false;
      handle := Handle(0, 0);
      groups, handles, raws := [], [], [];
    }

    /** WriteBlock with WriteRawBlock. */
    method WriteBlock(b: B.Builder) returns (h: Handle, ghost raw: Bytes)
      requires b.Valid() && !b.finished && offset == |file|
      modifies this`file, this`offset, b
      ensures b.Valid() && !b.finished && b.layout.kvs == [] && offset == |file|
      ensures old(file) <= file && Written(opt, file, h, raw) && BlockHolds(raw, old(b.layout.kvs))
      ensures |raw| == old(|b.buffer| + |b.restarts| * 4 + 4)
    {
      hide Tail, B.BlockOf, Varint, B.EntryBytes;
      var block := b.Finish();
      raw := block;
      var (contents, kind) := Packed(opt, block);
      h := Handle(offset, |contents|);
      ghost var before := file;
      file := file + contents;
      file := file + Tail(opt, contents, kind);
      offset := offset + |contents| + TAIL_SIZE;
      assert file[h.offset..h.offset + h.size + TAIL_SIZE] == contents + Tail(opt, contents, kind);
      assert file[..|before|] == before;
      b.Reset();
    }

    /** SSTableBuilder::Flush. */
    method Flush()
      requires Valid() && !closed
      modifies this, data
      ensures Valid() && !closed && Entries() == old(Entries()) && data.layout.kvs == []
          && index.layout == old(index.layout)
      ensures dataBlockOver <==> Entries() != []
      ensures groups == WithOpen(old(groups), old(data.layout.kvs))
      ensures old(data.layout.kvs) != [] ==> raws != [] && |raws[|raws| - 1]| == old(ByteSize())
    {
      hide B.Builder.Valid, Stored, InternalSorted, Separated, Flatten, EncodeHandle, Written, BlockHolds;
      NoBytesNoEntries(data);
      NothingFlushed(WithOpen(groups, data.layout.kvs));
      if data.buffer == [] {
        return;
      }
      ghost var before, open, over := file, data.layout.kvs, dataBlockOver;
      ghost var raw: Bytes;
      handle, raw := WriteBlock(data);
      StoredMore(opt, before, file, handles, raws, groups, handle, raw, open);
      IndexedMore(index.layout.kvs, handles, old(handle), handle);
      dataBlockOver := true;
      groups, handles, raws := groups + [open], handles + [handle], raws + [raw];
    }

    /** SSTableBuilder::Add. The open block is written exactly when it has reached the block size. */
    method Add(key: Bytes, value: Bytes)
      requires Valid() && !closed && |key| >= 8
      requires numEntries != 0 ==> InternalCompare(lastKey, key) < 0
      modifies this, data, index
      ensures Valid() && !closed && Entries() == old(Entries()) + [KV(key, value)]
      ensures if data.layout.kvs != [] then
                ByteSize() < blockSize && groups == old(groups)
                && data.layout.kvs == old(data.layout.kvs) + [KV(key, value)]
              else
                groups == old(groups) + [old(data.layout.kvs) + [KV(key, value)]]
                && raws != [] && |raws[|raws| - 1]| >= blockSize
    {
      hide B.Builder.Valid, Stored, InternalSorted, Separated, Flatten, InternalCompare, Separator, EncodeHandle;
      ghost var all := Entries();
      if dataBlockOver {
        OpenEntries(groups, index.layout.kvs);
        assert data.layout.kvs + [KV(key, value)] == [KV(key, value)];
        lastKey := FindShortestInternalMiddle(lastKey, key);
        SeparatedOpen(groups, index.layout.kvs, KV(lastKey, EncodeHandle(handle)), KV(key, value));
        IndexedNext(index.layout.kvs, handles, handle, lastKey);
        index.Add(lastKey, EncodeHandle(handle));
        dataBlockOver := false;
      } else {
        SeparatedGrow(groups, data.layout.kvs, index.layout.kvs, KV(key, value));
      }
      EntriesGrow(groups, data.layout.kvs, KV(key, value));
      SortedGrow(all, KV(key, value));
      data.Add(key, value);
      lastKey := key;
      numEntries := numEntries + 1;
      if ByteSize() >= blockSize {
        Flush();
      }
    }

    function ByteSize(): (n: nat)
      reads data
    {
      |data.buffer| + |data.restarts| * 4 + 4
    }

    ghost predicate Small()
      reads this
    {
      |file| < W32 && forall r :: r in raws ==> |r| < W32
    }

    /** The index is complete: it separates and leads to every block. */
    ghost predicate Complete()
      reads this, index
    {
      && index.Valid() && !index.finished && offset == |file| && Stored(opt, file, handles, raws, groups)
      && Indexed(index.layout.kvs, handles, false, handle)
      && Separated(groups, index.layout.kvs) && InternalSorted(Flatten(groups))
    }

    /** The filter index block, which is empty without a filter policy. */
    method WriteFilterIndex()
      requires Valid()
      modifies this`file, this`offset
      ensures Valid() && groups == old(groups) && handles == old(handles) && raws == old(raws)
    {
      hide B.Builder.Valid, Stored, Indexed, InternalSorted, Separated, Flatten;
      ghost var before := file;
      var filterIndex := new B.Builder(data.interval);
      var h, raw := WriteBlock(filterIndex);
      StoredMore(opt, before, file, handles, raws, groups, h, raw, []);
    }

    /** The index entry of the last block. */
    method AddLastIndex()
      requires Valid() && data.layout.kvs == []
      modifies this`lastKey, this`dataBlockOver, index
      ensures Complete()
    {
      hide B.Builder.Valid, Stored, InternalSorted, Separated, Flatten, InternalCompare, Separator, EncodeHandle;
      if dataBlockOver {
        OpenEntries(groups, index.layout.kvs);
        lastKey := FindShortestInternalBigger(lastKey);
        SeparatedClose(groups, index.layout.kvs, KV(lastKey, EncodeHandle(handle)));
        IndexedNext(index.layout.kvs, handles, handle, lastKey);
        index.Add(lastKey, EncodeHandle(handle));
        dataBlockOver := false;
      }
    }

    /** SSTableBuilder::Finish, without a filter policy: the filter index block is empty and the
        footer's filter handle is the default one. */
    method Finish() returns (ghost kvs: seq<KV>)
      requires Valid() && !closed
      modifies this, data, index
      ensures closed && offset == |file| && Flatten(groups) == old(Entries())
          && (Small() ==> TableOf(opt, file, kvs, groups))
    {
      hide B.Builder.Valid, Stored, Indexed, InternalSorted, Separated, Flatten, TableOf, EncodeFooter, Written,
          BlockHolds;
      Flush();
      closed := true;
      WriteFilterIndex();
      AddLastIndex();
      kvs := index.layout.kvs;
      ghost var before, raw := file, [];
      var indexHandle;
      indexHandle, raw := WriteBlock(index);
      StoredMore(opt, before, file, handles, raws, groups, indexHandle, raw, kvs);
      var footer := EncodeFooter(indexHandle, Handle(0, 0));
      before := file;
      ghost var blocks := raws;
      file := file + footer;
      offset := offset + |footer|;
      raws := raws + [raw];
      if Small() {
        assert raw in raws && forall r :: r in blocks ==> r in raws;
        FinishTable(opt, before, indexHandle, raw, kvs, handles, blocks, groups, handle);
      }
    }
  }

  lemma FinishTable(opt: Options, file: Bytes, h: Handle, raw: Bytes, kvs: seq<KV>,
                    handles: seq<Handle>, raws: seq<Bytes>, groups: seq<seq<KV>>, last: Handle)
    requires Stored(opt, file, handles, raws, groups) && Indexed(kvs, handles, false, last)
    requires Separated(groups, kvs) && InternalSorted(Flatten(groups))
    requires Written(opt, file, h, raw) && BlockHolds(raw, kvs) && |raw| < W32
    requires |file| + FOOTER_LENGTH < W32 && forall r :: r in raws ==> |r| < W32
    ensures TableOf(opt, file + EncodeFooter(h, Handle(0, 0)), kvs, groups)
  {
    hide Written, BlockHolds, Separated, InternalSorted, Flatten, EncodeHandle, EncodeFooter;
    var footer := EncodeFooter(h, Handle(0, 0));
    var whole := file + footer;
    assert whole[|whole| - FOOTER_LENGTH..] == footer;
    BlockStays(opt, file, footer, h, raw, kvs);
    forall i | 0 <= i < |groups|
      ensures Points(opt, whole, kvs[i].value, groups[i])
    {
      assert raws[i] in raws;
      BlockStays(opt, file, footer, handles[i], raws[i], groups[i]);
    }
  }

  lemma BlockStays(opt: Options, file: Bytes, more: Bytes, h: Handle, raw: Bytes, kvs: seq<KV>)
    requires Written(opt, file, h, raw) && BlockHolds(raw, kvs) && |raw| < W32 && |file| < W32
    ensures BlockAt(opt, file + more, h, kvs)
  {
    StaysWritten(opt, file, more, h, raw);
    WrittenWithin(opt, file, h, raw);
    hide Written, BlockHolds;
  }

  lemma WrittenWithin(opt: Options, file: Bytes, h: Handle, raw: Bytes)
    requires Written(opt, file, h, raw)
    ensures h.offset + h.size <= |file|
  {}

  lemma NoBytesNoEntries(b: B.Builder)
    requires b.Valid()
    ensures b.buffer == [] <==> b.layout.kvs == []
  {
    hide B.EntryBytes;
    if b.layout.kvs != [] {
      assert b.layout.EntryFits(0) && b.layout.EntryAt(b.buffer, 0);
    }
  }

  lemma IndexedMore(index: seq<KV>, handles: seq<Handle>, h: Handle, handle: Handle)
    requires Indexed(index, handles, false, h)
    ensures Indexed(index, handles + [handle], true, handle)
  {}

  lemma IndexedNext(index: seq<KV>, handles: seq<Handle>, handle: Handle, key: Bytes)
    requires Indexed(index, handles, true, handle)
    ensures Indexed(index + [KV(key, EncodeHandle(handle))], handles, false, handle)
    ensures |handles| == |index| + 1
  {}

  lemma NothingFlushed(groups: seq<seq<KV>>)
    requires exists index :: Separated(groups, index)
    ensures Flatten(groups) == [] <==> groups == []
  {}

  lemma OpenEntries(groups: seq<seq<KV>>, index: seq<KV>)
    requires Separated(groups, index) && groups != [] && InternalSorted(Flatten(groups))
    ensures groups[|groups| - 1] != [] && Flatten(groups) != []
    ensures LastKey(Flatten(groups)) == LastKey(groups[|groups| - 1]) && |LastKey(Flatten(groups))| >= 8
  {
    hide SeparatesAt, InternalCompare, B.Sorted;
    var front, last := groups[..|groups| - 1], groups[|groups| - 1];
    assert groups == front + [last];
    FlattenSnoc(front, last);
    hide Flatten;
  }

  lemma EntriesGrow(groups: seq<seq<KV>>, open: seq<KV>, kv: KV)
    ensures Flatten(WithOpen(groups, open + [kv])) == Flatten(WithOpen(groups, open)) + [kv]
  {
    FlattenSnoc(groups, open + [kv]);
    FlattenSnoc(groups, open);
    assert open == [] ==> open + [kv] == [kv];
  }

  lemma SortedGrow(all: seq<KV>, kv: KV)
    requires InternalSorted(all) && |kv.key| >= 8 && (all != [] ==> InternalCompare(LastKey(all), kv.key) < 0)
    ensures InternalSorted(all + [kv])
  {
    InternalTotal();
    hide InternalCompare;
    forall i | 0 <= i < |all|
      ensures InternalCompare(all[i].key, kv.key) < 0
    {
      assert i < |all| - 1 ==> InternalCompare(all[i].key, LastKey(all)) < 0;
    }
  }

  lemma SeparatedOpen(groups: seq<seq<KV>>, index: seq<KV>, sep: KV, kv: KV)
    requires Separated(groups, index) && |index| + 1 == |groups|
    requires Separator(LastKey(groups[|index|]), sep.key, kv.key)
    ensures Separated(groups + [[kv]], index + [sep])
  {
    hide Separator, InternalCompare;
    var gs, ix := groups + [[kv]], index + [sep];
    forall i: nat
      ensures SeparatesAt(gs, ix, i)
    {
      assert SeparatesAt(groups, index, i);
      if i == |index| { SeparatorBounds(LastKey(groups[i]), sep.key, kv.key); }
    }
  }

  lemma SeparatorBounds(last: Bytes, sep: Bytes, next: Bytes)
    requires Separator(last, sep, next)
    ensures |sep| >= 8 && InternalCompare(last, sep) <= 0
  {}

  lemma SeparatedGrow(groups: seq<seq<KV>>, open: seq<KV>, index: seq<KV>, kv: KV)
    requires Separated(WithOpen(groups, open), index) && |index| == |groups| && (open == [] ==> groups == [])
    ensures Separated(WithOpen(groups, open + [kv]), index)
  {
    hide Separator, InternalCompare;
    var gs, gs' := WithOpen(groups, open), WithOpen(groups, open + [kv]);
    assert open + [kv] != [] && gs' == groups + [open + [kv]];
    forall i | 0 <= i < |gs'|
      ensures gs'[i] != []
    {
      assert i < |groups| ==> gs'[i] == gs[i];
    }
    forall i: nat
      ensures SeparatesAt(gs', index, i)
    {
      assert SeparatesAt(gs, index, i);
      assert i < |groups| ==> gs'[i] == groups[i] == gs[i];
      assert i + 1 < |groups| ==> gs'[i + 1] == groups[i + 1] == gs[i + 1];
      assert i + 1 == |groups| ==> gs[i + 1] == open && FirstKey(open + [kv]) == FirstKey(open);
    }
  }

  lemma SeparatedClose(groups: seq<seq<KV>>, index: seq<KV>, sep: KV)
    requires Separated(groups, index) && |index| + 1 == |groups|
    requires |sep.key| >= 8 && InternalCompare(LastKey(groups[|index|]), sep.key) <= 0
    ensures Separated(groups, index + [sep])
  {
    hide Separator, InternalCompare;
    forall i: nat
      ensures SeparatesAt(groups, index + [sep], i)
    {
      assert SeparatesAt(groups, index, i);
    }
  }
}
