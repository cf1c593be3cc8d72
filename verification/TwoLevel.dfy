/** util/iterator: the two-level iterator, which walks through the blocks of a table by way of its
    index block. */
module TwoLevel {
  import opened Base
  import opened Coding
  import opened Block
  import opened BlockReader
  import opened Comparator
  import opened Format
  import opened Table
  import opened TableBuilder
  import opened TableReader

  /** Index entries with the same handle lead to the same block. */
  lemma SamePointer(opt: Options, file: Bytes, value: Bytes, kvs: seq<KV>, kvs': seq<KV>)
    requires opt.Ok() && !opt.checkCrc && Points(opt, file, value, kvs) && Points(opt, file, value, kvs')
    ensures kvs == kvs'
  {
    hide Options.Ok, ReadBlock, DecodeHandle, EncodeHandle, BlockAt;
    var h :| value == EncodeHandle(h) && BlockAt(opt, file, h, kvs);
    var h' :| value == EncodeHandle(h') && BlockAt(opt, file, h', kvs');
    PointerDecodes(opt, file, h, kvs);
    PointerDecodes(opt, file, h', kvs');
    BlockAtReads(opt, file, h, kvs);
    BlockAtReads(opt, file, h', kvs');
    SameLoaded(ReadBlock(opt, file, h), kvs, kvs');
  }

  lemma SameLoaded(block: Option<Bytes>, kvs: seq<KV>, kvs': seq<KV>)
    requires Loaded(block, kvs) && Loaded(block, kvs')
    ensures kvs == kvs'
  {
    hide BlockOf;
    var l :| BlockOf(block.value, l) && l.kvs == kvs;
    var l' :| BlockOf(block.value, l') && l'.kvs == kvs';
    BlockDetermines(block.value, l, l');
  }

  /** The blocks an index leads to. They may be empty. */
  ghost predicate Wired(opt: Options, file: Bytes, index: seq<KV>, groups: seq<seq<KV>>) {
    && opt.Ok() && !opt.checkCrc && |index| == |groups|
    && forall i :: 0 <= i < |groups| ==> Points(opt, file, index[i].value, groups[i])
  }

  class TwoLevelIterator {
    const opt: Options
    const file: Bytes
    const indexIter: Iter
    var dataIter: Iter?
    var dataHandle: Bytes
    ghost const index: seq<KV>
    ghost const groups: seq<seq<KV>>

    ghost predicate Ready()
      reads this, indexIter
    {
      Wired(opt, file, index, groups) && indexIter.Positioned() && indexIter.l.kvs == index
          && indexIter.cmp == InternalCompare
    }

    /** The data iterator stands in the i-th block. */
    ghost predicate In(i: nat)
      reads this, dataIter
    {
      && i < |index| == |groups| && dataIter != null && dataIter != indexIter && dataIter.Positioned()
      && dataIter.cmp == InternalCompare && dataIter.l.kvs == groups[i] && dataHandle == index[i].value
    }

    /** The data iterator, if there is one, stands in some block: perhaps not the current one. */
    ghost predicate Loose()
      reads this, indexIter, dataIter
    {
      Ready() && (dataIter != null ==> exists i: nat :: In(i))
    }

    ghost predicate Valid()
      reads this, indexIter, dataIter
    {
      && Ready() && indexIter.pos <= |groups|
      && (if indexIter.pos == |groups| then dataIter == null else In(indexIter.pos))
    }

    ghost function All(): (r: seq<KV>) {
      Flatten(groups)
    }

    ghost predicate IsEntry(n: nat, kv: KV) {
      n < |All()| && All()[n] == kv
    }

    /** Where the data iterator stands in the whole table, or would stand. */
    ghost function Pos(): (n: nat)
      requires Valid()
      reads this, indexIter, dataIter
    {
      if indexIter.pos == |groups| then |All()| else Start(groups, indexIter.pos) + dataIter.pos
    }

    ghost predicate AtEntry()
      requires Valid()
      reads this, indexIter, dataIter
    {
      dataIter != null && dataIter.pos < |dataIter.l.kvs|
    }

    /** The iterator shows entry n of the whole table, or nothing if n is its end. */
    ghost predicate Shows(n: nat)
      reads this, indexIter, dataIter
    {
      Valid() && Pos() == n && (if n < |All()| then AtEntry() else dataIter == null)
    }

    constructor (opt: Options, file: Bytes, indexBlock: Bytes, ghost index: seq<KV>, ghost groups: seq<seq<KV>>)
      requires Wired(opt, file, index, groups) && Loaded(Some(indexBlock), index)
      ensures Shows(|All()|) && this.index == index && this.groups == groups && fresh(indexIter)
    {
      hide Wired, Loaded, Iter.Positioned, InternalCompare;
      this.opt, this.file, this.index, this.groups := opt, file, index, groups;
      var it := NewIter(indexBlock, index);
      indexIter := it;
      dataIter, dataHandle := null, [];
      new;
      WiredLength(opt, file, index, groups);
    }

    /** UpdateDataBlock: reload the block only if the handle has changed. */
    method UpdateDataBlock()
      requires Loose()
      modifies this`dataIter, this`dataHandle
      ensures Valid() && (dataIter == old(dataIter) || dataIter == null || fresh(dataIter))
      ensures dataIter == null <==> indexIter.pos >= |index|
      ensures indexIter.pos < |index| ==> dataHandle == index[indexIter.pos].value
      ensures indexIter.pos < |index| ==>
        (dataIter == old(dataIter) <==> old(dataIter) != null && old(dataHandle) == index[indexIter.pos].value)
    {
      hide Wired, Points, Loaded, Iter.Positioned, InternalCompare;
      WiredLength(opt, file, index, groups);
      ghost var j: nat :| dataIter != null ==> In(j);
      indexIter.InBlock();
      indexIter.ValidIff();
      if !indexIter.IsValid() {
        dataIter := null;
      } else {
        var entry := indexIter.Current();
        ghost var i := indexIter.pos;
        WiredAt(opt, file, index, groups, i);
        if dataIter != null && entry.value == dataHandle {
          assert In(j);
          WiredAt(opt, file, index, groups, j);
          SamePointer(opt, file, dataHandle, groups[i], groups[j]);
          return;
        }
        var block := ReadBlockHandle(opt, file, entry.value);
        LoadedSome(block, groups[i]);
        dataHandle := entry.value;
        dataIter := NewIter(block.value, groups[i]);
      }
    }

    /** SkipEmptyDataBlock(true): go on to the next block that is not empty. */
    method SkipForward(ghost n: nat)
      requires Valid() && Pos() == n
      modifies this`dataIter, this`dataHandle, indexIter, dataIter
      ensures Shows(n) && (dataIter == old(dataIter) || dataIter == null || fresh(dataIter))
    {
      hide Wired, Iter.Positioned, Iter.Good, InternalCompare, Flatten, Start;
      WiredLength(opt, file, index, groups);
      StartEnds(groups);
      while dataIter == null || !dataIter.IsValid()
        invariant Valid() && Pos() == n
        invariant dataIter == old(dataIter) || dataIter == null || fresh(dataIter)
        decreases |groups| - indexIter.pos
      {
        indexIter.ValidIff();
        if !indexIter.IsValid() {
          dataIter := null;
          return;
        }
        dataIter.InBlock();
        dataIter.ValidIff();
        StartStep(groups, indexIter.pos);
        ghost var b := indexIter.pos;
        indexIter.Next();
        assert In(b);
        UpdateDataBlock();
        if dataIter != null {
          dataIter.InBlock();
          dataIter.SeekToFirst();
        }
      }
      dataIter.ValidIff();
      FlattenAt(groups, indexIter.pos, dataIter.pos);
    }

    /** One turn of that loop: to the end of the block before, if there is one. */
    method StepBack()
      requires Valid() && indexIter.pos < |groups|
      modifies this`dataIter, this`dataHandle, indexIter, dataIter
      ensures Valid() && (dataIter == old(dataIter) || dataIter == null || fresh(dataIter))
      ensures indexIter.pos == if old(indexIter.pos) == 0 then |groups| else old(indexIter.pos) - 1
      ensures dataIter != null ==>
        if groups[indexIter.pos] == [] then !AtEntry() else dataIter.pos + 1 == |groups[indexIter.pos]|
    {
      hide Wired, Iter.Positioned, Iter.Good, InternalCompare;
      WiredLength(opt, file, index, groups);
      ghost var b := indexIter.pos;
      indexIter.Prev();
      assert In(b);
      UpdateDataBlock();
      if dataIter != null {
        dataIter.InBlock();
        dataIter.SeekToLast();
      }
    }

    /** SkipEmptyDataBlock(false): go back to the last entry before position n, if the current
        block has none. */
    method SkipBackward(ghost n: nat)
      requires Valid() && n <= |All()|
      requires if AtEntry() then Pos() + 1 == n else
                 if indexIter.pos < |groups| then Start(groups, indexIter.pos) == n else n == 0
      modifies this`dataIter, this`dataHandle, indexIter, dataIter
      ensures Shows(if n == 0 then |All()| else n - 1)
      ensures dataIter == old(dataIter) || dataIter == null || fresh(dataIter)
    {
      hide Wired, Iter.Positioned, Iter.Good, InternalCompare, Flatten, Start;
      WiredLength(opt, file, index, groups);
      StartEnds(groups);
      while dataIter == null || !dataIter.IsValid()
        invariant Valid() && (dataIter == old(dataIter) || dataIter == null || fresh(dataIter))
        invariant if AtEntry() then Pos() + 1 == n else
                    if indexIter.pos < |groups| then Start(groups, indexIter.pos) == n else n == 0
        decreases if indexIter.pos < |groups| then indexIter.pos + 1 else 0
      {
        indexIter.ValidIff();
        if !indexIter.IsValid() {
          dataIter := null;
          return;
        }
        dataIter.ValidIff();
        if indexIter.pos > 0 { StartStep(groups, indexIter.pos - 1); }
        StepBack();
      }
      dataIter.ValidIff();
      FlattenAt(groups, indexIter.pos, dataIter.pos);
    }

    method Next()
      requires Valid() && AtEntry()
      modifies this`dataIter, this`dataHandle, indexIter, dataIter
      ensures Shows(old(Pos()) + 1)
      ensures dataIter == old(dataIter) || dataIter == null || fresh(dataIter)
    {
      hide Wired, Iter.Positioned, Iter.Good, InternalCompare, Flatten, Start;
      dataIter.Next();
      SkipForward(Pos());
    }

    /** Prev undoes Next; before the first entry the iterator becomes invalid. */
    method Prev()
      requires Valid() && AtEntry()
      modifies this`dataIter, this`dataHandle, indexIter, dataIter
      ensures Shows(if old(Pos()) == 0 then |All()| else old(Pos()) - 1)
      ensures dataIter == old(dataIter) || dataIter == null || fresh(dataIter)
    {
      hide Wired, Iter.Positioned, Iter.Good, InternalCompare, Flatten, Start;
      FlattenAt(groups, indexIter.pos, dataIter.pos);
      ghost var n := Pos();
      dataIter.Prev();
      SkipBackward(n);
    }

    method SeekToFirst()
      requires Loose()
      modifies this`dataIter, this`dataHandle, indexIter, dataIter
      ensures Shows(0)
      ensures dataIter == old(dataIter) || dataIter == null || fresh(dataIter)
    {
      hide Wired, Iter.Positioned, Iter.Good, InternalCompare, Flatten, Start;
      ghost var j: nat :| dataIter != null ==> In(j);
      StartEnds(groups);
      indexIter.InBlock();
      indexIter.SeekToFirst();
      assert dataIter != null ==> In(j);
      UpdateDataBlock();
      if dataIter != null {
        dataIter.InBlock();
        dataIter.SeekToFirst();
      }
      SkipForward(0);
    }

    method SeekToLast()
      requires Loose()
      modifies this`dataIter, this`dataHandle, indexIter, dataIter
      ensures Shows(if All() == [] then 0 else |All()| - 1)
      ensures dataIter == old(dataIter) || dataIter == null || fresh(dataIter)
    {
      hide Wired, Iter.Positioned, Iter.Good, InternalCompare, Flatten, Start;
      WiredLength(opt, file, index, groups);
      ghost var j: nat :| dataIter != null ==> In(j);
      StartEnds(groups);
      if groups != [] { StartStep(groups, |groups| - 1); }
      indexIter.InBlock();
      indexIter.SeekToLast();
      assert dataIter != null ==> In(j);
      UpdateDataBlock();
      if dataIter != null {
        dataIter.InBlock();
        dataIter.SeekToLast();
      }
      SkipBackward(|All()|);
    }

    /** Seek lands on the first entry at or above the key in the whole table, also when the block
        that the index names ends below it. */
    method Seek(key: Bytes)
      requires Loose() && |key| >= 8 && Separated(groups, index) && InternalSorted(All())
      modifies this`dataIter, this`dataHandle, indexIter, dataIter
      ensures exists n :: Shows(n) && IsFirstGe(InternalCompare, All(), key, n)
      ensures dataIter == old(dataIter) || dataIter == null || fresh(dataIter)
    {
      hide Wired, Iter.Positioned, Iter.Good, InternalCompare, Flatten, Start, Separated, InternalSorted, IsFirstGe,
          TotalOrder;
      WiredLength(opt, file, index, groups);
      ghost var j: nat :| dataIter != null ==> In(j);
      InternalTotal();
      IndexSorted(groups, index);
      indexIter.Seek(key);
      assert dataIter != null ==> In(j);
      SeekBounds(index, key, indexIter.pos);
      UpdateDataBlock();
      ghost var at := 0;
      if dataIter != null {
        GroupSorted(groups, indexIter.pos);
        dataIter.Seek(key);
        at := dataIter.pos;
      }
      ghost var n := ProbeIsFirstGe(groups, index, key, indexIter.pos, at);
      SkipForward(n);
    }

    /** Key and Value of the entry shown. */
    method Current() returns (kv: KV)
      requires Valid() && AtEntry()
      ensures IsEntry(Pos(), kv)
    {
      hide Wired, Iter.Positioned, Iter.Good, InternalCompare, Flatten, Start;
      kv := dataIter.Current();
      FlattenAt(groups, indexIter.pos, dataIter.pos);
    }
  }

  lemma WiredLength(opt: Options, file: Bytes, index: seq<KV>, groups: seq<seq<KV>>)
    requires Wired(opt, file, index, groups)
    ensures |index| == |groups|
  {}

  lemma WiredAt(opt: Options, file: Bytes, index: seq<KV>, groups: seq<seq<KV>>, i: nat)
    requires Wired(opt, file, index, groups) && i < |groups|
    ensures opt.Ok() && !opt.checkCrc && |index| == |groups| && Points(opt, file, index[i].value, groups[i])
  {}
}
