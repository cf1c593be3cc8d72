/** SSTableReader: opens a finished table, looks keys up in it and, with TwoLevelIterator, walks
    through it. No filter policy is set, and checksums are not verified: as ReadBackIff says, the
    checksum that the builder stores does not cover what the reader would check. */
module TableReader {
  import opened Base
  import opened Coding
  import opened Block
  import opened BlockReader
  import opened Comparator
  import opened Format
  import opened Table
  import opened TableBuilder

  ghost predicate Readable(opt: Options, file: Bytes, index: seq<KV>, groups: seq<seq<KV>>) {
    opt.Ok() && !opt.checkCrc && TableOf(opt, file, index, groups)
  }

  ghost predicate Loaded(block: Option<Bytes>, kvs: seq<KV>) {
    block.Some? && |block.value| < W32 && BlockHolds(block.value, kvs)
  }

  lemma BlockAtReads(opt: Options, file: Bytes, h: Handle, kvs: seq<KV>)
    requires opt.Ok() && !opt.checkCrc && BlockAt(opt, file, h, kvs)
    ensures Loaded(ReadBlock(opt, file, h), kvs)
  {
    hide Options.Ok, Written, ReadBlock, BlockHolds;
    var raw :| Written(opt, file, h, raw) && |raw| < W32 && BlockHolds(raw, kvs);
    ReadBackIff(opt, file, h, raw);
  }

  /** SSTableReader::Open: the index block, by way of the footer. A malformed varint in the footer
      is taken as corruption. */
  method OpenTable(opt: Options, file: Bytes) returns (index: Option<Bytes>)
    ensures forall kvs, groups :: Readable(opt, file, kvs, groups) ==> Loaded(index, kvs)
  {
    hide Options.Ok, ReadBlock, DecodeFooter, EncodeFooter, Separated, InternalSorted, Points, BlockAt, Loaded;
    index := None;
    if |file| >= FOOTER_LENGTH {
      var footer := DecodeFooter(file[|file| - FOOTER_LENGTH..]);
      if footer.Parsed? {
        index := ReadBlock(opt, file, footer.value);
      }
    }
    forall kvs, groups | Readable(opt, file, kvs, groups)
      ensures Loaded(index, kvs)
    {
      var h := FooterLeads(opt, file, kvs, groups);
      BlockAtReads(opt, file, h, kvs);
    }
  }

  lemma FooterLeads(opt: Options, file: Bytes, kvs: seq<KV>, groups: seq<seq<KV>>) returns (h: Handle)
    requires TableOf(opt, file, kvs, groups)
    ensures |file| >= FOOTER_LENGTH && DecodeFooter(file[|file| - FOOTER_LENGTH..]).Parsed?
    ensures DecodeFooter(file[|file| - FOOTER_LENGTH..]).value == h && BlockAt(opt, file, h, kvs)
  {
    hide DecodeFooter, EncodeFooter, Written, BlockHolds, Separated, InternalSorted, Points;
    var h', fh :| file[|file| - FOOTER_LENGTH..] == EncodeFooter(h', fh) && fh.offset < W32 && fh.size < W32
                  && BlockAt(opt, file, h', kvs);
    h := h';
    FooterRoundTrip(h, fh);
  }

  /** SSTableReader::ReadBlockHandle: the block behind an index entry. */
  method ReadBlockHandle(opt: Options, file: Bytes, value: Bytes) returns (block: Option<Bytes>)
    ensures forall kvs :: opt.Ok() && !opt.checkCrc && Points(opt, file, value, kvs) ==> Loaded(block, kvs)
  {
    hide Options.Ok, ReadBlock, DecodeHandle, EncodeHandle, BlockAt, Loaded;
    var handle := DecodeHandle(value);
    block := if handle.Parsed? then ReadBlock(opt, file, handle.value) else None;
    forall kvs | opt.Ok() && !opt.checkCrc && Points(opt, file, value, kvs)
      ensures Loaded(block, kvs)
    {
      var h :| value == EncodeHandle(h) && BlockAt(opt, file, h, kvs);
      PointerDecodes(opt, file, h, kvs);
      BlockAtReads(opt, file, h, kvs);
    }
  }

  lemma PointerDecodes(opt: Options, file: Bytes, h: Handle, kvs: seq<KV>)
    requires BlockAt(opt, file, h, kvs)
    ensures DecodeHandle(EncodeHandle(h)) == Parsed(h, [])
  {
    hide DecodeHandle, EncodeHandle;
    HandleRoundTripIff(h, []);
    assert EncodeHandle(h) + [] == EncodeHandle(h);
  }

  /** A fresh iterator over a loaded block. */
  method NewIter(block: Bytes, ghost kvs: seq<KV>) returns (it: Iter)
    requires Loaded(Some(block), kvs)
    ensures fresh(it) && it.Positioned() && it.l.kvs == kvs && it.cmp == InternalCompare && it.pos == |kvs|
  {
    hide BlockOf, InternalCompare;
    ghost var l :| BlockOf(block, l) && l.kvs == kvs;
    it := new Iter(InternalCompare, block, l);
  }

  ghost predicate Delivers(all: seq<KV>, key: Bytes, n: nat, found: Option<KV>) {
    && |key| >= 8 && InternalSorted(all) && IsFirstGe(InternalCompare, all, key, n)
    && match found
       case Some(kv) => n < |all| && all[n] == kv
       case None => n < |all| ==> UserKeyOf(all[n].key) != UserKeyOf(key)
  }

  lemma GroupSorted(groups: seq<seq<KV>>, i: nat)
    requires InternalSorted(Flatten(groups)) && i < |groups|
    ensures Sorted(InternalCompare, groups[i])
  {
    hide InternalCompare, Flatten;
    forall a, b | 0 <= a < b < |groups[i]|
      ensures InternalCompare(groups[i][a].key, groups[i][b].key) < 0
    {
      FlattenAt(groups, i, a);
      FlattenAt(groups, i, b);
    }
  }

  /** An iterator over a loaded block, positioned by Seek. */
  method SeekBlock(block: Bytes, ghost kvs: seq<KV>, key: Bytes) returns (entry: Option<KV>, ghost at: nat)
    requires Loaded(Some(block), kvs) && Sorted(InternalCompare, kvs)
    ensures IsFirstGe(InternalCompare, kvs, key, at) && entry == if at < |kvs| then Some(kvs[at]) else None
  {
    hide InternalCompare, Loaded, Iter.Positioned, TotalOrder;
    InternalTotal();
    var it := NewIter(block, kvs);
    it.Seek(key);
    it.ValidIff();
    at := it.pos;
    entry := None;
    if it.IsValid() {
      var kv := it.Current();
      entry := Some(kv);
    }
  }

  lemma LoadedSome(block: Option<Bytes>, kvs: seq<KV>)
    requires Loaded(block, kvs)
    ensures block.Some? && block == Some(block.value)
  {}

  lemma SeekBounds(kvs: seq<KV>, key: Bytes, at: nat)
    requires IsFirstGe(InternalCompare, kvs, key, at)
    ensures at <= |kvs|
  {}

  class Reader {
    const opt: Options
    const file: Bytes
    const indexBlock: Bytes
    ghost const index: seq<KV>
    ghost const groups: seq<seq<KV>>

    ghost predicate Valid() {
      Readable(opt, file, index, groups) && Loaded(Some(indexBlock), index)
    }

    ghost function All(): (r: seq<KV>) {
      Flatten(groups)
    }

    constructor (opt: Options, file: Bytes, indexBlock: Bytes, ghost index: seq<KV>, ghost groups: seq<seq<KV>>)
      requires Readable(opt, file, index, groups) && Loaded(Some(indexBlock), index)
      ensures Valid() && this.groups == groups && this.opt == opt && this.file == file
    {
      this.opt, this.file, this.indexBlock, this.index, this.groups := opt, file, indexBlock, index, groups;
    }

    /** SSTableReader::InternalGet: one seek in the index, one in the block it points to. It hands
        on the table's first entry at or above the key, unless that is of another user key. */
    method InternalGet(key: Bytes) returns (found: Option<KV>)
      requires Valid() && |key| >= 8
      ensures exists n :: Delivers(All(), key, n, found)
    {
      hide Options.Ok, InternalCompare, Separated, Points, Loaded, Flatten, InternalSorted, IsFirstGe;
      IndexSorted(groups, index);
      ghost var i, at;
      var entry;
      entry, i := SeekBlock(indexBlock, index, key);
      found, at := None, 0;
      SeekBounds(index, key, i);
      if entry.Some? {
        var block := ReadBlockHandle(opt, file, entry.value.value);
        assert Loaded(block, groups[i]);
        GroupSorted(groups, i);
        LoadedSome(block, groups[i]);
        found, at := SeekBlock(block.value, groups[i], key);
      }
      ghost var n := ProbeIsFirstGe(groups, index, key, i, at);
      assert Delivers(All(), key, n, found);
    }
  }

  function Keys(kvs: seq<KV>): (r: seq<Bytes>)
    ensures |r| == |kvs| && forall i :: 0 <= i < |kvs| ==> r[i] == kvs[i].key
  {
    seq(|kvs|, i requires 0 <= i < |kvs| => kvs[i].key)
  }

  /** SaveResult: what the lookup hands on counts only if it has the user key asked for. */
  function Saved(found: Option<KV>, user: Bytes): (r: Option<Bytes>)
    requires found.Some? ==> |found.value.key| >= 8
  {
    if found.Some? && UserKeyOf(found.value.key) == user then Some(found.value.key) else None
  }

  /** So the lookup of (user, sn) finds the newest version of `user` at or below sn in the whole
      table: probing a single block is enough. */
  lemma LookupFindsNewest(all: seq<KV>, user: Bytes, sn: nat, n: nat, found: Option<KV>)
    requires sn <= MAX_SEQUENCE && Delivers(all, InternalKey(user, Pack(sn, TYPE_LOOKUP)), n, found)
    ensures found.Some? ==> |found.value.key| >= 8
    ensures NewestAtMost(Keys(all), user, Pack(sn, TYPE_LOOKUP), Saved(found, user))
  {
    hide InternalCompare, TagOf, UserKeyOf, InternalKey, NewestAtMost, Pack, IsFirstGe;
    PackParts(sn, TYPE_LOOKUP);
    FirstGeIsNewest(all, Keys(all), user, Pack(sn, TYPE_LOOKUP), n);
  }
}
