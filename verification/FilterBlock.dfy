/** db/filter/filter_block: one filter for every 2 KiB of data blocks, found by block offset. */
module FilterBlock {
  import opened Base
  import opened Coding
  import Block
  import opened Bloom

  const FILTER_LG: nat := 11
  const FILTER_SIZE: nat := 2048

  /** Where the i-th filter ends: at the next one, or at the end of all filters. */
  function EndOf(offs: seq<nat>, size: nat, i: nat): (n: nat)
    requires i < |offs|
  {
    if i + 1 < |offs| then offs[i + 1] else size
  }

  /** The i-th filter stands between its offset and the next: nothing for no keys, else a filter for
      its keys. */
  ghost predicate FilterAt(p: Policy, result: Bytes, offs: seq<nat>, filters: seq<seq<Bytes>>, i: nat) {
    i < |offs| == |filters| ==>
      && offs[i] <= EndOf(offs, |result|, i) <= |result|
      && (filters[i] == [] ==> offs[i] == EndOf(offs, |result|, i))
      && (filters[i] != [] ==> FilterFor(p, result[offs[i]..EndOf(offs, |result|, i)], filters[i]))
  }

  ghost predicate Filters(p: Policy, result: Bytes, offs: seq<nat>, filters: seq<seq<Bytes>>) {
    |offs| == |filters| && forall i: nat :: FilterAt(p, result, offs, filters, i)
  }

  /** A finished filter block: the filters, their offsets, where the offsets begin, and the block
      size as a power of two. */
  ghost predicate FilterBlockOf(p: Policy, block: Bytes, filters: seq<seq<Bytes>>) {
    exists result: Bytes, offs: seq<nat> :: LaidOut(p, block, filters, result, offs)
  }

  ghost predicate LaidOut(p: Policy, block: Bytes, filters: seq<seq<Bytes>>, result: Bytes, offs: seq<nat>) {
    Filters(p, result, offs, filters) && block == result + (Block.Restarts(offs + [|result|]) + [FILTER_LG])
  }

  /** What the block says of a key at an offset: no for a filter without keys, yes past the last
      filter, and otherwise what the offset's filter says. */
  ghost predicate Says(p: Policy, filters: seq<seq<Bytes>>, result: Bytes, offs: seq<nat>, offset: nat, key: Bytes)
  {
    var i := offset / FILTER_SIZE;
    i < |filters| == |offs| ==>
      && filters[i] != [] && offs[i] <= EndOf(offs, |result|, i) <= |result|
      && MayMatch(p, key, result[offs[i]..EndOf(offs, |result|, i)])
  }

  lemma FiltersAppend(p: Policy, result: Bytes, offs: seq<nat>, filters: seq<seq<Bytes>>, filter: Bytes,
      keys: seq<Bytes>)
    requires Filters(p, result, offs, filters)
    requires if keys == [] then filter == [] else FilterFor(p, filter, keys)
    ensures Filters(p, result + filter, offs + [|result|], filters + [keys])
  {
    hide FilterFor;
    var result', offs', filters' := result + filter, offs + [|result|], filters + [keys];
    forall i: nat
      ensures FilterAt(p, result', offs', filters', i)
    {
      assert FilterAt(p, result, offs, filters, i);
      if i < |offs| {
        var end := EndOf(offs, |result|, i);
        assert filters'[i] == filters[i] && offs'[i] == offs[i] && EndOf(offs', |result'|, i) == end;
        assert result'[offs[i]..end] == result[offs[i]..end];
      } else if i == |offs| {
        assert filters'[i] == keys && offs'[i] == |result| && EndOf(offs', |result'|, i) == |result'|;
        assert result'[|result|..|result'|] == filter;
      }
    }
  }

  class FilterBlockBuilder {
    const policy: Policy
    var keyBuffer: Bytes
    var keyStarts: seq<nat>
    var result: Bytes
    var filterOffsets: seq<nat>
    /** Keys not in a filter yet; keys of each filter; the offset of the last StartBlock; all keys
        so far with the block offset they were added under. */
    ghost var pending: seq<Bytes>
    ghost var filters: seq<seq<Bytes>>
    ghost var block: nat
    ghost var added: set<(nat, Bytes)>

    ghost predicate KeysOk()
      reads this
    {
      && keyBuffer == Flatten(pending) && |keyStarts| == |pending|
      && forall i :: 0 <= i < |pending| ==> keyStarts[i] == Start(pending, i)
    }

    /** A key added under offset o is in filter o / 2048, or on its way there. */
    ghost predicate AddedAt(o: nat, key: Bytes)
      reads this
    {
      var i := o / FILTER_SIZE;
      if i < |filters| then key in filters[i] else i == |filters| && key in pending
    }

    ghost predicate Valid()
      reads this
    {
      && policy.Ok() && KeysOk() && Filters(policy, result, filterOffsets, filters)
      && block / FILTER_SIZE == |filters|
      && forall o, key :: (o, key) in added ==> AddedAt(o, key)
    }

    constructor (policy: Policy)
      requires policy.Ok()
      ensures Valid() && added == {} && block == 0 && this.policy == policy
    {
      this.policy, keyBuffer, keyStarts, result, filterOffsets := policy, [], [], [], [];
      pending, filters, block, added := [], [], 0, {};
    }

    /** FilterBlockBuilder::AddKey. */
    method AddKey(key: Bytes)
      requires Valid()
      modifies this
      ensures Valid() && added == old(added) + {(block, key)} && block == old(block)
    {
      hide Filters, Flatten;
      keyStarts := keyStarts + [|keyBuffer|];
      keyBuffer := keyBuffer + key;
      StartSnoc(pending, key);
      ghost var was := pending;
      pending := pending + [key];
      added := added + {(block, key)};
      forall i | 0 <= i < |pending|
        ensures keyStarts[i] == Start(pending, i)
      {
        StartOfSnoc(was, key, i);
      }
    }

    /** The keys, cut out of the buffer at their starts. */
    method CutKeys() returns (keys: seq<Bytes>)
      requires KeysOk()
      ensures keys == pending
    {
      hide Flatten;
      var starts := keyStarts + [|keyBuffer|];
      keys := [];
      for i := 0 to |keyStarts|
        invariant keys == pending[..i]
      {
        KeyAt(pending, i);
        StartEnds(pending);
        assert starts[i + 1] == Start(pending, i + 1);
        keys := keys + [keyBuffer[starts[i]..starts[i + 1]]];
        assert pending[..i + 1] == pending[..i] + [pending[i]];
      }
      assert pending[..|pending|] == pending;
    }

    /** FilterBlockBuilder::GenerateFilter: the next filter, for the keys since the last one. */
    method GenerateFilter()
      requires Valid()
      modifies this
      ensures policy.Ok() && KeysOk() && pending == [] && block == old(block) && added == old(added)
      ensures Filters(policy, result, filterOffsets, filters) && filters == old(filters) + [old(pending)]
    {
      hide Filters, FilterFor;
      if |keyStarts| == 0 {
        FiltersAppend(policy, result, filterOffsets, filters, [], []);
        assert result + [] == result;
        filterOffsets := filterOffsets + [|result|];
        filters := filters + [[]];
        return;
      }
      var keys := CutKeys();
      ghost var filter;
      ghost var was := result;
      filterOffsets := filterOffsets + [|result|];
      result, filter := CreateFilter(policy, keys, result);
      FiltersAppend(policy, was, old(filterOffsets), filters, filter, keys);
      filters := filters + [pending];
      keyStarts, keyBuffer, pending := [], [], [];
    }

    /** FilterBlockBuilder::StartBlock: filters up to the one that the offset falls into. */
    method StartBlock(offset: nat)
      requires Valid() && offset / FILTER_SIZE >= |filterOffsets|
      modifies this
      ensures Valid() && block == offset && added == old(added)
    {
      hide Filters;
      FiltersLength();
      var index := offset / FILTER_SIZE;
      while index > |filterOffsets|
        invariant policy.Ok() && KeysOk() && Filters(policy, result, filterOffsets, filters)
        invariant added == old(added) && |filterOffsets| == |filters| <= index
        invariant forall o, key :: (o, key) in added ==> AddedAt(o, key)
      {
        block := |filters| * FILTER_SIZE;
        ghost var was := filters;
        GenerateFilter();
        FiltersLength();
        assert forall i :: 0 <= i < |was| ==> filters[i] == was[i];
      }
      block := offset;
    }

    lemma FiltersLength()
      requires Filters(policy, result, filterOffsets, filters)
      ensures |filterOffsets| == |filters|
    {}

    /** FilterBlockBuilder::Finish. */
    method Finish() returns (data: Bytes)
      requires Valid()
      modifies this
      ensures FilterBlockOf(policy, data, filters)
      ensures forall o, key :: (o, key) in old(added) ==> o / FILTER_SIZE < |filters| && key in filters[o / FILTER_SIZE]
    {
      hide Filters;
      if |keyStarts| > 0 {
        ghost var was := filters;
        GenerateFilter();
        assert forall i :: 0 <= i < |was| ==> filters[i] == was[i];
      }
      FiltersLength();
      data := WriteOffsets();
    }

    /** The offsets and the trailer, behind the filters. */
    method WriteOffsets() returns (data: Bytes)
      requires Filters(policy, result, filterOffsets, filters)
      modifies this`result
      ensures FilterBlockOf(policy, data, filters)
    {
      hide Filters, Fixed32;
      ghost var all, offs := result, filterOffsets;
      var start := |result|;
      for i := 0 to |filterOffsets|
        invariant result == all + Block.Restarts(offs[..i])
      {
        RestartsNext(offs, i);
        result := result + Fixed32(filterOffsets[i]);
      }
      assert offs[..|offs|] == offs;
      RestartsNext(offs + [start], |offs|);
      assert (offs + [start])[..|offs|] == offs && (offs + [start])[..|offs| + 1] == offs + [start];
      result := result + Fixed32(start);
      result := result + [FILTER_LG];
      data := result;
      assert LaidOut(policy, data, filters, all, offs);
    }
  }

  lemma RestartsNext(offs: seq<nat>, i: nat)
    requires i < |offs|
    ensures Block.Restarts(offs[..i + 1]) == Block.Restarts(offs[..i]) + Fixed32(offs[i])
  {
    assert offs[..i + 1][..i] == offs[..i];
  }

  lemma StartSnoc(ss: seq<Bytes>, s: Bytes)
    ensures Flatten(ss + [s]) == Flatten(ss) + s && Start(ss, |ss|) == |Flatten(ss)|
  {
    FlattenSnoc(ss, s);
    StartEnds(ss);
  }

  lemma StartOfSnoc(ss: seq<Bytes>, s: Bytes, i: nat)
    requires i <= |ss|
    ensures Start(ss + [s], i) == Start(ss, i)
  {
    assert (ss + [s])[..i] == ss[..i];
  }

  lemma KeyAt(ss: seq<Bytes>, i: nat)
    requires i < |ss|
    ensures Start(ss, i) <= Start(ss, i + 1) <= |Flatten(ss)|
    ensures Flatten(ss)[Start(ss, i)..Start(ss, i + 1)] == ss[i]
  {
    FlattenAround(ss, i);
    StartStep(ss, i);
  }

  // ---------------------------------------------------------------- reader

  /** The key was given to the filter that the offset falls into. */
  ghost predicate Covers(filters: seq<seq<Bytes>>, offset: nat, key: Bytes) {
    offset / FILTER_SIZE < |filters| && key in filters[offset / FILTER_SIZE]
  }

  /** The j-th offset behind some filters. */
  lemma OffsetRead(front: Bytes, rs: seq<nat>, tail: Bytes, j: nat)
    requires j < |rs| && rs[j] < W32
    ensures var block := front + (Block.Restarts(rs) + tail);
      |block| >= |front| + 4 * j + 4 && DecodeFixed32(block[|front| + 4 * j..]) == rs[j]
  {
    hide DecodeFixed32, Fixed32, Block.Restarts;
    Block.RestartAt(rs, j, tail);
    DropFront(front, Block.Restarts(rs) + tail, 4 * j);
    SmallMod(rs[j]);
  }

  lemma SmallMod(n: nat)
    requires n < W32
    ensures n % W32 == n
  {}

  lemma DropFront(a: Bytes, b: Bytes, k: nat)
    requires k <= |b|
    ensures (a + b)[|a| + k..] == b[k..]
  {}

  lemma LastOffset(offs: seq<nat>, n: nat)
    ensures Block.Restarts(offs + [n]) == Block.Restarts(offs) + Fixed32(n)
  {
    assert (offs + [n])[..|offs|] == offs;
  }

  lemma TrailerBytes(front: Bytes, number: Bytes, last: Byte)
    requires |number| == 4
    ensures var block := front + (number + [last]);
      block[|block| - 5..] == number + [last] && block[|block| - 1] == last
  {}

  lemma TrailerSplit(block: Bytes, result: Bytes, offs: seq<nat>) returns (front: Bytes)
    requires block == result + (Block.Restarts(offs + [|result|]) + [FILTER_LG])
    ensures |front| == |result| + 4 * |offs| && block == front + (Fixed32(|result|) + [FILTER_LG])
  {
    hide Fixed32, Block.Restarts;
    LastOffset(offs, |result|);
    front := result + Block.Restarts(offs);
  }

  lemma NumberRead(block: Bytes, front: Bytes, n: nat)
    requires block == front + (Fixed32(n) + [FILTER_LG]) && n < W32
    ensures |block| == |front| + 5 && block[|block| - 1] == FILTER_LG && DecodeFixed32(block[|block| - 5..]) == n
  {
    hide DecodeFixed32, Fixed32;
    TrailerBytes(front, Fixed32(n), FILTER_LG);
    Fixed32RoundTrip(n, [FILTER_LG]);
    SmallMod(n);
  }

  /** The trailer of a finished filter block. */
  lemma TrailerRead(block: Bytes, result: Bytes, offs: seq<nat>)
    requires block == result + (Block.Restarts(offs + [|result|]) + [FILTER_LG]) && |block| < W32
    ensures |block| == |result| + 4 * |offs| + 5 && block[|block| - 1] == FILTER_LG
    ensures DecodeFixed32(block[|block| - 5..]) == |result|
  {
    hide *;
    var front := TrailerSplit(block, result, offs);
    NumberRead(block, front, |result|);
  }

  lemma OffsetsRead(p: Policy, block: Bytes, filters: seq<seq<Bytes>>, result: Bytes, offs: seq<nat>, i: nat)
    requires Filters(p, result, offs, filters) && |block| < W32 && i < |offs|
    requires block == result + (Block.Restarts(offs + [|result|]) + [FILTER_LG])
    ensures |result| + 4 * i + 8 <= |block| && offs[i] <= EndOf(offs, |result|, i) <= |result|
    ensures DecodeFixed32(block[|result| + 4 * i..]) == offs[i]
    ensures DecodeFixed32(block[|result| + 4 * i + 4..]) == EndOf(offs, |result|, i)
  {
    hide DecodeFixed32, Fixed32, FilterFor, Block.Restarts;
    assert FilterAt(p, result, offs, filters, i);
    hide Filters, FilterAt;
    OffsetRead(result, offs + [|result|], [FILTER_LG], i);
    OffsetRead(result, offs + [|result|], [FILTER_LG], i + 1);
    assert |result| + 4 * (i + 1) == |result| + 4 * i + 4;
  }

  class FilterBlockReader {
    const policy: Policy
    const data: Bytes
    const offsetsStart: nat
    const offsetsNum: nat
    const sizeLg: nat
    ghost const contents: Bytes

    ghost predicate Valid() {
      var n := |contents|;
      if n < 5 || DecodeFixed32(contents[n - 5..]) > n - 5 then offsetsNum == 0
      else
        && data == contents && sizeLg == contents[n - 1] && offsetsStart == DecodeFixed32(contents[n - 5..])
        && offsetsNum == (n - 5 - offsetsStart) / 4
    }

    /** The constructor leaves a reader of contents it does not understand without filters. */
    constructor (policy: Policy, contents: Bytes)
      ensures Valid() && this.policy == policy && this.contents == contents
    {
      this.policy, this.contents := policy, contents;
      var n := |contents|;
      data, offsetsStart, offsetsNum, sizeLg := [], 0, 0, 0;
      if n >= 5 {
        sizeLg := contents[n - 1];
        var start := DecodeFixed32(contents[n - 5..]);
        if start <= n - 5 {
          data, offsetsStart, offsetsNum := contents, start, (n - 5 - start) / 4;
        }
      }
    }

    /** FilterBlockReader::KeyMayMatch. On a finished filter block it says what the filter says that
        the offset falls into; contents that are not understood deny nothing. */
    method KeyMayMatch(offset: nat, key: Bytes) returns (r: bool)
      requires Valid()
      ensures offsetsNum == 0 ==> r
      ensures |contents| < W32 ==>
        forall filters, result, offs :: LaidOut(policy, contents, filters, result, offs) ==>
          r == Says(policy, filters, result, offs, offset, key)
    {
      hide DecodeFixed32, LaidOut, Says, Pow, MayMatch;
      r := true;
      var index := offset / Pow(sizeLg);
      if index < offsetsNum {
        var start := DecodeFixed32(data[offsetsStart + index * 4..]);
        var limit := DecodeFixed32(data[offsetsStart + index * 4 + 4..]);
        if start < limit && limit <= offsetsStart {
          r := Bloom.KeyMayMatch(policy, key, data[start..limit]);
        } else if start == limit {
          r := false;
        }
      }
      if |contents| < W32 {
        forall filters, result, offs | LaidOut(policy, contents, filters, result, offs)
          ensures r == Says(policy, filters, result, offs, offset, key)
        {
          FilterRead(policy, contents, filters, result, offs, offset, key);
        }
      }
    }
  }

  /** The i-th filter lies between start and limit, says a filter block with n filters, whose offsets
      start at `at`. */
  ghost predicate ReadsAs(block: Bytes, at: nat, i: nat, start: nat, limit: nat) {
    && at + 4 * i + 8 <= |block|
    && DecodeFixed32(block[at + 4 * i..]) == start && DecodeFixed32(block[at + 4 * i + 4..]) == limit
  }

  ghost predicate TrailerIs(block: Bytes, at: nat, n: nat) {
    var m := |block|;
    m >= 5 && at <= m - 5 && (m - 5 - at) / 4 == n && block[m - 1] == FILTER_LG && DecodeFixed32(block[m - 5..]) == at
  }

  /** What the reader comes to, and what that says of the key. */
  lemma FilterRead(p: Policy, block: Bytes, filters: seq<seq<Bytes>>, result: Bytes, offs: seq<nat>, offset: nat,
      key: Bytes)
    requires LaidOut(p, block, filters, result, offs) && |block| < W32
    ensures TrailerIs(block, |result|, |offs|) && |offs| == |filters| && offset / Pow(FILTER_LG) == offset / FILTER_SIZE
    ensures Filters(p, result, offs, filters)
    ensures var i := offset / FILTER_SIZE;
      if i >= |filters| then Says(p, filters, result, offs, offset, key) else
        var start, limit := offs[i], EndOf(offs, |result|, i);
        && ReadsAs(block, |result|, i, start, limit) && start <= limit <= |result| <= |block|
        && Says(p, filters, result, offs, offset, key) == (start < limit && MayMatch(p, key, block[start..limit]))
  {
    hide DecodeFixed32, Fixed32, Filters, MayMatch;
    var i := offset / FILTER_SIZE;
    TrailerRead(block, result, offs);
    SameLength(p, result, offs, filters);
    PowEleven();
    if i < |filters| {
      OffsetsRead(p, block, filters, result, offs, i);
      EmptyOrNot(p, result, offs, filters, i);
      assert block[offs[i]..EndOf(offs, |result|, i)] == result[offs[i]..EndOf(offs, |result|, i)];
    }
  }

  /** A covered key is never denied. */
  lemma CoveredSays(p: Policy, filters: seq<seq<Bytes>>, result: Bytes, offs: seq<nat>, offset: nat, key: Bytes)
    requires p.Ok() && Filters(p, result, offs, filters) && Covers(filters, offset, key)
    ensures Says(p, filters, result, offs, offset, key)
  {
    hide FilterFor, MayMatch;
    var i := offset / FILTER_SIZE;
    assert FilterAt(p, result, offs, filters, i);
    NoFalseNegative(p, result[offs[i]..EndOf(offs, |result|, i)], filters[i], key);
  }

  lemma EmptyOrNot(p: Policy, result: Bytes, offs: seq<nat>, filters: seq<seq<Bytes>>, i: nat)
    requires Filters(p, result, offs, filters) && i < |filters|
    ensures i < |offs| && (offs[i] == EndOf(offs, |result|, i) <==> filters[i] == [])
  {
    assert FilterAt(p, result, offs, filters, i);
  }

  lemma PowEleven()
    ensures Pow(FILTER_LG) == FILTER_SIZE
  {
    PowEight();
    assert Pow(9) == 2 * Pow(8) && Pow(10) == 2 * Pow(9) && Pow(11) == 2 * Pow(10);
  }

  lemma SameLength(p: Policy, result: Bytes, offs: seq<nat>, filters: seq<seq<Bytes>>)
    requires Filters(p, result, offs, filters)
    ensures |offs| == |filters|
  {}
}
