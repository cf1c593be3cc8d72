/** db/sstable/block_builder and block_reader: a sorted run of entries with prefix-compressed
    keys and restart points, and the iterator that searches it. */
module Block {
  import opened Base
  import opened Coding

  datatype KV = KV(key: Bytes, value: Bytes)

  /** A comparator: negative, zero or positive as memcmp's result is. */
  type Cmp = (Bytes, Bytes) -> int

  ghost predicate TotalOrder(cmp: Cmp) {
    && (forall a :: cmp(a, a) == 0)
    && (forall a, b :: cmp(a, b) < 0 <==> cmp(b, a) > 0)
    && (forall a, b, c :: cmp(a, b) <= 0 && cmp(b, c) <= 0 ==> cmp(a, c) <= 0)
    && (forall a, b, c :: cmp(a, b) < 0 && cmp(b, c) <= 0 ==> cmp(a, c) < 0)
    && (forall a, b, c :: cmp(a, b) <= 0 && cmp(b, c) < 0 ==> cmp(a, c) < 0)
  }

  ghost predicate Sorted(cmp: Cmp, kvs: seq<KV>) {
    forall i, j :: 0 <= i < j < |kvs| ==> cmp(kvs[i].key, kvs[j].key) < 0
  }

  /** i is where the first key not below `target` stands (the end, if there is none). */
  ghost predicate IsFirstGe(cmp: Cmp, kvs: seq<KV>, target: Bytes, i: nat) {
    && i <= |kvs|
    && (forall j :: 0 <= j < i ==> cmp(kvs[j].key, target) < 0)
    && (forall j :: i <= j < |kvs| ==> cmp(kvs[j].key, target) >= 0)
  }

  // ---------------------------------------------------------------- layout

  /** An entry on disk: three varints, then the unshared key bytes and the value. */
  function EntryBytes(shared: nat, kv: KV): (r: Bytes)
    requires shared <= |kv.key|
    ensures |r| >= 3
  {
    Varint(shared % W32) + Varint((|kv.key| - shared) % W32) + Varint(|kv.value| % W32)
      + kv.key[shared..] + kv.value
  }

  ghost predicate IsPrefixLength(a: Bytes, b: Bytes, n: nat) {
    n <= |a| && n <= |b| && a[..n] == b[..n]
  }

  ghost predicate MaximalPrefix(a: Bytes, b: Bytes, n: nat) {
    n >= |a| || n >= |b| || a[n] != b[n]
  }

  /** How a sequence of entries is laid out: bytes each key shares with its predecessor, the
      offset of each entry (and of the end), and the entries that are restart points. */
  datatype Layout = Layout(kvs: seq<KV>, shared: seq<nat>, offs: seq<nat>, starts: seq<nat>) {
    ghost predicate Shape() {
      && |shared| == |kvs| && |offs| == |kvs| + 1 && offs[0] == 0
      && |starts| >= 1 && starts[0] == 0
    }

    ghost predicate EntryFits(i: nat)
      requires Shape()
    {
      i < |kvs| ==>
        && shared[i] <= |kvs[i].key|
        && offs[i + 1] == offs[i] + |EntryBytes(shared[i], kvs[i])|
        && (i > 0 ==> IsPrefixLength(kvs[i - 1].key, kvs[i].key, shared[i]))
    }

    ghost predicate StartFits(j: nat)
      requires Shape()
    {
      j < |starts| ==>
        && (j > 0 ==> starts[j - 1] < starts[j] < |kvs|)
        && (starts[j] < |kvs| ==> shared[starts[j]] == 0)
    }

    ghost predicate WellFormed() {
      Shape() && (forall i: nat :: EntryFits(i)) && (forall j: nat :: StartFits(j))
    }

    ghost predicate EntryAt(data: Bytes, i: nat)
      requires Shape()
    {
      i < |kvs| ==>
        && shared[i] <= |kvs[i].key| && offs[i] <= offs[i + 1] <= |data|
        && data[offs[i]..offs[i + 1]] == EntryBytes(shared[i], kvs[i])
    }

    /** The entries, back to back, are exactly `data`. */
    ghost predicate Describes(data: Bytes)
      requires Shape()
    {
      |data| == offs[|kvs|] && forall i: nat :: EntryAt(data, i)
    }

    ghost predicate Spaced(interval: nat, j: nat)
      requires Shape()
    {
      0 < j < |starts| ==> starts[j] == starts[j - 1] + interval
    }

    ghost predicate SharesAll(i: nat)
      requires Shape()
    {
      0 < i < |kvs| && i !in starts ==> MaximalPrefix(kvs[i - 1].key, kvs[i].key, shared[i])
    }

    /** Restart points come every `interval` entries, and every other key shares all it can. */
    ghost predicate Compressed(interval: nat)
      requires Shape()
    {
      && (forall j: nat :: Spaced(interval, j))
      && (forall i: nat :: SharesAll(i))
      && starts[|starts| - 1] <= |kvs| <= starts[|starts| - 1] + interval
    }

    ghost predicate RestartOffsets(rs: seq<nat>)
      requires Shape()
    {
      |rs| == |starts| && forall j :: 0 <= j < |rs| ==> starts[j] < |offs| && rs[j] == offs[starts[j]]
    }
  }

  function Restarts(rs: seq<nat>): (r: Bytes)
    ensures |r| == 4 * |rs|
  {
    if rs == [] then [] else Restarts(rs[..|rs| - 1]) + Fixed32(rs[|rs| - 1])
  }

  lemma {:induction false} RestartAt(rs: seq<nat>, j: nat, tail: Bytes)
    requires j < |rs|
    ensures DecodeFixed32((Restarts(rs) + tail)[4 * j..]) == rs[j] % W32
  {
    var last := rs[|rs| - 1];
    var front := Restarts(rs[..|rs| - 1]);
    assert Restarts(rs) + tail == front + (Fixed32(last) + tail);
    if j == |rs| - 1 {
      assert (Restarts(rs) + tail)[4 * j..] == Fixed32(last) + tail;
      Fixed32RoundTrip(last, tail);
    } else {
      RestartAt(rs[..|rs| - 1], j, Fixed32(last) + tail);
    }
  }

  // ---------------------------------------------------------------- builder

  /** A builder's fields, and the layout of the entries it holds. */
  ghost predicate Consistent(interval: nat, buffer: Bytes, restarts: seq<nat>, counter: nat, lastKey: Bytes, l: Layout)
  {
    && interval >= 1
    && l.WellFormed() && l.Describes(buffer) && l.Compressed(interval) && l.RestartOffsets(restarts)
    && counter == |l.kvs| - l.starts[|l.starts| - 1]
    && lastKey == (if l.kvs == [] then [] else l.kvs[|l.kvs| - 1].key)
  }

  class Builder {
    const interval: nat
    var buffer: Bytes
    var restarts: seq<nat>
    var counter: nat
    var lastKey: Bytes
    var finished: bool
    ghost var layout: Layout

    ghost predicate Valid()
      reads this
    {
      Consistent(interval, buffer, restarts, counter, lastKey, layout)
    }

    constructor (interval: nat)
      requires interval >= 1
      ensures Valid() && !finished && layout.kvs == [] && this.interval == interval
    {
      this.interval := interval;
      buffer, restarts, counter, lastKey, finished := [], [0], 0, [], false;
      layout := Layout([], [], [0], [0]);
    }

    /** BlockBuilder::Add. */
    method Add(key: Bytes, value: Bytes)
      requires Valid() && !finished
      modifies this
      ensures Valid() && !finished
      ensures layout.kvs == old(layout.kvs) + [KV(key, value)]
    {
      hide EntryBytes, Consistent;
      var shared := 0;
      if counter < interval {
        shared := CommonPrefix(lastKey, key);
        layout := Added(interval, buffer, restarts, counter, lastKey, layout, KV(key, value), shared);
      } else {
        layout := Added(interval, buffer, restarts, counter, lastKey, layout, KV(key, value), shared);
        restarts := restarts + [|buffer|];
        counter := 0;
      }
      var entry := WriteEntry(shared, key, value);
      buffer := buffer + entry;
      lastKey := lastKey[..shared];
      lastKey := lastKey + key[shared..];
      counter := counter + 1;
      assert lastKey == key;
    }

    /** The loop of Add that counts shared leading bytes. */
    static method CommonPrefix(a: Bytes, b: Bytes) returns (n: nat)
      ensures IsPrefixLength(a, b, n) && MaximalPrefix(a, b, n)
    {
      var minSize := if |a| < |b| then |a| else |b|;
      n := 0;
      while n < minSize && b[n] == a[n]
        invariant n <= minSize && a[..n] == b[..n]
      {
        n := n + 1;
      }
    }

    static method WriteEntry(shared: nat, key: Bytes, value: Bytes) returns (entry: Bytes)
      requires shared <= |key|
      ensures entry == EntryBytes(shared, KV(key, value))
    {
      var nonShared := |key| - shared;
      var a := EncodeVarint(shared % W32);
      var b := EncodeVarint(nonShared % W32);
      var c := EncodeVarint(|value| % W32);
      entry := a + b + c + key[shared..] + value;
    }

    /** BlockBuilder::Reset, between two blocks of a table. */
    method Reset()
      requires interval >= 1
      modifies this
      ensures Valid() && !finished && layout.kvs == []
    {
      buffer, restarts, counter, lastKey, finished := [], [0], 0, [], false;
      layout := Layout([], [], [0], [0]);
    }

    /** BlockBuilder::Finish: the block that is written to the table. */
    method Finish() returns (block: Bytes)
      requires Valid() && !finished
      modifies this
      ensures finished && layout == old(layout)
      ensures BlockOf(block, layout) && |block| == old(|buffer| + |restarts| * 4 + 4)
    {
      ghost var data := buffer;
      for j := 0 to |restarts|
        invariant restarts == old(restarts) && layout == old(layout)
        invariant buffer == data + Restarts(restarts[..j])
      {
        assert restarts[..j + 1][..j] == restarts[..j];
        assert restarts[..j + 1][j] == restarts[j];
        buffer := buffer + Fixed32(restarts[j]);
      }
      assert restarts[..|restarts|] == restarts;
      buffer := buffer + Fixed32(|restarts|);
      finished := true;
      block := buffer;
      assert block == data + (Restarts(restarts) + Fixed32(|restarts|));
      assert Finished(block, layout, data, restarts);
    }
  }

  /** A finished block: the described entries, then the restart offsets and their number. */
  ghost predicate Finished(block: Bytes, l: Layout, data: Bytes, restarts: seq<nat>) {
    && l.WellFormed() && l.Describes(data) && l.RestartOffsets(restarts)
    && block == data + (Restarts(restarts) + Fixed32(|restarts|))
  }

  ghost predicate BlockOf(block: Bytes, l: Layout) {
    exists data, restarts :: Finished(block, l, data, restarts)
  }

  lemma Appended(l: Layout, l': Layout, data: Bytes, kv: KV, shared: nat)
    requires l.WellFormed() && l.Describes(data) && shared <= |kv.key|
    requires l'.kvs == l.kvs + [kv] && l'.shared == l.shared + [shared]
    requires l'.offs == l.offs + [|data| + |EntryBytes(shared, kv)|]
    requires l'.starts == l.starts || (l'.starts == l.starts + [|l.kvs|] && |l.kvs| > l.starts[|l.starts| - 1])
    requires l.kvs == [] || l'.starts != l.starts ==> shared == 0
    requires l.kvs != [] ==> IsPrefixLength(l.kvs[|l.kvs| - 1].key, kv.key, shared)
    ensures l'.WellFormed() && l'.Describes(data + EntryBytes(shared, kv))
  {
    hide EntryBytes;
    var data' := data + EntryBytes(shared, kv);
    var n := |l.kvs|;
    forall i: nat
      ensures l'.EntryFits(i) && l'.EntryAt(data', i)
    {
      if i < n {
        assert l.EntryFits(i) && l.EntryAt(data, i);
        assert data'[l.offs[i]..l.offs[i + 1]] == data[l.offs[i]..l.offs[i + 1]];
      }
    }
    forall j: nat
      ensures l'.StartFits(j)
    {
      assert l.StartFits(j);
    }
  }

  /** What appending an entry makes of a builder's fields and of its layout. */
  lemma Added(interval: nat, buffer: Bytes, restarts: seq<nat>, counter: nat, lastKey: Bytes, l: Layout, kv: KV,
      shared: nat) returns (l': Layout)
    requires Consistent(interval, buffer, restarts, counter, lastKey, l) && shared <= |kv.key|
    requires if counter >= interval then shared == 0
             else IsPrefixLength(lastKey, kv.key, shared) && MaximalPrefix(lastKey, kv.key, shared)
    ensures l'.kvs == l.kvs + [kv] && (counter >= interval ==> IsPrefixLength(lastKey, kv.key, shared))
    ensures var full := counter >= interval;
      Consistent(interval, buffer + EntryBytes(shared, kv), if full then restarts + [|buffer|] else restarts,
          (if full then 0 else counter) + 1, kv.key, l')
  {
    hide EntryBytes, Layout.WellFormed, Layout.Describes, Layout.Compressed, Layout.RestartOffsets;
    FitsInterval(l, interval);
    l' := Layout(l.kvs + [kv], l.shared + [shared], l.offs + [|buffer| + |EntryBytes(shared, kv)|],
      if counter < interval then l.starts else l.starts + [|l.kvs|]);
    Appended(l, l', buffer, kv, shared);
    AppendedCompressed(l, l', interval);
    AppendedRestarts(l, l', restarts, buffer);
  }

  lemma FitsInterval(l: Layout, interval: nat)
    requires l.WellFormed() && l.Compressed(interval)
    ensures l.Shape() && l.starts[|l.starts| - 1] <= |l.kvs| <= l.starts[|l.starts| - 1] + interval
  {}

  lemma AppendedRestarts(l: Layout, l': Layout, rs: seq<nat>, data: Bytes)
    requires l.WellFormed() && l.Describes(data) && l.RestartOffsets(rs) && l'.Shape()
    requires |l'.offs| == |l.offs| + 1 && l'.offs[..|l.offs|] == l.offs
    requires l'.starts == l.starts || l'.starts == l.starts + [|l.kvs|]
    ensures l'.RestartOffsets(if l'.starts == l.starts then rs else rs + [|data|])
  {
    forall j | 0 <= j < |l'.starts|
      ensures l'.starts[j] < |l'.offs|
      ensures l'.offs[l'.starts[j]] == if j < |l.starts| then rs[j] else |data|
    {
      if j < |l.starts| { assert l.starts[j] < |l.offs|; }
    }
  }

  lemma AppendedCompressed(l: Layout, l': Layout, interval: nat)
    requires l.WellFormed() && l'.WellFormed() && l.Compressed(interval) && interval >= 1
    requires |l'.kvs| == |l.kvs| + 1 && l'.kvs[..|l.kvs|] == l.kvs && l'.shared[..|l.kvs|] == l.shared
    requires if l.starts[|l.starts| - 1] + interval == |l.kvs| then l'.starts == l.starts + [|l.kvs|]
             else l'.starts == l.starts && (l.kvs == [] ||
                  MaximalPrefix(l.kvs[|l.kvs| - 1].key, l'.kvs[|l.kvs|].key, l'.shared[|l.kvs|]))
    ensures l'.Compressed(interval)
  {
    var n := |l.kvs|;
    forall i: nat
      ensures l'.SharesAll(i)
    {
      assert l.SharesAll(i);
      if 0 < i <= n {
        assert l'.kvs[i - 1] == l.kvs[i - 1];
        assert i < n ==> l'.kvs[i] == l.kvs[i] && l'.shared[i] == l.shared[i];
      }
    }
    forall j: nat
      ensures l'.Spaced(interval, j)
    {
      assert l.Spaced(interval, j);
    }
  }
}
