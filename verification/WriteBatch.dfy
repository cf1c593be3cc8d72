/** db/writebatch: a batch of operations as bytes, and its replay into a memtable. */
module WriteBatch {
  import opened Base
  import opened Coding
  import opened Comparator
  import E = Entries
  import Mem = MemTable
  import S = SkipList

  const HEADER: nat := 12

  datatype Op = Put(key: Bytes, value: Bytes) | Delete(key: Bytes) {
    predicate Fits() {
      |key| + 8 < W32 && (Put? ==> |value| < W32)
    }

    /** The version it makes, with sequence number sn. */
    function ToRec(sn: nat): (r: Mem.Rec) {
      if Put? then Mem.Rec(key, sn, TYPE_INSERTION, value) else Mem.Rec(key, sn, TYPE_DELETION, [])
    }
  }

  function EncodeOp(op: Op): (r: Bytes)
    ensures r != []
  {
    match op
    case Put(k, v) => [1] + LengthPrefixed(k) + LengthPrefixed(v)
    case Delete(k) => [0] + LengthPrefixed(k)
  }

  function EncodeOps(ops: seq<Op>): (r: Bytes) {
    if ops == [] then [] else EncodeOp(ops[0]) + EncodeOps(ops[1..])
  }

  lemma {:induction false} EncodeAppend(a: seq<Op>, b: seq<Op>)
    ensures EncodeOps(a + b) == EncodeOps(a) + EncodeOps(b)
  {
    if a == [] {
      assert a + b == b;
    } else {
      assert (a + b)[1..] == a[1..] + b;
      EncodeAppend(a[1..], b);
    }
  }

  ghost predicate AllFit(ops: seq<Op>) {
    forall op :: op in ops ==> op.Fits()
  }

  /** What a batch's bytes say: base sequence number, operation count, operations. */
  ghost predicate Holds(rep: Bytes, base: nat, ops: seq<Op>) {
    && AllFit(ops) && |ops| < W32 && base < W64
    && rep == Fixed64(base) + Fixed32(|ops|) + EncodeOps(ops)
  }

  lemma HeaderOf(rep: Bytes, base: nat, ops: seq<Op>)
    requires Holds(rep, base, ops)
    ensures |rep| >= HEADER && DecodeFixed64(rep) == base && DecodeFixed32(rep[8..]) == |ops|
    ensures rep[..8] == Fixed64(base) && rep[8..12] == Fixed32(|ops|) && rep[HEADER..] == EncodeOps(ops)
  {
    hide Fixed64, Fixed32, DecodeFixed64, DecodeFixed32, EncodeOps, AllFit;
    var a, b, body := Fixed64(base), Fixed32(|ops|), EncodeOps(ops);
    Header(a, b, body);
    Fixed64RoundTrip(base, b + body);
    Fixed32RoundTrip(|ops|, body);
  }

  lemma Header(a: Bytes, b: Bytes, body: Bytes)
    requires |a| == 8 && |b| == 4
    ensures var rep := a + b + body;
      rep == a + (b + body) && rep[..8] == a && rep[8..] == b + body && rep[8..12] == b && rep[12..] == body
  {}

  /** The handler calls that Iterate makes, and whether it ends well. An unknown type byte is
      counted and skipped. */
  function Replay(input: Bytes, count: nat): (r: (seq<Op>, Option<nat>))
    decreases |input|
  {
    if input == [] then ([], Some(count))
    else if input[0] == 1 then
      match GetLengthPrefixed(input[1..])
      case Parsed(k, p) =>
        (match GetLengthPrefixed(p)
         case Parsed(v, rest) =>
           var more := Replay(rest, count + 1); ([Put(k, v)] + more.0, more.1)
         case _ => ([], None))
      case _ => ([], None)
    else if input[0] == 0 then
      match GetLengthPrefixed(input[1..])
      case Parsed(k, rest) =>
        var more := Replay(rest, count + 1); ([Delete(k)] + more.0, more.1)
      case _ => ([], None)
    else Replay(input[1..], count + 1)
  }

  lemma ReplayPut(k: Bytes, v: Bytes, rest: Bytes, count: nat)
    requires |k| < W32 && |v| < W32
    ensures var more := Replay(rest, count + 1);
      Replay(EncodeOp(Put(k, v)) + rest, count) == ([Put(k, v)] + more.0, more.1)
  {
    hide GetLengthPrefixed, LengthPrefixed;
    var input := EncodeOp(Put(k, v)) + rest;
    assert input[1..] == LengthPrefixed(k) + (LengthPrefixed(v) + rest);
    LengthPrefixedRoundTrip(k, LengthPrefixed(v) + rest);
    LengthPrefixedRoundTrip(v, rest);
  }

  lemma ReplayDelete(k: Bytes, rest: Bytes, count: nat)
    requires |k| < W32
    ensures var more := Replay(rest, count + 1);
      Replay(EncodeOp(Delete(k)) + rest, count) == ([Delete(k)] + more.0, more.1)
  {
    hide GetLengthPrefixed, LengthPrefixed;
    var input := EncodeOp(Delete(k)) + rest;
    assert input[1..] == LengthPrefixed(k) + rest;
    LengthPrefixedRoundTrip(k, rest);
  }

  /** Iterating over an encoded batch replays its operations in order. */
  lemma {:induction false} ReplayIs(ops: seq<Op>, count: nat)
    requires AllFit(ops)
    ensures Replay(EncodeOps(ops), count) == (ops, Some(count + |ops|))
  {
    hide Replay, EncodeOp;
    if ops != [] {
      var op, rest := ops[0], EncodeOps(ops[1..]);
      ReplayIs(ops[1..], count + 1);
      assert op in ops && ops == [op] + ops[1..];
      match op
      case Put(k, v) => ReplayPut(k, v, rest, count);
      case Delete(k) => ReplayDelete(k, rest, count);
    } else {
      ReplayNothing(count);
    }
  }

  lemma ReplayNothing(count: nat)
    ensures Replay([], count) == ([], Some(count))
  {}

  // ---------------------------------------------------------------- the batch

  class Batch {
    var rep: Bytes
    ghost var base: nat
    ghost var ops: seq<Op>

    ghost predicate Valid()
      reads this
    {
      Holds(rep, base, ops)
    }

    constructor ()
      ensures Valid() && ops == []
    {
      rep, base, ops := Fixed64(0) + Fixed32(0), 0, [];
    }

    /** Clear: an empty header again. */
    method Clear()
      modifies this
      ensures Valid() && ops == []
    {
      rep, base, ops := Fixed64(0) + Fixed32(0), 0, [];
    }

    function Count(): (n: Word)
      requires |rep| >= HEADER
      reads this
    {
      DecodeFixed32(rep[8..])
    }

    method Put(key: Bytes, value: Bytes)
      requires Valid() && Op.Put(key, value).Fits() && |ops| + 1 < W32
      modifies this
      ensures Valid() && ops == old(ops) + [Op.Put(key, value)] && base == old(base)
    {
      hide Fixed64, Fixed32, DecodeFixed32, DecodeFixed64, LengthPrefixed, Holds, EncodeOps;
      HeaderOf(rep, base, ops);
      NewCount(rep, base, ops, |ops| + 1);
      rep := rep[..8] + Fixed32((Count() + 1) % W32) + rep[12..];
      ghost var head := rep;
      rep := rep + [1];
      rep := rep + LengthPrefixed(key);
      rep := rep + LengthPrefixed(value);
      assert rep == head + EncodeOp(Op.Put(key, value)) by {
        AppendThree(head, [1], LengthPrefixed(key), LengthPrefixed(value));
      }
      Grown(old(rep), rep, base, ops, Op.Put(key, value));
      ops := ops + [Op.Put(key, value)];
    }

    method Delete(key: Bytes)
      requires Valid() && Op.Delete(key).Fits() && |ops| + 1 < W32
      modifies this
      ensures Valid() && ops == old(ops) + [Op.Delete(key)] && base == old(base)
    {
      hide Fixed64, Fixed32, DecodeFixed32, DecodeFixed64, LengthPrefixed, Holds, EncodeOps;
      HeaderOf(rep, base, ops);
      NewCount(rep, base, ops, |ops| + 1);
      rep := rep[..8] + Fixed32((Count() + 1) % W32) + rep[12..];
      ghost var head := rep;
      rep := rep + [0];
      rep := rep + LengthPrefixed(key);
      assert rep == head + EncodeOp(Op.Delete(key)) by { AppendTwo(head, [0], LengthPrefixed(key)); }
      Grown(old(rep), rep, base, ops, Op.Delete(key));
      ops := ops + [Op.Delete(key)];
    }

    /** WriteBatchHelper::SetSequenceNum. */
    method SetSequenceNum(sn: nat)
      requires Valid() && sn < W64
      modifies this
      ensures Valid() && ops == old(ops) && base == sn
    {
      hide Fixed64, Fixed32, DecodeFixed32, DecodeFixed64, EncodeOps;
      HeaderOf(rep, base, ops);
      rep := Fixed64(sn) + rep[8..];
      base := sn;
      assert rep == Fixed64(base) + Fixed32(|ops|) + EncodeOps(ops);
    }

    /** WriteBatchHelper::Append: concatenation. */
    method Append(src: Batch)
      requires Valid() && src.Valid() && |ops| + |src.ops| < W32
      modifies this
      ensures Valid() && ops == old(ops) + old(src.ops) && base == old(base)
    {
      hide Fixed64, Fixed32, DecodeFixed32, DecodeFixed64, EncodeOps;
      HeaderOf(rep, base, ops);
      HeaderOf(src.rep, src.base, src.ops);
      ghost var more := src.ops;
      rep := rep[..8] + Fixed32((Count() + src.Count()) % W32) + rep[12..];
      var tail := src.rep[HEADER..];
      rep := rep + tail;
      EncodeAppend(ops, more);
      ops := ops + more;
    }
  }

  /** Setting the count leaves the rest of the batch alone. */
  lemma NewCount(rep: Bytes, base: nat, ops: seq<Op>, n: nat)
    requires Holds(rep, base, ops)
    ensures |rep| >= HEADER
    ensures rep[..8] + Fixed32(n) + rep[12..] == Fixed64(base) + Fixed32(n) + EncodeOps(ops)
  {
    hide Fixed64, Fixed32, EncodeOps, AllFit;
    Header(Fixed64(base), Fixed32(|ops|), EncodeOps(ops));
  }

  lemma Grown(was: Bytes, rep: Bytes, base: nat, ops: seq<Op>, op: Op)
    requires Holds(was, base, ops) && op.Fits() && |ops| + 1 < W32
    requires rep == Fixed64(base) + Fixed32(|ops| + 1) + EncodeOps(ops) + EncodeOp(op)
    ensures Holds(rep, base, ops + [op])
  {
    EncodeAppend(ops, [op]);
    OneOp(op);
    hide Fixed64, Fixed32, EncodeOp, EncodeOps, Op.Fits;
    assert AllFit(ops + [op]);
    assert rep == Fixed64(base) + Fixed32(|ops| + 1) + (EncodeOps(ops) + EncodeOp(op));
  }

  lemma AppendTwo(a: Bytes, b: Bytes, c: Bytes)
    ensures a + b + c == a + (b + c)
  {}

  lemma AppendThree(a: Bytes, b: Bytes, c: Bytes, d: Bytes)
    ensures a + b + c + d == a + (b + c + d)
  {}

  lemma OneOp(op: Op)
    ensures EncodeOps([op]) == EncodeOp(op)
  {
    assert EncodeOps([op]) == EncodeOp(op) + EncodeOps([]);
  }

  // ---------------------------------------------------------------- replay

  /** The versions that a batch makes: the i-th operation gets sequence number base + i. */
  ghost function Versions(base: nat, ops: seq<Op>): (r: iset<E.Entry>) {
    iset i | 0 <= i < |ops| :: ops[i].ToRec(base + i).ToEntry()
  }

  /** The version that a Put or Delete with sequence number sn makes. */
  predicate IsVersion(op: Op, sn: nat, e: E.Entry) {
    && e.key == Rank(op.key) && e.sn == sn
    && (op.Put? ==> e.value == Some(op.value)) && (op.Delete? ==> e.value == None)
  }

  /** A Put stores its value and a Delete a deletion, under its key and its own number. */
  lemma VersionStored(base: nat, ops: seq<Op>, i: nat)
    requires i < |ops|
    ensures match ops[i]
            case Put(k, v) => E.Entry(Rank(k), base + i, Some(v)) in Versions(base, ops)
            case Delete(k) => E.Entry(Rank(k), base + i, None) in Versions(base, ops)
  {
    hide Rank;
    assert ops[i].ToRec(base + i).ToEntry() in Versions(base, ops);
  }

  /** Nothing else is stored. */
  lemma NothingElseStored(base: nat, ops: seq<Op>, e: E.Entry) returns (i: nat)
    requires e in Versions(base, ops)
    ensures i < |ops| && IsVersion(ops[i], base + i, e)
  {
    hide Rank;
    var n: int :| 0 <= n < |ops| && e == ops[n].ToRec(base + n).ToEntry();
    i := n;
  }

  lemma VersionsNext(base: nat, ops: seq<Op>, n: nat)
    requires n < |ops|
    ensures Versions(base, ops[..n + 1]) == Versions(base, ops[..n]) + iset{ops[n].ToRec(base + n).ToEntry()}
  {
    hide Op.ToRec, Mem.Rec.ToEntry;
    var now, was := Versions(base, ops[..n + 1]), Versions(base, ops[..n]);
    forall e | e in now
      ensures e in was || e == ops[n].ToRec(base + n).ToEntry()
    {
      var i: int :| 0 <= i < n + 1 && e == ops[..n + 1][i].ToRec(base + i).ToEntry();
      if i < n { assert ops[..n][i] == ops[i]; }
    }
    forall e | e in was
      ensures e in now
    {
      var i: int :| 0 <= i < n && e == ops[..n][i].ToRec(base + i).ToEntry();
      assert ops[..n + 1][i] == ops[i];
    }
    assert ops[..n + 1][n] == ops[n];
  }

  /** WriteBatch::Iterate, driving WriteBatchHelper's memtable inserter, on any bytes: what is
      replayed before an error stays in the memtable. `heights` are the skip list's random
      choices. */
  method InsertMemTable(rep: Bytes, mem: Mem.MemTable, heights: nat -> nat) returns (ok: bool)
    requires mem.Valid() && forall i :: 1 <= heights(i) <= S.MAX_HEIGHT
    requires |rep| >= HEADER ==>
      var calls := Replay(rep[HEADER..], 0).0; AllFit(calls) && DecodeFixed64(rep) + |calls| <= MAX_SEQUENCE
    modifies mem.Repr()
    ensures mem.Valid() && fresh(mem.Repr() - old(mem.Repr()))
    ensures if |rep| < HEADER then !ok && mem.View() == old(mem.View()) else
              var (calls, end) := Replay(rep[HEADER..], 0);
              && mem.View() == old(mem.View()) + Versions(DecodeFixed64(rep), calls)
              && ok == (end == Some(DecodeFixed32(rep[8..])))
  {
    hide GetLengthPrefixed, Replay, DecodeFixed32, DecodeFixed64, AllFit, Versions, Mem.MemTable.Valid, Mem.ViewOf,
        Mem.Rec.ToEntry;
    if |rep| < HEADER {
      return false;
    }
    ghost var base, calls, end := DecodeFixed64(rep), Replay(rep[HEADER..], 0).0, Replay(rep[HEADER..], 0).1;
    var sn := DecodeFixed64(rep);
    var input := rep[HEADER..];
    var count := 0;
    ghost var n := 0;
    NoVersions(base, calls);
    while input != []
      invariant n <= |calls| && sn == base + n && Replay(input, count) == (calls[n..], end)
      invariant mem.Valid() && mem.View() == old(mem.View()) + Versions(base, calls[..n])
      invariant fresh(mem.Repr() - old(mem.Repr()))
      decreases |input|
    {
      ReplayStep(input, count, calls, n);
      if n < |calls| { CallFits(calls, n); }
      count := count + 1;
      var kind := input[0];
      input := input[1..];
      if kind == 1 {
        var key := GetLengthPrefixed(input);
        if !key.Parsed? { NoMore(base, calls, n); return false; }
        var value := GetLengthPrefixed(key.rest);
        if !value.Parsed? { NoMore(base, calls, n); return false; }
        input := value.rest;
        VersionsNext(base, calls, n);
        mem.Put(sn, TYPE_INSERTION, key.value, value.value, heights(count));
        sn, n := sn + 1, n + 1;
      } else if kind == 0 {
        var key := GetLengthPrefixed(input);
        if !key.Parsed? { NoMore(base, calls, n); return false; }
        input := key.rest;
        VersionsNext(base, calls, n);
        mem.Put(sn, TYPE_DELETION, key.value, [], heights(count));
        sn, n := sn + 1, n + 1;
      }
    }
    ReplayNothing(count);
    NoMore(base, calls, n);
    ok := count == DecodeFixed32(rep[8..]);
  }

  lemma CallFits(calls: seq<Op>, n: nat)
    requires AllFit(calls) && n < |calls|
    ensures calls[n].Fits()
  {}

  lemma NoMore(base: nat, calls: seq<Op>, n: nat)
    requires n <= |calls| && calls[n..] == []
    ensures Versions(base, calls[..n]) == Versions(base, calls)
  {
    assert calls[..n] == calls;
  }

  /** One turn of the loop of Iterate. */
  lemma ReplayStep(input: Bytes, count: nat, calls: seq<Op>, n: nat)
    requires input != [] && n <= |calls| && Replay(input, count).0 == calls[n..]
    ensures var end, key := Replay(input, count).1, GetLengthPrefixed(input[1..]);
      if input[0] == 1 then
        if !key.Parsed? || !GetLengthPrefixed(key.rest).Parsed? then calls[n..] == [] && end == None
        else var value := GetLengthPrefixed(key.rest);
             n < |calls| && calls[n] == Put(key.value, value.value)
                 && Replay(value.rest, count + 1) == (calls[n + 1..], end)
      else if input[0] == 0 then
        if !key.Parsed? then calls[n..] == [] && end == None
        else n < |calls| && calls[n] == Delete(key.value) && Replay(key.rest, count + 1) == (calls[n + 1..], end)
      else Replay(input[1..], count + 1) == (calls[n..], end)
  {
    hide GetLengthPrefixed;
    assert n < |calls| ==> calls[n..][1..] == calls[n + 1..];
    var key := GetLengthPrefixed(input[1..]);
    if input[0] == 1 && key.Parsed? && GetLengthPrefixed(key.rest).Parsed? {
      var value := GetLengthPrefixed(key.rest);
      var more := Replay(value.rest, count + 1).0;
      assert ([Put(key.value, value.value)] + more)[1..] == more;
    } else if input[0] == 0 && key.Parsed? {
      var more := Replay(key.rest, count + 1).0;
      assert ([Delete(key.value)] + more)[1..] == more;
    }
  }

  lemma NoVersions(base: nat, ops: seq<Op>)
    ensures Versions(base, ops[..0]) == iset{} && ops[0..] == ops
  {}

  /** A batch inserts exactly its operations, numbered from its base on. */
  lemma BatchReplays(rep: Bytes, base: nat, ops: seq<Op>)
    requires Holds(rep, base, ops)
    ensures |rep| >= HEADER && DecodeFixed64(rep) == base
    ensures Replay(rep[HEADER..], 0) == (ops, Some(DecodeFixed32(rep[8..])))
  {
    hide Holds, Replay, EncodeOps, AllFit;
    HeaderOf(rep, base, ops);
    HoldsFit(rep, base, ops);
    ReplayIs(ops, 0);
  }

  lemma HoldsFit(rep: Bytes, base: nat, ops: seq<Op>)
    requires Holds(rep, base, ops)
    ensures AllFit(ops)
  {}

  // ---------------------------------------------------------------- recovery

  datatype Logged = Logged(base: nat, ops: seq<Op>)

  ghost predicate LoggedAs(records: seq<Bytes>, batches: seq<Logged>) {
    && |records| == |batches|
    && forall i :: 0 <= i < |records| ==>
         Holds(records[i], batches[i].base, batches[i].ops) && batches[i].base + |batches[i].ops| <= MAX_SEQUENCE
  }

  ghost function AllVersions(batches: seq<Logged>): (r: iset<E.Entry>) {
    if batches == [] then iset{}
    else AllVersions(batches[..|batches| - 1]) + Versions(batches[|batches| - 1].base, batches[|batches| - 1].ops)
  }

  ghost function Union(views: seq<iset<E.Entry>>): (r: iset<E.Entry>) {
    if views == [] then iset{} else Union(views[..|views| - 1]) + views[|views| - 1]
  }

  lemma LoggedLength(records: seq<Bytes>, batches: seq<Logged>)
    requires LoggedAs(records, batches)
    ensures |records| == |batches|
  {}

  lemma NextRecord(records: seq<Bytes>, batches: seq<Logged>, n: nat)
    requires LoggedAs(records, batches) && n < |records|
    ensures var rep, b := records[n], batches[n];
      && |rep| >= HEADER && DecodeFixed64(rep) == b.base && DecodeFixed32(rep[8..]) == |b.ops|
      && (|rep| > HEADER <==> b.ops != [])
      && Replay(rep[HEADER..], 0) == (b.ops, Some(|b.ops|)) && AllFit(b.ops)
      && b.base + |b.ops| <= MAX_SEQUENCE
  {
    hide Holds, Replay, DecodeFixed32, DecodeFixed64, AllFit;
    BatchReplays(records[n], batches[n].base, batches[n].ops);
    HoldsFit(records[n], batches[n].base, batches[n].ops);
    HeaderOf(records[n], batches[n].base, batches[n].ops);
    NoBytesNoOps(batches[n].ops);
  }

  lemma NoBytesNoOps(ops: seq<Op>)
    ensures EncodeOps(ops) == [] <==> ops == []
  {}

  /** Every batch has an operation. */
  ghost predicate NoneEmpty(batches: seq<Logged>) {
    forall b :: b in batches ==> b.ops != []
  }

  lemma NoneEmptyNext(batches: seq<Logged>, n: nat)
    requires n < |batches|
    ensures NoneEmpty(batches[..n + 1]) <==> NoneEmpty(batches[..n]) && batches[n].ops != []
    ensures NoneEmpty(batches) ==> batches[n].ops != []
  {
    assert batches[..n + 1] == batches[..n] + [batches[n]];
  }

  lemma UnionSnoc(views: seq<iset<E.Entry>>, view: iset<E.Entry>)
    ensures Union(views + [view]) == Union(views) + view
  {
    assert (views + [view])[..|views|] == views;
  }

  lemma {:induction false} AllVersionsConcat(a: seq<Logged>, b: seq<Logged>)
    ensures AllVersions(a + b) == AllVersions(a) + AllVersions(b)
  {
    hide Versions;
    if b == [] {
      assert a + b == a;
    } else {
      assert (a + b)[..|a + b| - 1] == a + b[..|b| - 1];
      AllVersionsConcat(a, b[..|b| - 1]);
    }
  }

  /** The sequence numbers of the batches stay at or below the maximum. */
  ghost predicate Covered(batches: seq<Logged>, max: nat) {
    forall b :: b in batches ==> b.base + |b.ops| <= max
  }

  /** The largest end of a batch, and 0 for none. */
  ghost predicate MaxOf(batches: seq<Logged>, max: nat) {
    Covered(batches, max) && (max == 0 || exists b :: b in batches && max == b.base + |b.ops|)
  }

  lemma MaxNext(batches: seq<Logged>, n: nat, max: nat)
    requires n < |batches| && MaxOf(batches[..n], max)
    ensures var last := batches[n].base + |batches[n].ops|;
      MaxOf(batches[..n + 1], if last > max then last else max)
  {
    var was, now := batches[..n], batches[..n + 1];
    assert now == was + [batches[n]];
    assert batches[n] in now;
    assert forall b :: b in was ==> b in now;
  }

  /** The j-th table holds the versions of the batches from cuts[j] to cuts[j + 1]. */
  ghost predicate TableIs(batches: seq<Logged>, flushed: seq<iset<E.Entry>>, cuts: seq<nat>, j: nat) {
    j < |flushed| && j + 1 < |cuts| ==>
      cuts[j] < cuts[j + 1] <= |batches| && flushed[j] == AllVersions(batches[cuts[j]..cuts[j + 1]])
  }

  /** Batch k begins a table exactly if the memtable was full before it. */
  ghost predicate BeginsTable(cuts: seq<nat>, full: nat -> bool, n: nat, k: nat) {
    0 < k < n ==> (k in cuts <==> full(k - 1))
  }

  /** The first n batches: the tables written, and what is in the open memtable. */
  ghost predicate TablesOf(batches: seq<Logged>, n: nat, flushed: seq<iset<E.Entry>>, cuts: seq<nat>,
      full: nat -> bool, open: iset<E.Entry>)
  {
    && |cuts| == |flushed| + 1 && cuts[0] == 0 && cuts[|flushed|] <= n <= |batches|
    && (forall j: nat :: TableIs(batches, flushed, cuts, j)) && (forall k: nat :: BeginsTable(cuts, full, n, k))
    && open == AllVersions(batches[cuts[|flushed|]..n])
  }

  lemma NoTables(batches: seq<Logged>, full: nat -> bool)
    ensures TablesOf(batches, 0, [], [0], full, iset{})
  {}

  lemma {:induction false} CutsAscend(batches: seq<Logged>, flushed: seq<iset<E.Entry>>, cuts: seq<nat>, j: nat)
    requires |cuts| == |flushed| + 1 && j <= |flushed| && forall j: nat :: TableIs(batches, flushed, cuts, j)
    ensures cuts[j] <= cuts[|flushed|]
    decreases |flushed| - j
  {
    if j < |flushed| {
      assert TableIs(batches, flushed, cuts, j);
      CutsAscend(batches, flushed, cuts, j + 1);
    }
  }

  /** One more batch in the open memtable: it begins one exactly if none was open. */
  lemma MoreInTable(batches: seq<Logged>, n: nat, flushed: seq<iset<E.Entry>>, cuts: seq<nat>, full: nat -> bool,
      open: iset<E.Entry>)
    requires TablesOf(batches, n, flushed, cuts, full, open) && n < |batches|
    requires n > 0 ==> (cuts[|flushed|] == n <==> full(n - 1))
    ensures TablesOf(batches, n + 1, flushed, cuts, full, open + Versions(batches[n].base, batches[n].ops))
  {
    hide Versions;
    var at, m := cuts[|flushed|], n + 1;
    assert batches[at..n + 1] == batches[at..n] + [batches[n]];
    assert batches[at..n + 1][..|batches[at..n + 1]| - 1] == batches[at..n];
    forall k: nat
      ensures BeginsTable(cuts, full, m, k)
    {
      assert BeginsTable(cuts, full, n, k);
      if k == n && n in cuts {
        var j :| 0 <= j < |cuts| && cuts[j] == n;
        CutsAscend(batches, flushed, cuts, j);
      }
    }
  }

  /** Writing the open memtable. */
  lemma TableWritten(batches: seq<Logged>, n: nat, flushed: seq<iset<E.Entry>>, cuts: seq<nat>, full: nat -> bool,
      open: iset<E.Entry>)
    requires TablesOf(batches, n, flushed, cuts, full, open) && cuts[|flushed|] < n
    ensures TablesOf(batches, n, flushed + [open], cuts + [n], full, iset{})
  {
    hide AllVersions;
    forall j: nat
      ensures TableIs(batches, flushed + [open], cuts + [n], j)
    {
      assert TableIs(batches, flushed, cuts, j);
    }
    forall k: nat
      ensures BeginsTable(cuts + [n], full, n, k)
    {
      assert BeginsTable(cuts, full, n, k);
    }
    assert batches[n..n] == [] && AllVersions([]) == iset{} by { NothingYet(batches); }
  }

  /** The tables together hold all batches up to the last cut. */
  lemma {:induction false} TablesUnion(batches: seq<Logged>, flushed: seq<iset<E.Entry>>, cuts: seq<nat>, j: nat)
    requires |cuts| == |flushed| + 1 && cuts[0] == 0 && j <= |flushed|
    requires forall j: nat :: TableIs(batches, flushed, cuts, j)
    ensures cuts[j] <= |batches| && Union(flushed[..j]) == AllVersions(batches[..cuts[j]])
  {
    hide AllVersions, Union;
    if j == 0 {
      NothingYet(batches);
      assert flushed[..0] == [];
    } else {
      TablesUnion(batches, flushed, cuts, j - 1);
      assert TableIs(batches, flushed, cuts, j - 1);
      var a, b := batches[..cuts[j - 1]], batches[cuts[j - 1]..cuts[j]];
      assert batches[..cuts[j]] == a + b && flushed[..j] == flushed[..j - 1] + [flushed[j - 1]];
      AllVersionsConcat(a, b);
      UnionSnoc(flushed[..j - 1], flushed[j - 1]);
    }
  }

  lemma AllTables(batches: seq<Logged>, flushed: seq<iset<E.Entry>>, cuts: seq<nat>, full: nat -> bool)
    requires TablesOf(batches, |batches|, flushed, cuts, full, iset{}) && cuts[|flushed|] == |batches|
    ensures Union(flushed) == AllVersions(batches)
  {
    hide AllVersions, Union;
    TablesUnion(batches, flushed, cuts, |flushed|);
    assert flushed[..|flushed|] == flushed && batches[..|batches|] == batches;
  }

  /** One record of the log, into the open memtable. */
  method RecoverRecord(rep: Bytes, ghost b: Logged, mem: Mem.MemTable, heights: nat -> nat, max: nat)
      returns (max': nat)
    requires mem.Valid() && (forall i :: 1 <= heights(i) <= S.MAX_HEIGHT)
    requires |rep| >= HEADER && DecodeFixed64(rep) == b.base && DecodeFixed32(rep[8..]) == |b.ops|
    requires Replay(rep[HEADER..], 0) == (b.ops, Some(|b.ops|)) && AllFit(b.ops) && b.base + |b.ops| <= MAX_SEQUENCE
    modifies mem.Repr()
    ensures mem.Valid() && fresh(mem.Repr() - old(mem.Repr()))
    ensures mem.View() == old(mem.View()) + Versions(b.base, b.ops)
    ensures max' == if b.base + |b.ops| > max then b.base + |b.ops| else max
  {
    hide Versions, Mem.MemTable.Valid, Mem.ViewOf, Replay, DecodeFixed32, DecodeFixed64, AllFit;
    var ok := InsertMemTable(rep, mem, heights);
    var last := DecodeFixed64(rep) + DecodeFixed32(rep[8..]);
    max' := if last > max then last else max;
  }

  /** DBImpl::RecoverLogFile: replays the log's records into memtables and writes each memtable to
      level 0 when it is full and at the end; `full` says after which records it is. Nothing is lost
      and nothing is added; the sequence number that recovery goes on from is above every one in the
      log. SetContent asserts that a batch is longer than its header: with assertions on, recovery
      aborts at a batch without operations, which a caller may well have written. */
  method RecoverLogFile(records: seq<Bytes>, ghost batches: seq<Logged>, full: nat -> bool, heights: nat -> nat,
                        asserts: bool)
      returns (done: bool, max: nat, ghost flushed: seq<iset<E.Entry>>, ghost cuts: seq<nat>)
    requires LoggedAs(records, batches) && forall i :: 1 <= heights(i) <= S.MAX_HEIGHT
    ensures done <==> (asserts ==> NoneEmpty(batches))
    ensures done ==> Union(flushed) == AllVersions(batches) && MaxOf(batches, max)
    ensures done ==> TablesOf(batches, |batches|, flushed, cuts, full, iset{}) && cuts[|flushed|] == |batches|
  {
    hide Versions, Holds, Mem.MemTable.Valid, Mem.ViewOf, Replay, DecodeFixed32, DecodeFixed64, Union, AllVersions,
        MaxOf, AllFit, LoggedAs, TablesOf, NoneEmpty;
    LoggedLength(records, batches);
    done, max, flushed, cuts := false, 0, [], [0];
    var mem: Mem.MemTable? := null;
    NoTables(batches, full);
    NoneCovered(batches[..0]);
    for n := 0 to |records|
      invariant !done && (asserts ==> NoneEmpty(batches[..n])) && MaxOf(batches[..n], max)
      invariant mem != null ==> mem.Valid() && fresh(mem.Repr())
      invariant TablesOf(batches, n, flushed, cuts, full, if mem == null then iset{} else mem.View())
      invariant |cuts| == |flushed| + 1 && if mem == null then cuts[|flushed|] == n else cuts[|flushed|] < n
      invariant n > 0 ==> (mem == null <==> full(n - 1))
    {
      NextRecord(records, batches, n);
      NoneEmptyNext(batches, n);
      if asserts && |records[n]| <= HEADER {
        return;
      }
      MaxNext(batches, n, max);
      if mem == null {
        mem := new Mem.MemTable();
      }
      MoreInTable(batches, n, flushed, cuts, full, mem.View());
      max := RecoverRecord(records[n], batches[n], mem, heights, max);
      if full(n) {
        TableWritten(batches, n + 1, flushed, cuts, full, mem.View());
        flushed, cuts := flushed + [mem.View()], cuts + [n + 1];
        mem := null;
      }
    }
    assert batches[..|batches|] == batches;
    if mem != null {
      TableWritten(batches, |batches|, flushed, cuts, full, mem.View());
      flushed, cuts := flushed + [mem.View()], cuts + [|batches|];
    }
    AllTables(batches, flushed, cuts, full);
    done := true;
  }

  lemma {:induction false} InAllVersions(batches: seq<Logged>, e: E.Entry)
    ensures e in AllVersions(batches) <==> exists b :: b in batches && e in Versions(b.base, b.ops)
  {
    hide Versions;
    if batches != [] {
      var front, b := batches[..|batches| - 1], batches[|batches| - 1];
      assert batches == front + [b];
      InAllVersions(front, e);
    }
  }

  lemma {:induction false} InUnion(views: seq<iset<E.Entry>>, e: E.Entry)
    ensures e in Union(views) <==> exists v :: v in views && e in v
  {
    if views != [] {
      var front, v := views[..|views| - 1], views[|views| - 1];
      assert views == front + [v];
      InUnion(front, e);
    }
  }

  /** What recovery writes to level 0: the value of every logged Put and a deletion for every
      logged Delete, each under its own number. */
  lemma OpRecovered(batches: seq<Logged>, flushed: seq<iset<E.Entry>>, b: Logged, i: nat) returns (view: iset<E.Entry>)
    requires Union(flushed) == AllVersions(batches) && b in batches && i < |b.ops|
    ensures view in flushed
    ensures match b.ops[i]
            case Put(k, v) => E.Entry(Rank(k), b.base + i, Some(v)) in view
            case Delete(k) => E.Entry(Rank(k), b.base + i, None) in view
  {
    hide Rank, Versions, AllVersions, Union;
    VersionStored(b.base, b.ops, i);
    var e := E.Entry(Rank(b.ops[i].key), b.base + i, if b.ops[i].Put? then Some(b.ops[i].value) else None);
    InAllVersions(batches, e);
    InUnion(flushed, e);
    view :| view in flushed && e in view;
  }

  /** And nothing else. */
  lemma OnlyOpsRecovered(batches: seq<Logged>, flushed: seq<iset<E.Entry>>, view: iset<E.Entry>, e: E.Entry)
      returns (b: Logged, i: nat)
    requires Union(flushed) == AllVersions(batches) && view in flushed && e in view
    ensures b in batches && i < |b.ops| && IsVersion(b.ops[i], b.base + i, e)
  {
    hide Rank, Versions, AllVersions, Union, IsVersion;
    InUnion(flushed, e);
    InAllVersions(batches, e);
    b :| b in batches && e in Versions(b.base, b.ops);
    i := NothingElseStored(b.base, b.ops, e);
  }

  lemma NoneCovered(batches: seq<Logged>)
    requires batches == []
    ensures MaxOf(batches, 0) && NoneEmpty(batches)
  {}

  lemma NothingYet(batches: seq<Logged>)
    ensures AllVersions(batches[..0]) == iset{} && Union([]) == iset{}
  {}

  /** After recovery, no sequence number of the log is used again. */
  lemma NumbersNotReused(batches: seq<Logged>, max: nat, b: Logged, i: nat)
    requires MaxOf(batches, max) && b in batches && i < |b.ops|
    ensures b.ops[i].ToRec(b.base + i).sn < max
  {}
}
