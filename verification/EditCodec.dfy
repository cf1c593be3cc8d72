/** VersionEdit::EncodeTo and DecodeFrom: the records of the manifest, byte by byte. */
module EditCodec {
  import opened Base
  import opened Coding
  import Version

  const W35: nat := 0x8_0000_0000

  /** One field of an edit, as it stands in a record. */
  datatype Item =
    | LogNumber(number: nat)
    | LastSequence(number: nat)
    | NextFile(number: nat)
    | ComparatorName(name: Bytes)
    | NewFile(level: nat, number: nat, size: nat, smallest: Bytes, largest: Bytes)
    | DeleteFile(level: nat, number: nat)
    | Pointer(level: nat, key: Bytes)
  {
    function Tag(): (t: nat)
      ensures 1 <= t <= 7
    {
      match this
      case LogNumber(_) => 1
      case LastSequence(_) => 2
      case NextFile(_) => 3
      case ComparatorName(_) => 4
      case NewFile(_, _, _, _, _) => 5
      case DeleteFile(_, _) => 6
      case Pointer(_, _) => 7
    }

    function Body(): (r: Bytes) {
      match this
      case LogNumber(n) => Varint(n)
      case LastSequence(n) => Varint(n)
      case NextFile(n) => Varint(n)
      case ComparatorName(s) => LengthPrefixed(s)
      case NewFile(l, n, size, lo, hi) =>
        Varint(l) + (Varint(n) + (Varint(size) + (LengthPrefixed(lo) + LengthPrefixed(hi))))
      case DeleteFile(l, n) => Varint(l) + Varint(n)
      case Pointer(l, k) => Varint(l) + LengthPrefixed(k)
    }

    function Encode(): (r: Bytes) {
      Varint(Tag()) + Body()
    }

    /** What the types and the callers guarantee. */
    predicate Fits() {
      match this
      case LogNumber(n) => n < W64
      case LastSequence(n) => n < W64
      case NextFile(n) => n < W64
      case ComparatorName(s) => |s| < W32
      case NewFile(l, n, size, lo, hi) => l < Version.LEVELS && n < W64 && size < W64 && |lo| < W32 && |hi| < W32
      case DeleteFile(l, n) => l < Version.LEVELS && n < W64
      case Pointer(l, k) => l < Version.LEVELS && |k| < W32
    }

    /** All 64-bit numbers in the item are below the bound. */
    predicate Under(bound: nat) {
      match this
      case LogNumber(n) => n < bound
      case LastSequence(n) => n < bound
      case NextFile(n) => n < bound
      case ComparatorName(_) => true
      case NewFile(_, n, size, _, _) => n < bound && size < bound
      case DeleteFile(_, n) => n < bound
      case Pointer(_, _) => true
    }

    /** The item with its 64-bit numbers cut to 32 bits. */
    function Cut(): (r: Item) {
      match this
      case LogNumber(n) => LogNumber(n % W32)
      case LastSequence(n) => LastSequence(n % W32)
      case NextFile(n) => NextFile(n % W32)
      case ComparatorName(_) => this
      case NewFile(l, n, size, lo, hi) => NewFile(l, n % W32, size % W32, lo, hi)
      case DeleteFile(l, n) => DeleteFile(l, n % W32)
      case Pointer(_, _) => this
    }
  }

  function ParseLevel(p: Bytes): (r: Parse<nat>)
    ensures r.Parsed? ==> |r.rest| < |p|
  {
    match GetVarint32(p)
    case Parsed(v, rest) => if v < Version.LEVELS then Parsed(v, rest) else Bad
    case Bad => Bad
    case Undefined => Undefined
  }

  /** One case of the switch in DecodeFrom. */
  function ParseBody(tag: nat, p: Bytes): (r: Parse<Item>)
    ensures r.Parsed? ==> |r.rest| <= |p|
  {
    if tag == 1 || tag == 2 || tag == 3 then
      match GetVarint64(p)
      case Parsed(n, rest) =>
        Parsed(if tag == 1 then LogNumber(n) else if tag == 2 then LastSequence(n) else NextFile(n), rest)
      case Bad => Bad
      case Undefined => Undefined
    else if tag == 4 then
      match GetLengthPrefixed(p)
      case Parsed(s, rest) => Parsed(ComparatorName(s), rest)
      case Bad => Bad
      case Undefined => Undefined
    else if tag == 5 || tag == 6 || tag == 7 then
      match ParseLevel(p)
      case Parsed(l, q) => ParseLeveled(tag, l, q)
      case Bad => Bad
      case Undefined => Undefined
    else Bad
  }

  function ParseLeveled(tag: nat, l: nat, p: Bytes): (r: Parse<Item>)
    ensures r.Parsed? ==> |r.rest| <= |p|
  {
    if tag == 7 then
      match GetLengthPrefixed(p)
      case Parsed(k, rest) => Parsed(Pointer(l, k), rest)
      case Bad => Bad
      case Undefined => Undefined
    else
      match GetVarint64(p)
      case Parsed(n, q) => if tag == 6 then Parsed(DeleteFile(l, n), q) else ParseNewFile(l, n, q)
      case Bad => Bad
      case Undefined => Undefined
  }

  function ParseNewFile(l: nat, n: nat, p: Bytes): (r: Parse<Item>)
    ensures r.Parsed? ==> |r.rest| <= |p|
  {
    match GetVarint64(p)
    case Bad => Bad
    case Undefined => Undefined
    case Parsed(size, q) =>
      match GetLengthPrefixed(q)
      case Bad => Bad
      case Undefined => Undefined
      case Parsed(lo, q2) =>
        match GetLengthPrefixed(q2)
        case Bad => Bad
        case Undefined => Undefined
        case Parsed(hi, rest) => Parsed(NewFile(l, n, size, lo, hi), rest)
  }

  /** A 64-bit varint that the decoder gets through loses its high bits. */
  lemma Varint64Cuts(v: nat, rest: Bytes)
    ensures GetVarint64(Varint(v) + rest) == if v < W35 then Parsed(v % W32, rest) else Undefined
  {
    Units();
    hide Unit, Varint;
    Varint64AtRoundTrip(v, 0, 0, rest);
  }

  /** An item comes back cut to 32 bits, or not at all. */
  lemma BodyCuts(item: Item, rest: Bytes)
    requires item.Fits()
    ensures ParseBody(item.Tag(), item.Body() + rest) == if item.Under(W35) then Parsed(item.Cut(), rest) else Undefined
  {
    hide Varint, GetVarint64, GetVarint32, LengthPrefixed, GetLengthPrefixed;
    match item
    case LogNumber(n) => Varint64Cuts(n, rest);
    case LastSequence(n) => Varint64Cuts(n, rest);
    case NextFile(n) => Varint64Cuts(n, rest);
    case ComparatorName(s) => LengthPrefixedRoundTrip(s, rest);
    case NewFile(l, n, size, lo, hi) => NewFileCuts(l, n, size, lo, hi, rest);
    case DeleteFile(l, n) =>
      assert item.Body() + rest == Varint(l) + (Varint(n) + rest);
      Varint32RoundTrip(l, Varint(n) + rest);
      Varint64Cuts(n, rest);
    case Pointer(l, k) =>
      assert item.Body() + rest == Varint(l) + (LengthPrefixed(k) + rest);
      Varint32RoundTrip(l, LengthPrefixed(k) + rest);
      LengthPrefixedRoundTrip(k, rest);
  }

  lemma NewFileCuts(l: nat, n: nat, size: nat, lo: Bytes, hi: Bytes, rest: Bytes)
    requires l < Version.LEVELS && |lo| < W32 && |hi| < W32
    ensures ParseBody(5, NewFile(l, n, size, lo, hi).Body() + rest) ==
      if n < W35 && size < W35 then Parsed(NewFile(l, n % W32, size % W32, lo, hi), rest) else Undefined
  {
    hide Varint, GetVarint64, GetVarint32, LengthPrefixed, GetLengthPrefixed;
    var a := LengthPrefixed(hi) + rest;
    var b := LengthPrefixed(lo) + a;
    var c := Varint(size) + b;
    var d := Varint(n) + c;
    assert NewFile(l, n, size, lo, hi).Body() + rest == Varint(l) + d;
    Varint32RoundTrip(l, d);
    Varint64Cuts(n, c);
    Varint64Cuts(size, b);
    LengthPrefixedRoundTrip(lo, a);
    LengthPrefixedRoundTrip(hi, rest);
  }

  // ---------------------------------------------------------------- edits

  datatype Added = Added(level: nat, number: nat, size: nat, smallest: Bytes, largest: Bytes)

  /** A VersionEdit. The deleted files are a std::set: kept in increasing order. */
  datatype Edit = Edit(
    logNumber: Option<nat>, lastSequence: Option<nat>, nextFile: Option<nat>, comparator: Option<Bytes>,
    added: seq<Added>, deleted: seq<(nat, nat)>, pointers: seq<(nat, Bytes)>)

  const EMPTY: Edit := Edit(None, None, None, None, [], [], [])

  predicate PairLess(a: (nat, nat), b: (nat, nat)) {
    a.0 < b.0 || (a.0 == b.0 && a.1 < b.1)
  }

  ghost predicate Ordered(ps: seq<(nat, nat)>) {
    forall i, j :: 0 <= i < j < |ps| ==> PairLess(ps[i], ps[j])
  }

  /** std::set::emplace. */
  function Emplace(ps: seq<(nat, nat)>, p: (nat, nat)): (r: seq<(nat, nat)>) {
    if ps == [] || PairLess(p, ps[0]) then [p] + ps
    else if p == ps[0] then ps
    else [ps[0]] + Emplace(ps[1..], p)
  }

  lemma {:induction false} EmplaceElements(ps: seq<(nat, nat)>, p: (nat, nat))
    ensures forall q :: q in Emplace(ps, p) <==> q in ps || q == p
  {
    if ps != [] {
      EmplaceElements(ps[1..], p);
      assert ps == [ps[0]] + ps[1..];
    }
  }

  lemma {:induction false} EmplaceLast(ps: seq<(nat, nat)>, p: (nat, nat))
    requires Ordered(ps + [p])
    ensures Emplace(ps, p) == ps + [p]
  {
    if ps != [] {
      assert (ps + [p])[0] == ps[0] && (ps + [p])[|ps|] == p;
      assert forall i, j :: 0 <= i < j < |ps[1..] + [p]| ==>
        (ps[1..] + [p])[i] == (ps + [p])[i + 1] && (ps[1..] + [p])[j] == (ps + [p])[j + 1];
      EmplaceLast(ps[1..], p);
      assert ps == [ps[0]] + ps[1..];
    }
  }

  /** What DecodeFrom does with an item. */
  function Add(e: Edit, item: Item): (r: Edit) {
    match item
    case LogNumber(n) => e.(logNumber := Some(n))
    case LastSequence(n) => e.(lastSequence := Some(n))
    case NextFile(n) => e.(nextFile := Some(n))
    case ComparatorName(s) => e.(comparator := Some(s))
    case NewFile(l, n, size, lo, hi) => e.(added := e.added + [Added(l, n, size, lo, hi)])
    case DeleteFile(l, n) => e.(deleted := Emplace(e.deleted, (l, n)))
    case Pointer(l, k) => e.(pointers := e.pointers + [(l, k)])
  }

  function AddAll(e: Edit, items: seq<Item>): (r: Edit) {
    if items == [] then e else Add(AddAll(e, items[..|items| - 1]), items[|items| - 1])
  }

  function EncodeItems(items: seq<Item>): (r: Bytes) {
    if items == [] then [] else items[0].Encode() + EncodeItems(items[1..])
  }

  /** DecodeFrom on top of what is already there. Bytes that do not begin with a varint end it
      without an error. */
  function Decode(e: Edit, p: Bytes): (r: Parse<Edit>)
    decreases |p|
  {
    match GetVarint32(p)
    case Bad => Parsed(e, p)
    case Undefined => Undefined
    case Parsed(tag, q) =>
      match ParseBody(tag, q)
      case Bad => Bad
      case Undefined => Undefined
      case Parsed(item, rest) => Decode(Add(e, item), rest)
  }

  // ---------------------------------------------------------------- encoding

  function Maybe(item: Item, present: bool): (r: seq<Item>) {
    if present then [item] else []
  }

  function Heads(e: Edit): (r: seq<Item>) {
    Maybe(LogNumber(if e.logNumber.Some? then e.logNumber.value else 0), e.logNumber.Some?)
    + Maybe(LastSequence(if e.lastSequence.Some? then e.lastSequence.value else 0), e.lastSequence.Some?)
    + Maybe(NextFile(if e.nextFile.Some? then e.nextFile.value else 0), e.nextFile.Some?)
    + Maybe(ComparatorName(if e.comparator.Some? then e.comparator.value else []), e.comparator.Some?)
  }

  function AddedItem(a: Added): (r: Item) {
    NewFile(a.level, a.number, a.size, a.smallest, a.largest)
  }

  function AddedItems(added: seq<Added>): (r: seq<Item>)
    ensures |r| == |added| && forall i :: 0 <= i < |r| ==> r[i] == AddedItem(added[i])
  {
    seq(|added|, i requires 0 <= i < |added| => AddedItem(added[i]))
  }

  function DeletedItems(deleted: seq<(nat, nat)>): (r: seq<Item>)
    ensures |r| == |deleted| && forall i :: 0 <= i < |r| ==> r[i] == DeleteFile(deleted[i].0, deleted[i].1)
  {
    seq(|deleted|, i requires 0 <= i < |deleted| => DeleteFile(deleted[i].0, deleted[i].1))
  }

  function PointerItems(pointers: seq<(nat, Bytes)>): (r: seq<Item>)
    ensures |r| == |pointers| && forall i :: 0 <= i < |r| ==> r[i] == Pointer(pointers[i].0, pointers[i].1)
  {
    seq(|pointers|, i requires 0 <= i < |pointers| => Pointer(pointers[i].0, pointers[i].1))
  }

  /** The fields of an edit in the order they are written. */
  function Items(e: Edit): (r: seq<Item>) {
    Heads(e) + AddedItems(e.added) + DeletedItems(e.deleted) + PointerItems(e.pointers)
  }

  lemma {:induction false} EncodeAppend(a: seq<Item>, b: seq<Item>)
    ensures EncodeItems(a + b) == EncodeItems(a) + EncodeItems(b)
  {
    if a == [] {
      assert a + b == b;
    } else {
      assert (a + b)[1..] == a[1..] + b;
      EncodeAppend(a[1..], b);
    }
  }

  lemma EncodeSnoc(items: seq<Item>, n: nat)
    requires n < |items|
    ensures EncodeItems(items[..n + 1]) == EncodeItems(items[..n]) + items[n].Encode()
  {
    assert items[..n + 1] == items[..n] + [items[n]];
    EncodeAppend(items[..n], [items[n]]);
    assert EncodeItems([items[n]]) == items[n].Encode() + EncodeItems([]);
  }

  /** The optional fields. */
  method EncodeHeads(e: Edit) returns (dst: Bytes)
    ensures dst == EncodeItems(Heads(e))
  {
    hide Item.Encode, EncodeItems;
    NothingEncoded();
    dst := [];
    ghost var done: seq<Item> := [];
    if e.logNumber.Some? { dst, done := EncodeNext(dst, done, LogNumber(e.logNumber.value)); }
    if e.lastSequence.Some? { dst, done := EncodeNext(dst, done, LastSequence(e.lastSequence.value)); }
    if e.nextFile.Some? { dst, done := EncodeNext(dst, done, NextFile(e.nextFile.value)); }
    if e.comparator.Some? { dst, done := EncodeNext(dst, done, ComparatorName(e.comparator.value)); }
    assert done == Heads(e);
  }

  /** VersionEdit::EncodeTo. */
  method EncodeTo(e: Edit) returns (dst: Bytes)
    ensures dst == EncodeItems(Items(e))
  {
    hide Item.Encode, EncodeItems, Heads;
    dst := EncodeHeads(e);
    ghost var done := Heads(e);
    for i := 0 to |e.added|
      invariant dst == EncodeItems(done) && done == Heads(e) + AddedItems(e.added)[..i]
    {
      dst, done := EncodeNext(dst, done, AddedItem(e.added[i]));
    }
    ghost var front := done;
    assert front == Heads(e) + AddedItems(e.added);
    for i := 0 to |e.deleted|
      invariant dst == EncodeItems(done) && done == front + DeletedItems(e.deleted)[..i]
    {
      dst, done := EncodeNext(dst, done, DeleteFile(e.deleted[i].0, e.deleted[i].1));
    }
    front := done;
    assert front == Heads(e) + AddedItems(e.added) + DeletedItems(e.deleted);
    for i := 0 to |e.pointers|
      invariant dst == EncodeItems(done) && done == front + PointerItems(e.pointers)[..i]
    {
      dst, done := EncodeNext(dst, done, Pointer(e.pointers[i].0, e.pointers[i].1));
    }
    assert done == Items(e);
  }

  method EncodeNext(dst: Bytes, ghost done: seq<Item>, item: Item) returns (dst': Bytes, ghost done': seq<Item>)
    requires dst == EncodeItems(done)
    ensures done' == done + [item] && dst' == EncodeItems(done')
  {
    hide Item.Encode;
    done' := done + [item];
    EncodeSnoc(done', |done|);
    assert done'[..|done|] == done && done'[..|done| + 1] == done';
    dst' := dst + item.Encode();
  }

  lemma NothingEncoded()
    ensures EncodeItems([]) == []
  {}

  /** VersionEdit::DecodeFrom. */
  method DecodeFrom(src: Bytes) returns (r: Parse<Edit>)
    ensures r == Decode(EMPTY, src)
  {
    hide Add, ParseBody, GetVarint32;
    var e, input := EMPTY, src;
    while true
      invariant Decode(e, input) == Decode(EMPTY, src)
      decreases |input|
    {
      var tag := GetVarint32(input);
      if tag == Undefined { return Undefined; }
      if tag == Bad { return Parsed(e, input); }
      var item := ParseBody(tag.value, tag.rest);
      if item == Bad { return Bad; }
      if item == Undefined { return Undefined; }
      e, input := Add(e, item.value), item.rest;
    }
  }

  // ---------------------------------------------------------------- round trip

  ghost predicate AllUnder(items: seq<Item>, bound: nat) {
    forall i :: 0 <= i < |items| ==> items[i].Under(bound)
  }

  ghost predicate AllFit(items: seq<Item>) {
    forall i :: 0 <= i < |items| ==> items[i].Fits()
  }

  function CutAll(items: seq<Item>): (r: seq<Item>)
    ensures |r| == |items| && forall i :: 0 <= i < |r| ==> r[i] == items[i].Cut()
  {
    seq(|items|, i requires 0 <= i < |items| => items[i].Cut())
  }

  lemma {:induction false} AddFirst(e: Edit, item: Item, items: seq<Item>)
    ensures AddAll(e, [item] + items) == AddAll(Add(e, item), items)
    decreases |items|
  {
    hide Add;
    if items == [] {
      assert [item][..0] == [];
    } else {
      var front := items[..|items| - 1];
      assert ([item] + items)[..|items|] == [item] + front;
      AddFirst(e, item, front);
    }
  }

  /** What any list of items decodes to: every 64-bit number loses its high bits, and one of 2^35
      or more brings the decoder into undefined territory. */
  lemma {:induction false} DecodeIs(e: Edit, items: seq<Item>)
    requires AllFit(items)
    ensures Decode(e, EncodeItems(items)) ==
      if AllUnder(items, W35) then Parsed(AddAll(e, CutAll(items)), []) else Undefined
    decreases |items|
  {
    hide Add, ParseBody, Item.Body, Item.Cut, Item.Fits, Item.Under, Varint, GetVarint32;
    if items == [] {
      DecodeNothing(e);
    } else {
      var item, rest := items[0], items[1..];
      var tail := EncodeItems(rest);
      assert EncodeItems(items) == Varint(item.Tag()) + (item.Body() + tail);
      Varint32RoundTrip(item.Tag(), item.Body() + tail);
      BodyCuts(item, tail);
      assert items == [item] + rest;
      if item.Under(W35) {
        DecodeIs(Add(e, item.Cut()), rest);
        AddFirst(e, item.Cut(), CutAll(rest));
        assert CutAll(items) == [item.Cut()] + CutAll(rest);
      }
    }
  }

  lemma DecodeNothing(e: Edit)
    ensures Decode(e, []) == Parsed(e, [])
  {}

  lemma AddSnoc(e: Edit, items: seq<Item>, item: Item)
    ensures AddAll(e, items + [item]) == Add(AddAll(e, items), item)
  {
    assert (items + [item])[..|items|] == items;
  }

  lemma AddMaybe(e: Edit, items: seq<Item>, item: Item, present: bool)
    ensures AddAll(e, items + Maybe(item, present)) == if present then Add(AddAll(e, items), item) else AddAll(e, items)
  {
    if present { AddSnoc(e, items, item); } else { assert items + [] == items; }
  }

  lemma RebuildHeads(e: Edit)
    ensures AddAll(EMPTY, Heads(e)) == EMPTY.(
      logNumber := e.logNumber, lastSequence := e.lastSequence, nextFile := e.nextFile, comparator := e.comparator)
  {
    hide AddAll, Maybe;
    var a := LogNumber(if e.logNumber.Some? then e.logNumber.value else 0);
    var b := LastSequence(if e.lastSequence.Some? then e.lastSequence.value else 0);
    var c := NextFile(if e.nextFile.Some? then e.nextFile.value else 0);
    var d := ComparatorName(if e.comparator.Some? then e.comparator.value else []);
    var as', bs := Maybe(a, e.logNumber.Some?), Maybe(b, e.lastSequence.Some?);
    var cs := Maybe(c, e.nextFile.Some?);
    NoneAdded(EMPTY);
    assert [] + as' == as';
    AddMaybe(EMPTY, [], a, e.logNumber.Some?);
    AddMaybe(EMPTY, as', b, e.lastSequence.Some?);
    AddMaybe(EMPTY, as' + bs, c, e.nextFile.Some?);
    AddMaybe(EMPTY, as' + bs + cs, d, e.comparator.Some?);
  }

  lemma NoneAdded(e: Edit)
    ensures AddAll(e, []) == e
  {}

  lemma {:induction false} RebuildAdded(e: Edit, front: seq<Item>, n: nat)
    requires n <= |e.added| && AddAll(EMPTY, front).added == []
    ensures AddAll(EMPTY, front + AddedItems(e.added[..n])) == AddAll(EMPTY, front).(added := e.added[..n])
  {
    hide AddAll;
    if n == 0 {
      assert front + AddedItems(e.added[..0]) == front && e.added[..0] == [];
    } else {
      RebuildAdded(e, front, n - 1);
      AddSnoc(EMPTY, front + AddedItems(e.added[..n - 1]), AddedItem(e.added[n - 1]));
      assert front + AddedItems(e.added[..n]) == front + AddedItems(e.added[..n - 1]) + [AddedItem(e.added[n - 1])];
      assert e.added[..n] == e.added[..n - 1] + [e.added[n - 1]];
    }
  }

  lemma {:induction false} RebuildDeleted(e: Edit, front: seq<Item>, n: nat)
    requires n <= |e.deleted| && Ordered(e.deleted) && AddAll(EMPTY, front).deleted == []
    ensures AddAll(EMPTY, front + DeletedItems(e.deleted[..n])) == AddAll(EMPTY, front).(deleted := e.deleted[..n])
  {
    hide AddAll;
    if n == 0 {
      assert front + DeletedItems(e.deleted[..0]) == front && e.deleted[..0] == [];
    } else {
      var was, p := e.deleted[..n - 1], e.deleted[n - 1];
      RebuildDeleted(e, front, n - 1);
      AddSnoc(EMPTY, front + DeletedItems(was), DeleteFile(p.0, p.1));
      assert front + DeletedItems(e.deleted[..n]) == front + DeletedItems(was) + [DeleteFile(p.0, p.1)];
      assert e.deleted[..n] == was + [p];
      EmplaceLast(was, p);
    }
  }

  lemma {:induction false} RebuildPointers(e: Edit, front: seq<Item>, n: nat)
    requires n <= |e.pointers| && AddAll(EMPTY, front).pointers == []
    ensures AddAll(EMPTY, front + PointerItems(e.pointers[..n])) == AddAll(EMPTY, front).(pointers := e.pointers[..n])
  {
    hide AddAll;
    if n == 0 {
      assert front + PointerItems(e.pointers[..0]) == front && e.pointers[..0] == [];
    } else {
      var was, p := e.pointers[..n - 1], e.pointers[n - 1];
      RebuildPointers(e, front, n - 1);
      AddSnoc(EMPTY, front + PointerItems(was), Pointer(p.0, p.1));
      assert front + PointerItems(e.pointers[..n]) == front + PointerItems(was) + [Pointer(p.0, p.1)];
      assert e.pointers[..n] == was + [p];
    }
  }

  /** The fields of an edit, added up, give the edit. */
  lemma Rebuild(e: Edit)
    requires Ordered(e.deleted)
    ensures AddAll(EMPTY, Items(e)) == e
  {
    hide AddAll, Heads;
    RebuildHeads(e);
    assert e.added[..|e.added|] == e.added && e.deleted[..|e.deleted|] == e.deleted
        && e.pointers[..|e.pointers|] == e.pointers;
    RebuildAdded(e, Heads(e), |e.added|);
    RebuildDeleted(e, Heads(e) + AddedItems(e.added), |e.deleted|);
    RebuildPointers(e, Heads(e) + AddedItems(e.added) + DeletedItems(e.deleted), |e.pointers|);
  }

  // ---------------------------------------------------------------- the 32-bit boundary

  ghost predicate SmallNumber(n: Option<nat>) {
    n.Some? ==> n.value < W32
  }

  /** Every number in the edit fits in 32 bits. */
  ghost predicate Small(e: Edit) {
    && SmallNumber(e.logNumber) && SmallNumber(e.lastSequence) && SmallNumber(e.nextFile)
    && (forall a :: a in e.added ==> a.number < W32 && a.size < W32)
    && (forall d :: d in e.deleted ==> d.1 < W32)
  }

  lemma AddKeepsSmall(e: Edit, item: Item)
    requires Small(e) && item.Under(W32)
    ensures Small(Add(e, item))
  {
    if item.DeleteFile? { EmplaceElements(e.deleted, (item.level, item.number)); }
  }

  lemma {:induction false} AllSmall(items: seq<Item>)
    requires AllUnder(items, W32)
    ensures Small(AddAll(EMPTY, items))
  {
    hide Add, Small;
    if items == [] {
      EmptySmall();
    } else {
      AllSmall(items[..|items| - 1]);
      AddKeepsSmall(AddAll(EMPTY, items[..|items| - 1]), items[|items| - 1]);
    }
  }

  lemma EmptySmall()
    ensures Small(EMPTY)
  {}

  lemma UnderConcat(a: seq<Item>, b: seq<Item>, bound: nat)
    requires AllUnder(a, bound) && AllUnder(b, bound)
    ensures AllUnder(a + b, bound)
  {
    hide Item.Under;
  }

  lemma SmallParts(e: Edit)
    requires Small(e)
    ensures AllUnder(Heads(e), W32) && AllUnder(AddedItems(e.added), W32)
    ensures AllUnder(DeletedItems(e.deleted), W32) && AllUnder(PointerItems(e.pointers), W32)
  {}

  lemma SmallItems(e: Edit)
    requires Small(e)
    ensures AllUnder(Items(e), W32)
  {
    hide AllUnder;
    SmallParts(e);
    UnderConcat(Heads(e), AddedItems(e.added), W32);
    UnderConcat(Heads(e) + AddedItems(e.added), DeletedItems(e.deleted), W32);
    UnderConcat(Heads(e) + AddedItems(e.added) + DeletedItems(e.deleted), PointerItems(e.pointers), W32);
  }

  lemma CutUnder(items: seq<Item>)
    ensures AllUnder(CutAll(items), W32)
  {}

  lemma CutNothing(items: seq<Item>)
    requires AllUnder(items, W32)
    ensures CutAll(items) == items && AllUnder(items, W35)
  {
    forall i | 0 <= i < |items|
      ensures items[i].Cut() == items[i] && items[i].Under(W35)
    {
      assert items[i].Under(W32);
    }
  }

  /** An edit decodes to itself exactly when all its numbers are below 2^32. */
  lemma EditRoundTripIff(e: Edit)
    requires Ordered(e.deleted) && AllFit(Items(e))
    ensures Decode(EMPTY, EncodeItems(Items(e))) == Parsed(e, []) <==> Small(e)
  {
    hide Decode, EncodeItems, Items, AddAll, Small, AllUnder;
    var items := Items(e);
    DecodeIs(EMPTY, items);
    Rebuild(e);
    CutUnder(items);
    AllSmall(CutAll(items));
    if Small(e) {
      SmallItems(e);
      CutNothing(items);
    }
  }
}
