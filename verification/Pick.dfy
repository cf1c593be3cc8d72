/** Choosing the inputs of a compaction: key ranges, overlapping files and the set-up that
    PickCompaction makes of them. */
module Pick {
  import opened Base
  import opened Entries
  import opened Version

  predicate Overlaps(f: File, lo: UserKey, hi: UserKey) {
    f.Lo() <= hi && lo <= f.Hi()
  }

  function Overlapping(fs: seq<File>, lo: UserKey, hi: UserKey): (r: seq<File>)
    ensures forall f :: f in r <==> f in fs && Overlaps(f, lo, hi)
  {
    if fs == [] then []
    else Overlapping(fs[..|fs| - 1], lo, hi) + if Overlaps(fs[|fs| - 1], lo, hi) then [fs[|fs| - 1]] else []
  }

  /** Every file that meets the range lies inside it. */
  ghost predicate Closed(fs: seq<File>, lo: UserKey, hi: UserKey) {
    forall f :: f in fs && Overlaps(f, lo, hi) ==> lo <= f.Lo() && f.Hi() <= hi
  }

  /** The least range around [lo, hi] that is closed under overlap in `fs`. */
  ghost predicate LeastClosed(fs: seq<File>, lo: UserKey, hi: UserKey, lo': UserKey, hi': UserKey) {
    lo' <= lo && hi <= hi' && Closed(fs, lo', hi') && Needed(fs, lo, hi, lo', hi')
  }

  /** Every closed range around [lo, hi] contains [a, b]. */
  ghost predicate Needed(fs: seq<File>, lo: UserKey, hi: UserKey, a: UserKey, b: UserKey) {
    forall c, d :: c <= lo && hi <= d && Closed(fs, c, d) ==> c <= a && b <= d
  }

  lemma ClosedSnoc(fs: seq<File>, f: File, a: UserKey, b: UserKey)
    requires Closed(fs, a, b) && (Overlaps(f, a, b) ==> a <= f.Lo() && f.Hi() <= b)
    ensures Closed(fs + [f], a, b)
  {
    forall g | g in fs + [f] && Overlaps(g, a, b)
      ensures a <= g.Lo() && g.Hi() <= b
    {
      assert g in fs || g == f;
    }
  }

  lemma OverlappingSnoc(fs: seq<File>, f: File, a: UserKey, b: UserKey)
    ensures Overlapping(fs + [f], a, b) == Overlapping(fs, a, b) + if Overlaps(f, a, b) then [f] else []
  {
    assert (fs + [f])[..|fs|] == fs;
  }

  lemma NeededGrows(fs: seq<File>, lo: UserKey, hi: UserKey, a: UserKey, b: UserKey, f: File)
    requires Needed(fs, lo, hi, a, b) && f in fs && Overlaps(f, a, b)
    ensures Needed(fs, lo, hi, f.Lo(), b) && Needed(fs, lo, hi, a, f.Hi())
  {
    forall c, d | c <= lo && hi <= d && Closed(fs, c, d)
      ensures c <= a && b <= d && c <= f.Lo() && f.Hi() <= d
    {
      assert Overlaps(f, c, d);
    }
  }

  /** Files that stick out of the range: what bounds the number of restarts. */
  function Outside(fs: seq<File>, lo: UserKey, hi: UserKey): (n: nat) {
    if fs == [] then 0
    else Outside(fs[1..], lo, hi) + (if fs[0].Lo() < lo then 1 else 0) + (if fs[0].Hi() > hi then 1 else 0)
  }

  lemma {:induction false} OutsideShrinks(fs: seq<File>, lo: UserKey, hi: UserKey, lo': UserKey, hi': UserKey, f: File)
    requires lo' <= lo && hi <= hi'
    ensures Outside(fs, lo', hi') <= Outside(fs, lo, hi)
    ensures f in fs && ((lo' <= f.Lo() < lo) || (hi < f.Hi() <= hi')) ==> Outside(fs, lo', hi') < Outside(fs, lo, hi)
  {
    if fs != [] { OutsideShrinks(fs[1..], lo, hi, lo', hi', f); }
  }

  /** Where the scan over the files stands: i files seen, with the range [a, b] so far. */
  ghost predicate Scanned(fs: seq<File>, level0: bool, lo: UserKey, hi: UserKey, a: UserKey, b: UserKey, i: nat,
      input: seq<File>)
  {
    && i <= |fs| && input == Overlapping(fs[..i], a, b) && a <= lo && hi <= b
    && (if level0 then Closed(fs[..i], a, b) && Needed(fs, lo, hi, a, b) else a == lo && b == hi)
  }

  lemma ScanStarts(fs: seq<File>, level0: bool, lo: UserKey, hi: UserKey)
    ensures Scanned(fs, level0, lo, hi, lo, hi, 0, [])
  {}

  /** A file that needs no larger range. */
  lemma ScanOn(fs: seq<File>, level0: bool, lo: UserKey, hi: UserKey, a: UserKey, b: UserKey, i: nat, input: seq<File>)
    requires Scanned(fs, level0, lo, hi, a, b, i, input) && i < |fs|
    requires level0 && Overlaps(fs[i], a, b) ==> a <= fs[i].Lo() && fs[i].Hi() <= b
    ensures Scanned(fs, level0, lo, hi, a, b, i + 1, input + if Overlaps(fs[i], a, b) then [fs[i]] else [])
  {
    hide Closed, Needed, Overlapping;
    assert fs[..i + 1] == fs[..i] + [fs[i]];
    OverlappingSnoc(fs[..i], fs[i], a, b);
    if level0 { ClosedSnoc(fs[..i], fs[i], a, b); }
  }

  /** A file that sticks out: the scan starts over with a range that covers it. */
  lemma ScanAgain(fs: seq<File>, lo: UserKey, hi: UserKey, a: UserKey, b: UserKey, i: nat, input: seq<File>)
    requires Scanned(fs, true, lo, hi, a, b, i, input) && i < |fs| && Overlaps(fs[i], a, b)
    ensures fs[i].Lo() < a ==> Scanned(fs, true, lo, hi, fs[i].Lo(), b, 0, [])
    ensures fs[i].Hi() > b ==> Scanned(fs, true, lo, hi, a, fs[i].Hi(), 0, [])
  {
    NeededGrows(fs, lo, hi, a, b, fs[i]);
    hide Needed;
  }

  /** Version::GetOverlappingFiles: on level 0 the range grows to cover every file it meets, and
      the scan starts over each time it grows. */
  method GetOverlappingFiles(fs: seq<File>, level0: bool, lo: UserKey, hi: UserKey)
      returns (input: seq<File>, ghost lo': UserKey, ghost hi': UserKey)
    ensures input == Overlapping(fs, lo', hi')
    ensures !level0 ==> lo' == lo && hi' == hi
    ensures level0 ==> LeastClosed(fs, lo, hi, lo', hi')
  {
    var a, b, i := lo, hi, 0;
    input := [];
    ScanStarts(fs, level0, lo, hi);
    while i < |fs|
      invariant Scanned(fs, level0, lo, hi, a, b, i, input)
      decreases Outside(fs, a, b), |fs| - i
    {
      hide Scanned, Outside, Overlapping, Closed, Needed;
      var f := fs[i];
      if f.Lo() > b || f.Hi() < a || !level0 || (a <= f.Lo() && f.Hi() <= b) {
        ScanOn(fs, level0, lo, hi, a, b, i, input);
      } else {
        ScanAgain(fs, lo, hi, a, b, i, input);
      }
      i := i + 1;
      if f.Lo() > b {
      } else if f.Hi() < a {
      } else {
        input := input + [f];
        if level0 {
          if f.Lo() < a {
            OutsideShrinks(fs, a, b, f.Lo(), b, f);
            i, input := 0, [];
            a := f.Lo();
          } else if f.Hi() > b {
            OutsideShrinks(fs, a, b, a, f.Hi(), f);
            i, input := 0, [];
            b := f.Hi();
          }
        }
      }
    }
    assert fs[..|fs|] == fs;
    lo', hi' := a, b;
  }

  // ---------------------------------------------------------------- ranges

  /** `Core` is the code as written: it keeps the larger of two smallest keys and the smaller of two largest keys; the
      hull of the files needs the opposite comparisons. */
  datatype RangeRule = Core | Hull

  function First(f: File): (e: Entry) { f.entries[0] }

  function Last(f: File): (e: Entry) { f.entries[|f.entries| - 1] }

  ghost predicate IsHull(fs: seq<File>, s: Entry, l: Entry) {
    && (exists f :: f in fs && First(f) == s) && (exists f :: f in fs && Last(f) == l)
    && (forall f :: f in fs ==> !Before(First(f), s) && !Before(l, Last(f)))
  }

  /** The innermost bounds: latest start and earliest end. */
  ghost predicate IsCore(fs: seq<File>, s: Entry, l: Entry) {
    && (exists f :: f in fs && First(f) == s) && (exists f :: f in fs && Last(f) == l)
    && (forall f :: f in fs ==> !Before(s, First(f)) && !Before(Last(f), l))
  }

  lemma ExtendHull(fs: seq<File>, f: File, s: Entry, l: Entry)
    requires IsHull(fs, s, l)
    ensures IsHull(fs + [f], if Before(First(f), s) then First(f) else s, if Before(l, Last(f)) then Last(f) else l)
  {
    assert f in fs + [f] && forall g :: g in fs ==> g in fs + [f];
  }

  lemma ExtendCore(fs: seq<File>, f: File, s: Entry, l: Entry)
    requires IsCore(fs, s, l)
    ensures IsCore(fs + [f], if Before(s, First(f)) then First(f) else s, if Before(Last(f), l) then Last(f) else l)
  {
    assert f in fs + [f] && forall g :: g in fs ==> g in fs + [f];
  }

  ghost predicate IsRange(fs: seq<File>, rule: RangeRule, s: Entry, l: Entry) {
    if rule == Hull then IsHull(fs, s, l) else IsCore(fs, s, l)
  }

  lemma RangeOfOne(fs: seq<File>, rule: RangeRule)
    requires |fs| == 1
    ensures IsRange(fs, rule, First(fs[0]), Last(fs[0]))
  {
    assert fs[0] in fs;
  }

  /** VersionSet::GetRange. */
  method GetRange(fs: seq<File>, rule: RangeRule) returns (smallest: Entry, largest: Entry)
    requires fs != []
    ensures IsRange(fs, rule, smallest, largest)
  {
    smallest, largest := First(fs[0]), Last(fs[0]);
    assert fs[..1][0] == fs[0];
    RangeOfOne(fs[..1], rule);
    hide IsHull, IsCore, First, Last, Before;
    for i := 1 to |fs|
      invariant IsRange(fs[..i], rule, smallest, largest)
    {
      var f := fs[i];
      assert fs[..i + 1] == fs[..i] + [f];
      if rule == Core {
        ExtendCore(fs[..i], f, smallest, largest);
        if Before(smallest, First(f)) { smallest := First(f); }
        if Before(Last(f), largest) { largest := Last(f); }
      } else {
        ExtendHull(fs[..i], f, smallest, largest);
        if Before(First(f), smallest) { smallest := First(f); }
        if Before(largest, Last(f)) { largest := Last(f); }
      }
    }
    assert fs[..|fs|] == fs;
  }

  predicate SameKey(a: Entry, b: Entry) { a.key == b.key && a.sn == b.sn }

  /** As written, GetRange returns the hull exactly when all files have the same bounds. */
  lemma CoreIsHullIff(fs: seq<File>, s: Entry, l: Entry)
    requires IsCore(fs, s, l)
    ensures IsHull(fs, s, l) <==>
      forall f, g :: f in fs && g in fs ==> SameKey(First(f), First(g)) && SameKey(Last(f), Last(g))
  {
    if IsHull(fs, s, l) {
      forall f, g | f in fs && g in fs
        ensures SameKey(First(f), First(g)) && SameKey(Last(f), Last(g))
      {
        assert !Before(First(f), s) && !Before(s, First(f)) && !Before(First(g), s) && !Before(s, First(g));
        assert !Before(Last(f), l) && !Before(l, Last(f)) && !Before(Last(g), l) && !Before(l, Last(g));
      }
    }
  }

  // ---------------------------------------------------------------- boundary files

  function Above(fs: seq<File>, key: Entry): (n: nat) {
    if fs == [] then 0 else Above(fs[1..], key) + if Before(key, Last(fs[0])) then 1 else 0
  }

  lemma {:induction false} AboveShrinks(fs: seq<File>, key: Entry, f: File)
    requires f in fs && Before(key, Last(f))
    ensures Above(fs, Last(f)) < Above(fs, key)
  {
    if f == fs[0] { AboveLess(fs[1..], key, Last(f)); } else { AboveShrinks(fs[1..], key, f); }
  }

  lemma {:induction false} AboveLess(fs: seq<File>, key: Entry, key': Entry)
    requires Before(key, key')
    ensures Above(fs, key') <= Above(fs, key)
  {
    if fs != [] { AboveLess(fs[1..], key, key'); }
  }

  predicate Continues(key: Entry, f: File) {
    Before(key, Last(f)) && Last(f).key == key.key
  }

  /** FindSmallestBoundary: the file that continues `key`'s user key with the least last entry. */
  function SmallestBoundary(fs: seq<File>, key: Entry): (r: Option<File>)
    ensures r.Some? ==> r.value in fs && Continues(key, r.value)
    ensures r.None? ==> forall f :: f in fs ==> !Continues(key, f)
    ensures r.Some? ==> forall f :: f in fs && Continues(key, f) ==> !Before(Last(f), Last(r.value))
  {
    if fs == [] then None
    else
      var best := SmallestBoundary(fs[..|fs| - 1], key);
      var f := fs[|fs| - 1];
      assert fs == fs[..|fs| - 1] + [f];
      if Continues(key, f) && (best.None? || Before(Last(f), Last(best.value))) then Some(f) else best
  }

  function Boundaries(fs: seq<File>, key: Entry): (r: seq<File>)
    decreases Above(fs, key)
  {
    match SmallestBoundary(fs, key)
    case None => []
    case Some(f) => AboveShrinks(fs, key, f); [f] + Boundaries(fs, Last(f))
  }

  method FindSmallestBoundary(fs: seq<File>, key: Entry) returns (r: Option<File>)
    ensures r == SmallestBoundary(fs, key)
  {
    r := None;
    for i := 0 to |fs|
      invariant r == SmallestBoundary(fs[..i], key)
    {
      var f := fs[i];
      assert fs[..i + 1][..i] == fs[..i];
      if Before(key, Last(f)) && Last(f).key == key.key && (r.None? || Before(Last(f), Last(r.value))) {
        r := Some(f);
      }
    }
    assert fs[..|fs|] == fs;
  }

  function LargestKey(fs: seq<File>): (r: Entry)
    requires fs != []
    ensures (exists f :: f in fs && Last(f) == r) && forall f :: f in fs ==> !Before(r, Last(f))
  {
    assert fs == fs[..|fs| - 1] + [fs[|fs| - 1]];
    if |fs| == 1 then Last(fs[0])
    else
      var r := LargestKey(fs[..|fs| - 1]);
      if Before(r, Last(fs[|fs| - 1])) then Last(fs[|fs| - 1]) else r
  }

  lemma LargestNext(fs: seq<File>, i: nat)
    requires 0 < i < |fs|
    ensures var r := LargestKey(fs[..i]);
      LargestKey(fs[..i + 1]) == if Before(r, Last(fs[i])) then Last(fs[i]) else r
  {
    assert fs[..i + 1][..i] == fs[..i];
  }

  /** The first loop of AddBoundaryInputs. */
  method FindLargestKey(fs: seq<File>) returns (key: Entry)
    requires fs != []
    ensures key == LargestKey(fs)
  {
    key := Last(fs[0]);
    assert key == LargestKey(fs[..1]) by { assert fs[..1] == [fs[0]]; }
    hide LargestKey, Before, Last;
    for i := 1 to |fs|
      invariant key == LargestKey(fs[..i])
    {
      LargestNext(fs, i);
      if Before(key, Last(fs[i])) { key := Last(fs[i]); }
    }
    assert fs[..|fs|] == fs;
  }

  /** AddBoundaryInputs: the search starts from the largest key of the whole level. */
  method AddBoundaryInputs(fs: seq<File>, inputs: seq<File>) returns (r: seq<File>)
    ensures r == inputs + if fs == [] then [] else Boundaries(fs, LargestKey(fs))
  {
    hide LargestKey, SmallestBoundary, Before;
    if fs == [] { return inputs; }
    var key := FindLargestKey(fs);
    r := inputs;
    while true
      invariant r + Boundaries(fs, key) == inputs + Boundaries(fs, LargestKey(fs))
      decreases Above(fs, key)
    {
      var next := FindSmallestBoundary(fs, key);
      if next == None { return; }
      AboveShrinks(fs, key, next.value);
      r := r + [next.value];
      key := Last(next.value);
    }
  }

  /** Started from the level's largest key, the boundary search never finds a file: whatever the
      level, AddBoundaryInputs adds nothing. */
  lemma NoBoundaries(fs: seq<File>)
    requires fs != []
    ensures Boundaries(fs, LargestKey(fs)) == []
  {
    var r := SmallestBoundary(fs, LargestKey(fs));
    assert r.None?;
  }

  // ---------------------------------------------------------------- compaction inputs

  /** What a compaction of `level` needs of its inputs: some files of the level, on level 0
      together with every file whose range meets theirs, and exactly those files of the next
      level that meet their hull. */
  ghost predicate ValidInputs(v: Files, level: nat, in0: seq<File>, in1: seq<File>) {
    && |v| == LEVELS && level + 1 < LEVELS && in0 != []
    && (forall f :: f in in0 ==> f in v[level])
    && (level == 0 ==> forall f, g :: f in v[0] && f !in in0 && g in in0 ==> !Overlaps(f, g.Lo(), g.Hi()))
    && (exists s, l :: IsHull(in0, s, l) && NextInputs(v[level + 1], in1, s.key, l.key))
  }

  ghost predicate NextInputs(fs: seq<File>, in1: seq<File>, lo: UserKey, hi: UserKey) {
    forall h :: h in in1 <==> h in fs && Overlaps(h, lo, hi)
  }

  function TotalSize(fs: seq<File>, size: File -> nat): (n: nat) {
    if fs == [] then 0 else TotalSize(fs[..|fs| - 1], size) + size(fs[|fs| - 1])
  }

  /** No file outside the inputs meets one inside: what level 0 needs. */
  ghost predicate SelfContained(fs: seq<File>, in0: seq<File>) {
    forall f, g :: f in fs && f !in in0 && g in in0 ==> !Overlaps(f, g.Lo(), g.Hi())
  }

  lemma ClosedIsSelfContained(fs: seq<File>, lo: UserKey, hi: UserKey)
    requires Closed(fs, lo, hi)
    ensures SelfContained(fs, Overlapping(fs, lo, hi))
  {}

  lemma {:induction false} OverlappingLess(fs: seq<File>, lo: UserKey, hi: UserKey, lo': UserKey, hi': UserKey,
      size: File -> nat)
    requires lo <= lo' && hi' <= hi
    ensures TotalSize(Overlapping(fs, lo', hi'), size) <= TotalSize(Overlapping(fs, lo, hi), size)
  {
    if fs != [] {
      var front, f := fs[..|fs| - 1], fs[|fs| - 1];
      OverlappingLess(front, lo, hi, lo', hi', size);
      TotalSizeSnoc(Overlapping(front, lo', hi'), f, size);
      TotalSizeSnoc(Overlapping(front, lo, hi), f, size);
    }
  }

  lemma TotalSizeSnoc(fs: seq<File>, f: File, size: File -> nat)
    ensures TotalSize(fs + [f], size) == TotalSize(fs, size) + size(f)
    ensures TotalSize(fs + [], size) == TotalSize(fs, size)
  {
    assert (fs + [f])[..|fs|] == fs && fs + [] == fs;
  }

  lemma {:induction false} OverlappingOne(fs: seq<File>, lo: UserKey, hi: UserKey, seed: File)
    requires Disjoint(fs) && forall f :: f in fs && Overlaps(f, lo, hi) ==> f == seed
    ensures Overlapping(fs, lo, hi) == [] || Overlapping(fs, lo, hi) == [seed]
  {
    if fs != [] {
      var front, f := fs[..|fs| - 1], fs[|fs| - 1];
      OverlappingOne(front, lo, hi, seed);
      if Overlaps(f, lo, hi) && Overlapping(front, lo, hi) != [] {
        assert Overlapping(front, lo, hi)[0] in Overlapping(front, lo, hi);
        var i :| 0 <= i < |front| && front[i] == seed;
        InBounds(seed, First(seed));
      }
    }
  }

  /** As written, the attempt to grow the first input set starts from a range inside it and so
      never finds more. */
  lemma NeverGrows(v: Files, level: nat, in0: seq<File>, in1: seq<File>, seed: File, s: Entry, l: Entry,
                   a: UserKey, b: UserKey, x: UserKey, y: UserKey, size: File -> nat)
    requires Shape(v) && level + 1 < LEVELS && seed in in0 && IsCore(in0 + in1, s, l)
    requires if level == 0 then
        && in0 == Overlapping(v[0], a, b) && Closed(v[0], a, b) && LeastClosed(v[0], s.key, l.key, x, y)
      else in0 == [seed] && seed in v[level] && x == s.key && y == l.key
    ensures TotalSize(Overlapping(v[level], x, y), size) <= TotalSize(in0, size)
  {
    assert seed in in0 + in1;
    assert First(seed).key <= s.key && l.key <= Last(seed).key;
    if level == 0 {
      assert Overlaps(seed, a, b);
      assert a <= s.key && l.key <= b;
      OverlappingLess(v[0], a, b, x, y, size);
    } else {
      forall f | f in v[level] && Overlaps(f, x, y)
        ensures f == seed
      {
        assert f.Lo() <= seed.Hi() && seed.Lo() <= f.Hi();
        var i :| 0 <= i < |v[level]| && v[level][i] == f;
        var j :| 0 <= j < |v[level]| && v[level][j] == seed;
      }
      OverlappingOne(v[level], x, y, seed);
      TotalSizeSnoc([], seed, size);
      assert [] + [seed] == [seed];
    }
  }

  /** The range of a set of files contains each of them, when it is the hull. */
  lemma HullCovers(fs: seq<File>, s: Entry, l: Entry, f: File)
    requires IsHull(fs, s, l) && f in fs
    ensures s.key <= f.Lo() <= f.Hi() <= l.key
  {
    InBounds(f, First(f));
  }

  method Grow(fs: seq<File>, level0: bool, lo: UserKey, hi: UserKey) returns (r: seq<File>, ghost x: UserKey,
      ghost y: UserKey)
    ensures r == Overlapping(fs, x, y)
    ensures if level0 then LeastClosed(fs, lo, hi, x, y) else x == lo && y == hi
  {
    r, x, y := GetOverlappingFiles(fs, level0, lo, hi);
    if fs != [] { NoBoundaries(fs); }
    r := AddBoundaryInputs(fs, r);
  }

  ghost predicate NoRepeats(fs: seq<File>) {
    forall i, j :: 0 <= i < j < |fs| ==> fs[i] != fs[j]
  }

  /** The inputs are in the order of their levels, and no file is taken twice. */
  ghost predicate InOrder(v: Files, level: nat, in0: seq<File>, in1: seq<File>)
    requires level < |v|
  {
    && Disjoint(in1) && (level > 0 ==> Disjoint(in0)) && (NoRepeats(v[level]) ==> NoRepeats(in0))
  }

  lemma {:induction false} OverlappingOrder(fs: seq<File>, lo: UserKey, hi: UserKey)
    ensures Disjoint(fs) ==> Disjoint(Overlapping(fs, lo, hi))
    ensures NoRepeats(fs) ==> NoRepeats(Overlapping(fs, lo, hi))
  {
    if fs != [] {
      var front, f := fs[..|fs| - 1], fs[|fs| - 1];
      OverlappingOrder(front, lo, hi);
      var r := Overlapping(front, lo, hi);
      forall i | 0 <= i < |r|
        ensures Disjoint(fs) ==> r[i].Hi() < f.Lo()
        ensures NoRepeats(fs) ==> r[i] != f
      {
        assert r[i] in front;
      }
    }
  }

  lemma OneInOrder(f: File)
    ensures Disjoint([f]) && NoRepeats([f])
  {}

  /** The first choice: on level 0 what meets the chosen file, and what meets that, and so on, and no
      more; elsewhere the file alone. */
  ghost predicate FirstSet(v: Files, level: nat, seed: File, in0: seq<File>)
    requires level < |v|
  {
    if level == 0 then exists a, b :: LeastClosed(v[0], seed.Lo(), seed.Hi(), a, b) && in0 == Overlapping(v[0], a, b)
    else in0 == [seed]
  }

  /** The files of the next level that meet the range of the first inputs. */
  ghost predicate NextSet(v: Files, level: nat, rule: RangeRule, in0: seq<File>, in1: seq<File>)
    requires level + 1 < |v|
  {
    exists s, l :: IsRange(in0, rule, s, l) && in1 == Overlapping(v[level + 1], s.key, l.key)
  }

  /** What the first inputs could grow to: the files of their level that meet the range of all inputs. */
  ghost predicate GrownSet(v: Files, level: nat, rule: RangeRule, in0: seq<File>, in1: seq<File>, grown: seq<File>)
    requires level < |v|
  {
    exists s, l :: IsRange(in0 + in1, rule, s, l) && GrownTo(v[level], level == 0, s.key, l.key, grown)
  }

  ghost predicate GrownTo(fs: seq<File>, level0: bool, lo: UserKey, hi: UserKey, grown: seq<File>) {
    exists x, y :: grown == Overlapping(fs, x, y)
      && if level0 then LeastClosed(fs, lo, hi, x, y) else x == lo && y == hi
  }

  /** The inputs as they were first chosen, and what they could grow to. */
  datatype Choice = Choice(in0: seq<File>, in1: seq<File>, grown0: seq<File>, grown1: seq<File>)

  /** Growing pays, and keeps within the limit. */
  predicate Pays(c: Choice, size: File -> nat, limit: nat) {
    c.in1 != [] && TotalSize(c.in0, size) < TotalSize(c.grown0, size) < limit
  }

  ghost predicate Chosen(v: Files, level: nat, seed: File, rule: RangeRule, size: File -> nat, limit: nat, c: Choice)
    requires level + 1 < |v|
  {
    && FirstSet(v, level, seed, c.in0) && NextSet(v, level, rule, c.in0, c.in1)
    && (c.in1 != [] ==> GrownSet(v, level, rule, c.in0, c.in1, c.grown0))
    && (Pays(c, size, limit) ==> NextSet(v, level, rule, c.grown0, c.grown1))
  }

  /** PickCompaction from its chosen file on: grow level 0 inputs to the least closed range, add the
      next level's files that meet the range, and then grow the first set if that makes it larger
      within the limit and the second set no larger. `size` is the recorded file size, `limit` the
      expansion limit; c records the sets on the way. */
  method SetUpInputs(v: Files, level: nat, seed: File, rule: RangeRule, size: File -> nat, limit: nat)
      returns (in0: seq<File>, in1: seq<File>, ghost c: Choice)
    requires Shape(v) && level + 1 < LEVELS && seed in v[level]
    ensures Chosen(v, level, seed, rule, size, limit, c)
    ensures if Pays(c, size, limit) && |c.grown1| == |c.in1| then in0 == c.grown0 && in1 == c.grown1
            else in0 == c.in0 && in1 == c.in1
    ensures rule == Core ==> !Pays(c, size, limit)
    ensures seed in in0 && (forall f :: f in in0 ==> f in v[level])
    ensures level == 0 ==> SelfContained(v[0], in0)
    ensures exists s, l :: IsRange(in0, rule, s, l) && NextInputs(v[level + 1], in1, s.key, l.key)
    ensures InOrder(v, level, in0, in1)
  {
    hide IsHull, IsCore, Closed, LeastClosed, Newer, Disjoint, Stacked, TotalSize, Overlapping, NoRepeats;
    ghost var a, b, x, y;
    in0, a, b := FirstInputs(v, level, seed, rule);
    var s, l := GetRange(in0, rule);
    in1, x, y := Grow(v[level + 1], false, s.key, l.key);
    c := Choice(in0, in1, [], []);
    OverlappingOrder(v[level + 1], x, y);
    if level == 0 { OverlappingOrder(v[0], a, b); } else { OneInOrder(seed); }
    if in1 != [] {
      var s1, l1 := GetRange(in0 + in1, rule);
      var grown: seq<File>;
      grown, x, y := Grow(v[level], level == 0, s1.key, l1.key);
      c := c.(grown0 := grown);
      assert GrownTo(v[level], level == 0, s1.key, l1.key, grown);
      if rule == Core { NeverGrows(v, level, in0, in1, seed, s1, l1, a, b, x, y, size); }
      if TotalSize(grown, size) > TotalSize(in0, size) && TotalSize(grown, size) < limit {
        HullCovers(in0 + in1, s1, l1, seed);
        GrownInputs(v, level, s1.key, l1.key, x, y, seed);
        var s2, l2 := GetRange(grown, rule);
        var grown1: seq<File>;
        OverlappingOrder(v[level], x, y);
        grown1, x, y := Grow(v[level + 1], false, s2.key, l2.key);
        c := c.(grown1 := grown1);
        OverlappingOrder(v[level + 1], x, y);
        if |grown1| == |in1| {
          in0, in1 := grown, grown1;
          s, l := s2, l2;
        }
      }
    }
  }

  lemma GrownInputs(v: Files, level: nat, lo: UserKey, hi: UserKey, x: UserKey, y: UserKey, seed: File)
    requires |v| == LEVELS && level < LEVELS && seed in v[level] && lo <= seed.Lo() <= seed.Hi() <= hi
    requires if level == 0 then LeastClosed(v[0], lo, hi, x, y) else x == lo && y == hi
    ensures seed in Overlapping(v[level], x, y)
    ensures level == 0 ==> SelfContained(v[0], Overlapping(v[0], x, y))
  {
    if level == 0 { ClosedIsSelfContained(v[0], x, y); }
  }

  method FirstInputs(v: Files, level: nat, seed: File, rule: RangeRule)
      returns (in0: seq<File>, ghost a: UserKey, ghost b: UserKey)
    requires Shape(v) && level + 1 < LEVELS && seed in v[level]
    ensures seed in in0 && (forall f :: f in in0 ==> f in v[level])
    ensures if level == 0 then in0 == Overlapping(v[0], a, b) && Closed(v[0], a, b) && SelfContained(v[0], in0)
              && LeastClosed(v[0], seed.Lo(), seed.Hi(), a, b)
            else in0 == [seed]
  {
    hide Newer, Disjoint, Stacked, LevelEntries;
    in0, a, b := [seed], 0.0, 0.0;
    if level == 0 {
      var s, l := GetRange(in0, rule);
      in0, a, b := Grow(v[0], true, s.key, l.key);
      assert seed in [seed];
      InBounds(seed, First(seed));
      ClosedIsSelfContained(v[0], a, b);
    }
    in0 := AddBoundaryInputs(v[level], in0);
    NoBoundaries(v[level]);
  }

  /** With the hull, the chosen inputs are what a compaction needs. */
  lemma HullInputsValid(v: Files, level: nat, in0: seq<File>, in1: seq<File>)
    requires |v| == LEVELS && level + 1 < LEVELS && in0 != [] && (forall f :: f in in0 ==> f in v[level])
    requires level == 0 ==> SelfContained(v[0], in0)
    requires exists s, l :: IsHull(in0, s, l) && NextInputs(v[level + 1], in1, s.key, l.key)
    ensures ValidInputs(v, level, in0, in1)
  {}

  /** As written, the inputs are what a compaction needs exactly when no file of the next level
      that meets the hull of the first inputs misses their common core. */
  lemma CoreInputsValidIff(v: Files, level: nat, in0: seq<File>, in1: seq<File>, s: Entry, l: Entry, s': Entry,
      l': Entry)
    requires |v| == LEVELS && level + 1 < LEVELS && in0 != [] && (forall f :: f in in0 ==> f in v[level])
    requires level == 0 ==> SelfContained(v[0], in0)
    requires IsCore(in0, s, l) && NextInputs(v[level + 1], in1, s.key, l.key)
    requires IsHull(in0, s', l')
    ensures ValidInputs(v, level, in0, in1) <==>
      forall h :: h in v[level + 1] && Overlaps(h, s'.key, l'.key) ==> Overlaps(h, s.key, l.key)
  {
    forall s2, l2 | IsHull(in0, s2, l2)
      ensures s2.key == s'.key && l2.key == l'.key
    {}
    assert s'.key <= s.key && l.key <= l'.key;
  }

  /** With a single first input, as for every level but 0, the range is right as written. */
  lemma SingleInputValid(v: Files, level: nat, f: File, in1: seq<File>, s: Entry, l: Entry)
    requires |v| == LEVELS && level + 1 < LEVELS && f in v[level]
    requires level == 0 ==> SelfContained(v[0], [f])
    requires IsCore([f], s, l) && NextInputs(v[level + 1], in1, s.key, l.key)
    ensures ValidInputs(v, level, [f], in1)
  {
    assert f in [f];
    assert IsHull([f], First(f), Last(f));
    assert s == First(f) && l == Last(f);
  }

  /** Two level 0 files that overlap, and a next-level file behind the first but under the second:
      as written, it is left out although the inputs reach to both sides of it. */
  lemma CoreMissesInput(v: Files, in0: seq<File>, in1: seq<File>, f: File, g: File, h: File)
    requires |v| == LEVELS && f in in0 && g in in0 && h in v[1]
    requires f.Lo() < g.Lo() <= f.Hi() < h.Lo() <= h.Hi() <= g.Hi()
    requires exists s, l :: IsRange(in0, Core, s, l) && NextInputs(v[1], in1, s.key, l.key)
    ensures !ValidInputs(v, 0, in0, in1)
  {
    var s, l :| IsRange(in0, Core, s, l) && NextInputs(v[1], in1, s.key, l.key);
    assert l.key <= f.Hi();
    assert !Overlaps(h, s.key, l.key) && h !in in1;
    forall s', l' | IsHull(in0, s', l')
      ensures !NextInputs(v[1], in1, s'.key, l'.key)
    {
      HullCovers(in0, s', l', f);
      HullCovers(in0, s', l', g);
      assert Overlaps(h, s'.key, l'.key);
    }
  }
}
