/** A merge compaction as a change of versions: what it does to the shape and to the versions of
    each key, under both drop rules. */
module Merge {
  import opened Base
  import opened Entries
  import opened Version
  import opened Manifest
  import opened Pick
  import opened Compaction
  import opened Edits

  /** A compaction under way: its inputs and the version they were picked from. */
  datatype Job = Job(level: nat, in0: seq<File>, in1: seq<File>, input: Files)

  /** The current version still holds the inputs: below level 0 nothing has changed, and level 0
      has only gained files that are newer than everything in the input version. */
  ghost predicate JobOk(v: Files, j: Job) {
    && |v| == |j.input| == LEVELS && Shape(j.input) && ValidInputs(j.input, j.level, j.in0, j.in1)
    && (forall l :: 1 <= l < LEVELS ==> v[l] == j.input[l])
    && (forall f :: f in j.input[0] ==> f in v[0])
    && (forall f :: f in v[0] && f !in j.input[0] ==> Newer(Contents(f.entries), VersionEntries(j.input)))
  }

  /** The merged iterator's output: every input entry, in order. */
  ghost predicate Merged(input: seq<Entry>, in0: seq<File>, in1: seq<File>) {
    Sorted(input) && forall e :: e in input <==> InInputs(in0, in1, e)
  }

  function FileEntries(outs: seq<File>): (r: seq<seq<Entry>>)
    ensures |r| == |outs|
  {
    if outs == [] then [] else [outs[0].entries] + FileEntries(outs[1..])
  }

  /** The output files hold the survivors of the merge, cut anywhere. */
  ghost predicate OutputsOf(outs: seq<File>, input: seq<Entry>, rule: DropRule, j: Job) {
    Flatten(FileEntries(outs)) == Survive(input, None, rule, j.input, j.level)
  }

  lemma {:induction false} CutIs(outs: seq<File>)
    ensures forall e :: e in Flatten(FileEntries(outs)) <==> InLevel(outs, e)
  {
    if outs != [] {
      CutIs(outs[1..]);
      var rest := outs[1..];
      assert FileEntries(outs)[1..] == FileEntries(rest);
      forall e
        ensures InLevel(outs, e) <==> e in outs[0].entries || InLevel(rest, e)
      {
        if InLevel(outs, e) {
          var f :| f in outs && e in f.entries;
          assert outs == [outs[0]] + rest;
        }
      }
    }
  }

  /** Files cut from entries with increasing keys are disjoint. */
  lemma {:induction false} CutApart(outs: seq<File>)
    requires KeysIncrease(Flatten(FileEntries(outs)))
    ensures forall o, p :: o in outs && p in outs && o != p ==> Apart(o, p)
  {
    if outs != [] {
      var o, rest := outs[0], outs[1..];
      var es, more := o.entries, Flatten(FileEntries(rest));
      assert FileEntries(outs)[1..] == FileEntries(rest);
      assert Flatten(FileEntries(outs)) == es + more;
      assert KeysIncrease(more) by {
        assert forall i :: 0 <= i < |more| ==> more[i] == (es + more)[|es| + i];
      }
      CutApart(rest);
      CutIs(rest);
      forall p | p in rest
        ensures o.Hi() < p.Lo()
      {
        assert InLevel(rest, First(p));
        var i :| 0 <= i < |more| && more[i] == First(p);
        assert (es + more)[|es| - 1] == Last(o) && (es + more)[|es| + i] == First(p);
      }
      assert outs == [o] + rest;
    }
  }

  /** A lower file that misses the hull is on one side of it, and so is each of the lower inputs,
      on the other. */
  lemma BesideLower(fs: seq<File>, g: File, h: File, lo: UserKey, hi: UserKey, e: Entry)
    requires Disjoint(fs) && g in fs && h in fs && Overlaps(g, lo, hi) && !Overlaps(h, lo, hi) && lo <= hi
    requires e in g.entries
    ensures h.Hi() < lo ==> h.Hi() < e.key
    ensures hi < h.Lo() ==> e.key < h.Lo()
  {
    InBounds(g, e);
    InBounds(h, First(h));
    DisjointIsApart(fs, g, h);
  }

  /** A lower file outside the inputs lies below all input keys or above all of them. */
  lemma BesideInputs(j: Job, h: File, s: Entry, l: Entry)
    requires |j.input| == LEVELS && j.level + 1 < LEVELS && Disjoint(j.input[j.level + 1]) && j.in0 != []
    requires IsHull(j.in0, s, l) && NextInputs(j.input[j.level + 1], j.in1, s.key, l.key)
    requires h in j.input[j.level + 1] && h !in j.in1
    ensures (forall e :: InInputs(j.in0, j.in1, e) ==> h.Hi() < e.key)
         || (forall e :: InInputs(j.in0, j.in1, e) ==> e.key < h.Lo())
  {
    hide Disjoint, IsHull;
    assert !Overlaps(h, s.key, l.key);
    HullCovers(j.in0, s, l, j.in0[0]);
    forall e | InInputs(j.in0, j.in1, e)
      ensures h.Hi() < s.key ==> h.Hi() < e.key
      ensures l.key < h.Lo() ==> e.key < h.Lo()
    {
      if InLevel(j.in0, e) {
        var f :| f in j.in0 && e in f.entries;
        HullCovers(j.in0, s, l, f);
        InBounds(f, e);
      } else {
        var g :| g in j.in1 && e in g.entries;
        BesideLower(j.input[j.level + 1], g, h, s.key, l.key, e);
      }
    }
  }

  /** On the upper level, a file outside the inputs is newer than the first inputs wherever they
      share a key. */
  lemma LeftIsNewer(v: Files, j: Job, f: File)
    requires JobOk(v, j) && f in v[j.level] && f !in j.in0
    ensures Newer(Contents(f.entries), LevelEntries(j.in0))
  {
    if f in j.input[j.level] {
      NoSharedKeys(j.input, j.level, j.in0, j.in1, f);
    } else {
      assert Newer(Contents(f.entries), VersionEntries(j.input));
      hide Newer;
      NewerThanPart(f, j.input, j.level, j.in0);
    }
  }

  lemma NewerThanPart(f: File, v: Files, level: nat, in0: seq<File>)
    requires level < |v| && (forall g :: g in in0 ==> g in v[level])
    requires Newer(Contents(f.entries), VersionEntries(v))
    ensures Newer(Contents(f.entries), LevelEntries(in0))
  {
    forall b | InLevel(in0, b)
      ensures InVersion(v, b)
    {
      var g :| g in in0 && b in g.entries;
      assert InLevel(v[level], b);
    }
  }

  lemma NoSharedKeys(v: Files, level: nat, in0: seq<File>, in1: seq<File>, f: File)
    requires ValidInputs(v, level, in0, in1) && (level > 0 ==> Disjoint(v[level]))
    requires f in v[level] && f !in in0
    ensures Newer(Contents(f.entries), LevelEntries(in0))
  {
    forall a, b | a in f.entries && InLevel(in0, b)
      ensures a.key != b.key
    {
      var g :| g in in0 && b in g.entries;
      InBounds(f, a);
      InBounds(g, b);
      if level > 0 { DisjointIsApart(v[level], f, g); }
    }
  }

  lemma InputsPresent(v: Files, j: Job)
    requires JobOk(v, j)
    ensures |v| == LEVELS && j.level + 1 < LEVELS
    ensures (forall f :: f in j.in0 ==> f in v[j.level]) && (forall f :: f in j.in1 ==> f in v[j.level + 1])
  {
    var s, l :| IsHull(j.in0, s, l) && NextInputs(j.input[j.level + 1], j.in1, s.key, l.key);
  }

  /** The outputs of a repaired merge can take the place of its inputs. */
  lemma RepairedReplaceable(v: Files, j: Job, input: seq<Entry>, outs: seq<File>)
    requires JobOk(v, j) && Merged(input, j.in0, j.in1) && OutputsOf(outs, input, Repaired, j)
    ensures Replaceable(v, j.level, j.in0, j.in1, outs)
  {
    hide JobOk, KeysIncrease, Survive, Replaceable, Sorted, Apart;
    SurviveSorted(input, None, Repaired, j.input, j.level);
    CutApart(outs);
    OutputsReplaceable(v, j, input, outs, Repaired);
  }

  /** So can the outputs of any merge, if their user-key ranges are disjoint. */
  lemma OutputsReplaceable(v: Files, j: Job, input: seq<Entry>, outs: seq<File>, rule: DropRule)
    requires JobOk(v, j) && Merged(input, j.in0, j.in1) && OutputsOf(outs, input, rule, j)
    requires forall o, p :: o in outs && p in outs && o != p ==> Apart(o, p)
    ensures Replaceable(v, j.level, j.in0, j.in1, outs)
  {
    InputsPresent(v, j);
    SurviveIs(input, None, rule, j.input, j.level);
    CutIs(outs);
    hide Survive, JobOk;
    forall f | f in v[j.level] && f !in j.in0
      ensures Newer(Contents(f.entries), LevelEntries(j.in0))
    {
      LeftIsNewer(v, j, f);
    }
    forall o, e | o in outs && e in o.entries
      ensures InInputs(j.in0, j.in1, e)
    {
      assert InLevel(outs, e);
      assert e in input;
    }
    forall h, o | h in v[j.level + 1] && h !in j.in1 && o in outs
      ensures Apart(h, o)
    {
      LowerFile(v, j, h);
      assert InInputs(j.in0, j.in1, First(o)) && InInputs(j.in0, j.in1, Last(o));
    }
  }

  lemma LowerFile(v: Files, j: Job, h: File)
    requires JobOk(v, j) && h in v[j.level + 1] && h !in j.in1
    ensures (forall e :: InInputs(j.in0, j.in1, e) ==> h.Hi() < e.key)
         || (forall e :: InInputs(j.in0, j.in1, e) ==> e.key < h.Lo())
  {
    hide Newer, Stacked, Disjoint, LevelEntries, IsHull;
    var s, l :| IsHull(j.in0, s, l) && NextInputs(j.input[j.level + 1], j.in1, s.key, l.key);
    BesideInputs(j, h, s, l);
  }

  // ---------------------------------------------------------------- versions of a key

  /** A version lies in one file only. */
  lemma OneFile(v: Files, l: nat, f: File, m: nat, g: File, e: Entry)
    requires Shape(v) && l < LEVELS && m < LEVELS && f in v[l] && g in v[m] && e in f.entries && e in g.entries
    ensures l == m && f == g
  {
    assert e in LevelEntries(v[l]) && e in LevelEntries(v[m]);
    assert e in Contents(f.entries) && e in Contents(g.entries);
    if l == m > 0 { SameFile(v[l], f, g, e, e); }
  }

  /** What a version set holds after a merge, under either drop rule: everything but the input
      versions that did not survive. */
  lemma MergeKeeps(v: Files, v': Files, j: Job, input: seq<Entry>, outs: seq<File>, rule: DropRule)
    requires JobOk(v, j) && Shape(v) && Merged(input, j.in0, j.in1) && OutputsOf(outs, input, rule, j)
    requires Replaced(v, v', j.level, j.in0, j.in1, outs)
    ensures forall e :: e in VersionEntries(v') <==>
      e in VersionEntries(v) && (e in input ==> e in Survive(input, None, rule, j.input, j.level))
  {
    CutIs(outs);
    SurviveIs(input, None, rule, j.input, j.level);
    var kept := Survive(input, None, rule, j.input, j.level);
    hide Survive, JobOk, Shape;
    forall e
      ensures e in VersionEntries(v') <==> e in VersionEntries(v) && (e in input ==> e in kept)
    {
      if InVersion(v', e) {
        var l :| 0 <= l < |v'| && InLevel(v'[l], e);
        var f :| f in v'[l] && e in f.entries;
        MergedFrom(v, v', j, input, outs, kept, l, f, e);
      }
      if InVersion(v, e) && (e in input ==> e in kept) {
        var l :| 0 <= l < |v| && InLevel(v[l], e);
        var f :| f in v[l] && e in f.entries;
        MergedTo(v, v', j, input, outs, kept, l, f, e);
      }
    }
  }

  lemma MergedFrom(v: Files, v': Files, j: Job, input: seq<Entry>, outs: seq<File>, kept: seq<Entry>, l: nat,
      f: File, e: Entry)
    requires JobOk(v, j) && Shape(v) && Replaced(v, v', j.level, j.in0, j.in1, outs)
    requires forall x :: x in input <==> InInputs(j.in0, j.in1, x)
    requires forall x :: x in kept <==> InLevel(outs, x)
    requires (forall x :: x in kept ==> x in input) && l < LEVELS && f in v'[l] && e in f.entries
    ensures e in VersionEntries(v) && (e in input ==> e in kept)
  {
    hide JobOk, Shape;
    if f in outs {
      assert InLevel(outs, e);
      InputInVersion(v, j, e);
    } else {
      assert f in v[l] && InLevel(v[l], e);
      if e in input { InputFile(v, j, l, f, e); }
    }
  }

  lemma MergedTo(v: Files, v': Files, j: Job, input: seq<Entry>, outs: seq<File>, kept: seq<Entry>, l: nat, f: File,
      e: Entry)
    requires Replaced(v, v', j.level, j.in0, j.in1, outs) && (e in input ==> e in kept)
    requires e in input <==> InInputs(j.in0, j.in1, e)
    requires e in kept <==> InLevel(outs, e)
    requires l < LEVELS && f in v[l] && e in f.entries
    ensures e in VersionEntries(v')
  {
    if e in input {
      var o :| o in outs && e in o.entries;
      assert InLevel(v'[j.level + 1], e);
    } else {
      assert InLevel(v'[l], e) by { assert f in v'[l]; }
    }
  }

  lemma InputInVersion(v: Files, j: Job, e: Entry)
    requires JobOk(v, j) && InInputs(j.in0, j.in1, e)
    ensures e in VersionEntries(v)
  {
    InputsPresent(v, j);
    if InLevel(j.in0, e) {
      var f :| f in j.in0 && e in f.entries;
      assert InLevel(v[j.level], e);
    } else {
      var f :| f in j.in1 && e in f.entries;
      assert InLevel(v[j.level + 1], e);
    }
  }

  /** The file of an input version is an input. */
  lemma InputFile(v: Files, j: Job, l: nat, f: File, e: Entry)
    requires JobOk(v, j) && Shape(v) && l < LEVELS && f in v[l] && e in f.entries && InInputs(j.in0, j.in1, e)
    ensures if l == j.level then f in j.in0 else l == j.level + 1 && f in j.in1
  {
    hide Shape, JobOk;
    InputsPresent(v, j);
    if InLevel(j.in0, e) {
      var g :| g in j.in0 && e in g.entries;
      OneFile(v, l, f, j.level, g, e);
    } else {
      var g :| g in j.in1 && e in g.entries;
      OneFile(v, l, f, j.level + 1, g, e);
    }
  }

  /** A version older than an input version of the same key, but outside the inputs, lies at least
      two levels below the compacted one: the compaction's base-level test sees it. */
  lemma OlderIsDeeper(v: Files, j: Job, e: Entry, x: Entry)
    requires JobOk(v, j) && Shape(v) && InInputs(j.in0, j.in1, e)
    requires x in VersionEntries(v) && !InInputs(j.in0, j.in1, x) && x.key == e.key && x.sn < e.sn
    ensures !IsBase(j.input, j.level, e.key)
  {
    hide Shape, ValidInputs, Newer;
    var l :| 0 <= l < |v| && InLevel(v[l], x);
    var f :| f in v[l] && x in f.entries;
    InBounds(f, x);
    NotShallower(v, j, e, x, l);
    assert f !in j.in0 && f !in j.in1;
    if l == j.level { NotBeside(v, j, e, x, f); }
    if l == j.level + 1 { LowerFile(v, j, f); }
    assert l >= j.level + 2;
    assert f in j.input[l];
  }

  lemma NotBeside(v: Files, j: Job, e: Entry, x: Entry, f: File)
    requires JobOk(v, j) && InLevel(j.in0, e) && x.key == e.key && x.sn < e.sn
    requires f in v[j.level] && x in f.entries
    ensures f in j.in0
  {
    assert x in Contents(f.entries) && e in LevelEntries(j.in0);
    if f !in j.in0 { LeftIsNewer(v, j, f); }
  }

  lemma NotShallower(v: Files, j: Job, e: Entry, x: Entry, l: nat)
    requires JobOk(v, j) && Shape(v) && InInputs(j.in0, j.in1, e) && x.key == e.key && x.sn < e.sn
    requires l < LEVELS && InLevel(v[l], x)
    ensures l >= if InLevel(j.in0, e) then j.level else j.level + 1
  {
    hide JobOk, Distinct, Stacked, Disjoint;
    InputsPresent(v, j);
    assert x in LevelEntries(v[l]);
    if InLevel(j.in0, e) {
      var g :| g in j.in0 && e in g.entries;
      assert e in LevelEntries(v[j.level]);
    } else {
      var g :| g in j.in1 && e in g.entries;
      assert e in LevelEntries(v[j.level + 1]);
    }
  }

  ghost predicate Bounded(es: iset<Entry>, n: nat) {
    forall e :: e in es ==> e.sn <= n
  }

  /** A repaired merge removes the older versions of each key, and the deletions at the base level. */
  lemma RepairedKeeps(v: Files, v': Files, j: Job, input: seq<Entry>, outs: seq<File>)
    requires JobOk(v, j) && Shape(v) && Merged(input, j.in0, j.in1) && OutputsOf(outs, input, Repaired, j)
    requires Replaced(v, v', j.level, j.in0, j.in1, outs)
    ensures Distinct(VersionEntries(v)) && VersionEntries(v') <= VersionEntries(v)
    ensures forall e :: e in VersionEntries(v') <==>
      e in VersionEntries(v)
      && (e in input ==> IsNewest(input, None, e) && !(e.value.None? && IsBase(j.input, j.level, e.key)))
  {
    hide Shape, JobOk, IsBase, Distinct, Replaced, OutputsOf, IsNewest, VersionEntries, Survive;
    MergeKeeps(v, v', j, input, outs, Repaired);
    SurviveIs(input, None, Repaired, j.input, j.level);
    ShapeDistinct(v);
  }

  lemma NothingVisible(es: iset<Entry>, k: UserKey, s: nat)
    requires forall x :: x in es && x.key == k ==> x.sn > s
    ensures Finds(es, k, s, None)
  {}

  /** A repaired merge does not change what a reader of the whole store sees. */
  lemma RepairedKeepsAnswers(upper: iset<Entry>, v: Files, v': Files, j: Job, input: seq<Entry>, outs: seq<File>,
                             k: UserKey, s: nat, val: Option<Bytes>)
    requires JobOk(v, j) && Shape(v) && Merged(input, j.in0, j.in1) && OutputsOf(outs, input, Repaired, j)
    requires Replaced(v, v', j.level, j.in0, j.in1, outs)
    requires Bounded(VersionEntries(v), s) && Newer(upper, VersionEntries(v))
    requires Shows(upper + VersionEntries(v), k, s, val)
    ensures Shows(upper + VersionEntries(v'), k, s, val)
  {
    hide Shape, Newer, JobOk, IsBase, Distinct, Replaced, Bounded, OutputsOf, Merged, IsNewest, VersionEntries;
    RepairedKeeps(v, v', j, input, outs);
    var r :| Finds(upper + VersionEntries(v), k, s, r) && Answer(r) == val;
    if r.Some? && r.value !in upper + VersionEntries(v') {
      var e := r.value;
      NewestInInput(upper, v, j, input, e, s);
      forall x | x in upper + VersionEntries(v') && x.key == k
        ensures x.sn > s
      {
        if x in upper { AboveIsGone(upper, v, e, x, s); } else { DroppedIsGone(upper, v, j, input, e, x, s); }
      }
      NothingVisible(upper + VersionEntries(v'), k, s);
    } else {
      FindsInPart(upper + VersionEntries(v), upper + VersionEntries(v'), k, s, r);
    }
  }

  lemma RepairedKeepsAll(upper: iset<Entry>, v: Files, v': Files, j: Job, input: seq<Entry>, outs: seq<File>, s: nat)
    requires JobOk(v, j) && Shape(v) && Merged(input, j.in0, j.in1) && OutputsOf(outs, input, Repaired, j)
    requires Replaced(v, v', j.level, j.in0, j.in1, outs)
    requires Bounded(VersionEntries(v), s) && Newer(upper, VersionEntries(v))
    ensures forall k, val ::
        Shows(upper + VersionEntries(v), k, s, val) ==> Shows(upper + VersionEntries(v'), k, s, val)
  {
    hide *;
    forall k, val | Shows(upper + VersionEntries(v), k, s, val)
      ensures Shows(upper + VersionEntries(v'), k, s, val)
    {
      RepairedKeepsAnswers(upper, v, v', j, input, outs, k, s, val);
    }
  }

  lemma FindsInPart(es: iset<Entry>, part: iset<Entry>, k: UserKey, s: nat, r: Option<Entry>)
    requires part <= es && Finds(es, k, s, r) && (r.Some? ==> r.value in part)
    ensures Finds(part, k, s, r)
  {}

  lemma NewestInInput(upper: iset<Entry>, v: Files, j: Job, input: seq<Entry>, e: Entry, s: nat)
    requires JobOk(v, j) && Merged(input, j.in0, j.in1) && Bounded(VersionEntries(v), s)
    requires IsBest(upper + VersionEntries(v), e.key, s, e)
    ensures IsNewest(input, None, e)
  {
    hide JobOk;
    forall x | x in input && x.key == e.key
      ensures x.sn <= e.sn
    {
      InputInVersion(v, j, x);
    }
  }

  lemma AboveIsGone(upper: iset<Entry>, v: Files, e: Entry, x: Entry, s: nat)
    requires Newer(upper, VersionEntries(v)) && IsBest(upper + VersionEntries(v), e.key, s, e)
    requires x in upper && x.key == e.key && e !in upper
    ensures x.sn > s
  {
    hide VersionEntries;
  }

  /** Nothing that remains can come to light behind a deletion dropped at the base level. */
  lemma DroppedIsGone(upper: iset<Entry>, v: Files, j: Job, input: seq<Entry>, e: Entry, x: Entry, s: nat)
    requires JobOk(v, j) && Shape(v) && Merged(input, j.in0, j.in1) && Newer(upper, VersionEntries(v))
    requires IsBest(upper + VersionEntries(v), e.key, s, e)
    requires e in input && IsBase(j.input, j.level, e.key) && Distinct(VersionEntries(v))
    requires x.key == e.key && x != e && (x in input ==> IsNewest(input, None, x))
    requires x in VersionEntries(v)
    ensures x.sn > s
  {
    InputInVersion(v, j, e);
    if x.sn <= s {
      assert x.sn < e.sn;
      if x !in input { OlderIsDeeper(v, j, e, x); }
    }
  }

  // ---------------------------------------------------------------- the drop rule as written

  /** As written, a merge over a single live version loses it. */
  lemma LonePutDropped(e: Entry, v: Files, level: nat)
    requires e.value.Some?
    ensures Survive([e], None, AsWritten, v, level) == [] && Survive([e], None, Repaired, v, level) == [e]
  {
    assert [e][1..] == [];
  }

  /** As written, a merge of two versions of a key keeps the older one. */
  lemma OlderSurvives(newer: Entry, older: Entry, v: Files, level: nat)
    requires newer.key == older.key && newer.sn > older.sn && newer.value.Some? && older.value.Some?
    ensures Survive([newer, older], None, AsWritten, v, level) == [older]
    ensures Survive([newer, older], None, Repaired, v, level) == [newer]
  {
    assert [newer, older][1..] == [older] && [older][1..] == [];
    hide IsBase;
    forall rule: DropRule
      ensures Survive([older], Some(newer.key), rule, v, level) == if rule == AsWritten then [older] else []
    {
      assert Survive([], Some(older.key), rule, v, level) == [];
    }
  }

  /** The versions of e's key that are older than e, without input deletions at the base level. */
  ghost function Older(es: iset<Entry>, input: seq<Entry>, e: Entry, v: Files, level: nat): (r: iset<Entry>) {
    iset x | x in es && x.key == e.key && x.sn < e.sn && !(x in input && x.value.None? && IsBase(v, level, e.key))
  }

  /** As written, a merge leaves the answer for a key of its input unchanged exactly when a version
      newer than all input versions hides them, or when the newest input version says the same as
      what is stored below it. */
  lemma AsWrittenKeepsIff(upper: iset<Entry>, v: Files, v': Files, j: Job, input: seq<Entry>, outs: seq<File>,
                          e: Entry, s: nat)
    requires JobOk(v, j) && Shape(v) && Merged(input, j.in0, j.in1) && OutputsOf(outs, input, AsWritten, j)
    requires Replaced(v, v', j.level, j.in0, j.in1, outs)
    requires Distinct(upper + VersionEntries(v)) && Newer(upper, VersionEntries(v))
    requires e in input && IsNewest(input, None, e) && e.sn <= s
    ensures (forall val ::
          Shows(upper + VersionEntries(v), e.key, s, val) ==> Shows(upper + VersionEntries(v'), e.key, s, val))
       <==> ((exists x :: x in upper + VersionEntries(v) && x.key == e.key && e.sn < x.sn <= s)
             || Shows(Older(upper + VersionEntries(v), input, e, j.input, j.level), e.key, s, e.value))
  {
    var es, es' := upper + VersionEntries(v), upper + VersionEntries(v');
    MergeKeeps(v, v', j, input, outs, AsWritten);
    SurviveIs(input, None, AsWritten, j.input, j.level);
    forall x | x in input
      ensures x in VersionEntries(v) && x !in upper
    {
      InputInVersion(v, j, x);
    }
    var kept := Survive(input, None, AsWritten, j.input, j.level);
    hide Survive, Shape, JobOk, IsBase, Replaced, OutputsOf, Merged, Newer, Shows, Older, Distinct;
    if exists x :: x in es && x.key == e.key && e.sn < x.sn <= s {
      HiddenInput(es, es', input, e, s);
    } else {
      UpperEntryOlder(upper, v, v', input, kept, e, s, j);
      OlderSurvive(upper, v, v', input, kept, e, j);
      SameAnswers(es', Older(es, input, e, j.input, j.level), e.key, s);
      OnlyAnswer(es, e, s);
    }
  }

  lemma HiddenInput(es: iset<Entry>, es': iset<Entry>, input: seq<Entry>, e: Entry, s: nat)
    requires forall x :: x in es && x !in input ==> x in es'
    requires es' <= es && IsNewest(input, None, e) && exists x :: x in es && x.key == e.key && e.sn < x.sn <= s
    ensures forall val :: Shows(es, e.key, s, val) ==> Shows(es', e.key, s, val)
  {
    forall val | Shows(es, e.key, s, val)
      ensures Shows(es', e.key, s, val)
    {
      var r :| Finds(es, e.key, s, r) && Answer(r) == val;
      assert r.Some? && r.value.sn > e.sn && r.value !in input;
      FindsInPart(es, es', e.key, s, r);
    }
  }

  lemma OnlyAnswer(es: iset<Entry>, e: Entry, s: nat)
    requires Distinct(es) && e in es && e.sn <= s
    requires !exists x :: x in es && x.key == e.key && e.sn < x.sn <= s
    ensures forall val :: Shows(es, e.key, s, val) <==> val == e.value
  {
    assert Finds(es, e.key, s, Some(e));
    forall r | Finds(es, e.key, s, r)
      ensures r == Some(e)
    {
      FindsUnique(es, e.key, s, r, Some(e));
    }
  }

  lemma SameAnswers(es: iset<Entry>, fs: iset<Entry>, k: UserKey, s: nat)
    requires forall x: Entry :: x.key == k && x.sn <= s ==> (x in es <==> x in fs)
    ensures forall val :: Shows(es, k, s, val) <==> Shows(fs, k, s, val)
  {
    forall r
      ensures Finds(es, k, s, r) <==> Finds(fs, k, s, r)
    {}
  }

  lemma UpperEntryOlder(upper: iset<Entry>, v: Files, v': Files, input: seq<Entry>, kept: seq<Entry>, e: Entry,
      s: nat, j: Job)
    requires forall x :: x in VersionEntries(v') <==> x in VersionEntries(v) && (x in input ==> x in kept)
    requires e in VersionEntries(v) && e in input && e !in kept && Distinct(upper + VersionEntries(v))
    requires forall x :: x in upper + VersionEntries(v) && x.key == e.key && x.sn <= s ==> x.sn <= e.sn
    requires forall x :: x in upper ==> x !in input
    requires forall x :: x in kept ==> !(x.value.None? && IsBase(j.input, j.level, x.key))
    ensures forall x: Entry :: x.key == e.key && x.sn <= s && x in upper + VersionEntries(v') ==>
      x in Older(upper + VersionEntries(v), input, e, j.input, j.level)
  {
    hide IsBase;
  }

  lemma OlderSurvive(upper: iset<Entry>, v: Files, v': Files, input: seq<Entry>, kept: seq<Entry>, e: Entry, j: Job)
    requires forall x :: x in VersionEntries(v') <==> x in VersionEntries(v) && (x in input ==> x in kept)
    requires forall x ::
        x in kept <==> x in input && !IsNewest(input, None, x) && !(x.value.None? && IsBase(j.input, j.level, x.key))
    requires e in input
    ensures Older(upper + VersionEntries(v), input, e, j.input, j.level) <= upper + VersionEntries(v')
  {
    hide IsBase;
  }
}
