/** How the version edits of a flush, a file move and a merge keep the shape of a version. */
module Edits {
  import opened Base
  import opened Entries
  import opened Version
  import opened Manifest
  import opened Pick
  import opened Compaction

  /** The version that LogAndApply installs. */
  function Live(v: Files, e: Edit): (r: Files)
    requires |v| == LEVELS
    ensures |r| == LEVELS
  {
    seq(LEVELS, l requires 0 <= l < LEVELS => LiveLevel(v[l], At(e, l)))
  }

  /** File lists as the builder leaves them: ordered, and without a number twice. */
  ghost predicate Listed(v: Files) {
    && |v| == LEVELS
    && (forall l :: 0 <= l < LEVELS ==> SortedFiles(v[l]) && DistinctNumbers(v[l]))
  }

  ghost predicate DistinctNumbers(fs: seq<File>) {
    forall f, g :: f in fs && g in fs && f.number == g.number ==> f == g
  }

  ghost predicate Apart(f: File, g: File) {
    f.Hi() < g.Lo() || g.Hi() < f.Lo()
  }

  /** In an ordered list, pairwise disjoint files are disjoint in order. */
  lemma ApartIsDisjoint(fs: seq<File>)
    requires SortedFiles(fs) && forall f, g :: f in fs && g in fs && f != g ==> Apart(f, g)
    ensures Disjoint(fs)
  {
    forall i, j | 0 <= i < j < |fs|
      ensures fs[i].Hi() < fs[j].Lo()
    {
      assert FileLess(fs[i], fs[j]);
      assert fs[i] in fs && fs[j] in fs;
      InBounds(fs[j], First(fs[j]));
      assert fs[i] != fs[j];
    }
  }

  lemma DisjointIsApart(fs: seq<File>, f: File, g: File)
    requires Disjoint(fs) && f in fs && g in fs && f != g
    ensures Apart(f, g)
  {
    var i :| 0 <= i < |fs| && fs[i] == f;
    var j :| 0 <= j < |fs| && fs[j] == g;
  }

  /** A level that an edit does not mention stays as it is. */
  lemma Untouched(fs: seq<File>)
    requires SortedFiles(fs)
    ensures LiveLevel(fs, LevelEdit({}, [])) == fs
  {
    LiveIs(fs, LevelEdit({}, []));
    SortedUnique(LiveLevel(fs, LevelEdit({}, [])), fs);
  }

  lemma {:induction false} FreshIf(used: set<nat>, adds: seq<File>)
    requires Numbers(adds) !! used && forall i, j :: 0 <= i < j < |adds| ==> adds[i].number != adds[j].number
    ensures FreshFiles(used, adds)
    decreases |adds|
  {
    if adds != [] {
      assert adds[0] in adds;
      forall f | f in adds[1..]
        ensures f.number in Numbers(adds) && f.number != adds[0].number
      {
        var i :| 0 <= i < |adds[1..]| && adds[1..][i] == f;
        assert f == adds[i + 1];
      }
      FreshIf(used + {adds[0].number}, adds[1..]);
    }
  }

  /** A touched level: the deleted files are gone, the new ones are there, the list is ordered and
      numbers stay distinct. */
  lemma Touched(fs: seq<File>, dels: set<nat>, adds: seq<File>)
    requires SortedFiles(fs) && DistinctNumbers(fs) && Numbers(adds) !! Numbers(fs)
    requires forall i, j :: 0 <= i < j < |adds| ==> adds[i].number != adds[j].number
    ensures var r := LiveLevel(fs, LevelEdit(dels, adds));
      && SortedFiles(r) && DistinctNumbers(r)
      && (forall f :: f in r <==> (f in fs && f.number !in dels) || f in adds)
  {
    FreshIf(Numbers(fs), adds);
    LiveIs(fs, LevelEdit(dels, adds));
    var r := LiveLevel(fs, LevelEdit(dels, adds));
    forall f, g | f in r && g in r && f.number == g.number
      ensures f == g
    {
      assert f in adds ==> f.number in Numbers(adds);
      assert g in adds ==> g.number in Numbers(adds);
      assert f in fs ==> f.number in Numbers(fs);
      assert g in fs ==> g.number in Numbers(fs);
    }
  }

  // ---------------------------------------------------------------- flush

  function FlushEdit(f: File): (e: Edit) {
    Edit([], [(0, f)], [], None, None, None)
  }

  lemma FlushLevels(v: Files, f: File)
    requires Listed(v) && f.number !in Numbers(v[0])
    ensures var v' := Live(v, FlushEdit(f));
      && Listed(v') && (forall g :: g in v'[0] <==> g in v[0] || g == f)
      && (forall l :: 1 <= l < LEVELS ==> v'[l] == v[l])
  {
    var e := FlushEdit(f);
    assert e.adds[..0] == [] && AddsAt([], 0) == [];
    assert At(e, 0) == LevelEdit({}, [f]) by { assert AddsAt(e.adds, 0) == [] + [f]; }
    assert Numbers([f]) == {f.number};
    Touched(v[0], {}, [f]);
    forall l | 1 <= l < LEVELS
      ensures Live(v, e)[l] == v[l]
    {
      assert AddsAt(e.adds, l) == AddsAt([], l) + [];
      assert At(e, l) == LevelEdit({}, []);
      Untouched(v[l]);
    }
  }

  /** Flushing versions that are newer than everything in the version keeps its shape. */
  lemma FlushShape(v: Files, f: File)
    requires Listed(v) && Shape(v) && (forall g :: g in v[0] ==> g.number < f.number)
    requires Newer(Contents(f.entries), VersionEntries(v))
    ensures var v' := Live(v, FlushEdit(f));
      && Listed(v') && Shape(v')
      && VersionEntries(v') == VersionEntries(v) + Contents(f.entries)
      && (forall g :: g in v'[0] <==> g in v[0] || g == f)
      && (forall l :: 1 <= l < LEVELS ==> v'[l] == v[l])
  {
    hide Stacked, Disjoint, Newer, SortedFiles, DistinctNumbers;
    FlushLevels(v, f);
    var v' := Live(v, FlushEdit(f));
    FlushShapeOf(v, v', f);
  }

  lemma FlushShapeOf(v: Files, v': Files, f: File)
    requires Shape(v) && (forall g :: g in v[0] ==> g.number < f.number) && |v'| == LEVELS
    requires Newer(Contents(f.entries), VersionEntries(v))
    requires (forall g :: g in v'[0] <==> g in v[0] || g == f) && (forall l :: 1 <= l < LEVELS ==> v'[l] == v[l])
    ensures Shape(v') && VersionEntries(v') == VersionEntries(v) + Contents(f.entries)
  {
    hide Live, LiveLevel, FlushEdit, At;
    assert LevelEntries(v'[0]) == LevelEntries(v[0]) + Contents(f.entries);
    forall e
      ensures e in VersionEntries(v') <==> e in VersionEntries(v) || e in f.entries
    {
      assert InLevel(v'[0], e) <==> InLevel(v[0], e) || e in f.entries;
      assert InLevel(v[0], e) ==> InVersion(v, e);
    }
    forall g | g in v[0]
      ensures Newer(Contents(f.entries), Contents(g.entries))
    {
      assert forall b :: b in g.entries ==> InLevel(v[0], b);
      assert forall b :: b in g.entries ==> InVersion(v, b);
    }
    assert Stacked(v'[0]);
    forall l, m | 0 <= l < m < LEVELS
      ensures Newer(LevelEntries(v'[l]), LevelEntries(v'[m]))
    {
      assert Newer(LevelEntries(v[l]), LevelEntries(v[m]));
      assert forall b :: b in LevelEntries(v[m]) ==> InVersion(v, b);
    }
  }

  // ---------------------------------------------------------------- move and merge

  function Marks(fs: seq<File>, l: nat): (r: seq<(nat, nat)>) {
    if fs == [] then [] else Marks(fs[..|fs| - 1], l) + [(l, fs[|fs| - 1].number)]
  }

  lemma NumbersSnoc(fs: seq<File>, f: File)
    ensures Numbers(fs + [f]) == Numbers(fs) + {f.number}
  {}

  lemma {:induction false} MarksAt(fs: seq<File>, m: nat, l: nat)
    ensures DelsAt(Marks(fs, m), l) == if m == l then Numbers(fs) else {}
  {
    if fs != [] {
      var front, f := fs[..|fs| - 1], fs[|fs| - 1];
      var ms := Marks(fs, m);
      MarksAt(front, m, l);
      NumbersSnoc(front, f);
      hide Numbers;
      assert ms == Marks(front, m) + [(m, f.number)];
      assert ms[..|ms| - 1] == Marks(front, m);
      assert fs == front + [f];
    }
  }

  lemma {:induction false} DelsAtConcat(a: seq<(nat, nat)>, b: seq<(nat, nat)>, l: nat)
    ensures DelsAt(a + b, l) == DelsAt(a, l) + DelsAt(b, l)
  {
    if b == [] {
      assert a + b == a;
    } else {
      assert (a + b)[..|a + b| - 1] == a + b[..|b| - 1];
      DelsAtConcat(a, b[..|b| - 1], l);
    }
  }

  /** Deletions of the inputs at `level` and the level below it, additions of the outputs there. */
  function MergeEdit(level: nat, in0: seq<File>, in1: seq<File>, outs: seq<File>): (e: Edit) {
    Edit(Marks(in0, level) + Marks(in1, level + 1), Tagged(outs, level + 1), [], None, None, None)
  }

  lemma MergeEditAt(level: nat, in0: seq<File>, in1: seq<File>, outs: seq<File>, l: nat)
    ensures At(MergeEdit(level, in0, in1, outs), l) ==
      if l == level then LevelEdit(Numbers(in0), [])
      else if l == level + 1 then LevelEdit(Numbers(in1), outs)
      else LevelEdit({}, [])
  {
    DelsAtConcat(Marks(in0, level), Marks(in1, level + 1), l);
    MarksAt(in0, level, l);
    MarksAt(in1, level + 1, l);
    AddsAtTagged(outs, level + 1, l);
  }

  /** Fresh output numbers, or, for a move, one not in use on the lower level. */
  ghost predicate NewNumbers(fs: seq<File>, outs: seq<File>) {
    && Numbers(outs) !! Numbers(fs)
    && forall i, j :: 0 <= i < j < |outs| ==> outs[i].number != outs[j].number
  }

  /** The version after a merge, level by level. */
  ghost predicate Replaced(v: Files, v': Files, level: nat, in0: seq<File>, in1: seq<File>, outs: seq<File>) {
    && |v| == |v'| == LEVELS && level + 1 < LEVELS
    && (forall f :: f in v'[level] <==> f in v[level] && f !in in0)
    && (forall f :: f in v'[level + 1] <==> (f in v[level + 1] && f !in in1) || f in outs)
    && (forall l :: 0 <= l < LEVELS && l != level && l != level + 1 ==> v'[l] == v[l])
  }

  lemma ByNumber(fs: seq<File>, ins: seq<File>)
    requires DistinctNumbers(fs) && forall f :: f in ins ==> f in fs
    ensures forall f :: f in fs ==> (f.number in Numbers(ins) <==> f in ins)
  {}

  lemma MergeLevels(v: Files, level: nat, in0: seq<File>, in1: seq<File>, outs: seq<File>)
    requires Listed(v) && level + 1 < LEVELS && NewNumbers(v[level + 1], outs)
    requires (forall f :: f in in0 ==> f in v[level]) && (forall f :: f in in1 ==> f in v[level + 1])
    ensures var v' := Live(v, MergeEdit(level, in0, in1, outs));
      Listed(v') && Replaced(v, v', level, in0, in1, outs)
  {
    var e := MergeEdit(level, in0, in1, outs);
    hide MergeEdit, At, LiveLevel;
    forall l | 0 <= l < LEVELS
      ensures SortedFiles(Live(v, e)[l]) && DistinctNumbers(Live(v, e)[l])
      ensures l != level && l != level + 1 ==> Live(v, e)[l] == v[l]
      ensures l == level ==> forall f :: f in Live(v, e)[l] <==> f in v[level] && f !in in0
      ensures l == level + 1 ==> forall f :: f in Live(v, e)[l] <==> (f in v[level + 1] && f !in in1) || f in outs
    {
      MergeEditAt(level, in0, in1, outs, l);
      if l == level {
        Touched(v[l], Numbers(in0), []);
        ByNumber(v[l], in0);
      } else if l == level + 1 {
        Touched(v[l], Numbers(in1), outs);
        ByNumber(v[l], in1);
      } else {
        Untouched(v[l]);
      }
    }
  }

  ghost predicate InInputs(in0: seq<File>, in1: seq<File>, e: Entry) {
    InLevel(in0, e) || InLevel(in1, e)
  }

  /** What makes it safe to put `outs` in the place of the inputs: a file left on the upper level
      is newer than the first inputs wherever they share a key, a file left on the lower level
      shares no key with them and lies beside every output, and the outputs are disjoint and hold
      nothing but input entries. */
  ghost predicate Replaceable(v: Files, level: nat, in0: seq<File>, in1: seq<File>, outs: seq<File>) {
    && |v| == LEVELS && level + 1 < LEVELS
    && (forall f :: f in in0 ==> f in v[level]) && (forall f :: f in in1 ==> f in v[level + 1])
    && (forall f :: f in v[level] && f !in in0 ==> Newer(Contents(f.entries), LevelEntries(in0)))
    && (forall h, o :: h in v[level + 1] && h !in in1 && o in outs ==> Apart(h, o))
    && (forall o, p :: o in outs && p in outs && o != p ==> Apart(o, p))
    && (forall o, e :: o in outs && e in o.entries ==> InInputs(in0, in1, e))
  }

  lemma MergeDisjoint(v: Files, v': Files, level: nat, in0: seq<File>, in1: seq<File>, outs: seq<File>, l: nat)
    requires Listed(v') && Replaced(v, v', level, in0, in1, outs) && Replaceable(v, level, in0, in1, outs)
    requires 1 <= l < LEVELS && Disjoint(v[l])
    ensures Disjoint(v'[l])
  {
    hide Newer, LevelEntries, InInputs, DistinctNumbers;
    forall f, g | f in v'[l] && g in v'[l] && f != g
      ensures Apart(f, g)
    {
      if f in v[l] && g in v[l] {
        DisjointIsApart(v[l], f, g);
      } else {
        assert l == level + 1;
        assert f in outs && g in outs ==> Apart(f, g);
        assert f in outs && g !in outs ==> Apart(g, f);
      }
    }
    ApartIsDisjoint(v'[l]);
  }

  /** Where the entries of the new version come from. */
  lemma MergeSources(v: Files, v': Files, level: nat, in0: seq<File>, in1: seq<File>, outs: seq<File>)
    requires Replaced(v, v', level, in0, in1, outs) && Replaceable(v, level, in0, in1, outs)
    ensures LevelEntries(v'[level]) <= LevelEntries(v[level])
    ensures LevelEntries(v'[level + 1]) <= LevelEntries(v[level + 1]) + LevelEntries(in0)
    ensures LevelEntries(in0) <= LevelEntries(v[level])
    ensures Newer(LevelEntries(v'[level]), LevelEntries(in0))
  {
    forall e | e in LevelEntries(v'[level])
      ensures e in LevelEntries(v[level])
      ensures forall b :: b in LevelEntries(in0) && b.key == e.key ==> e.sn > b.sn
    {
      var f :| f in v'[level] && e in f.entries;
      assert e in Contents(f.entries);
    }
    forall e | InLevel(v'[level + 1], e)
      ensures InLevel(v[level + 1], e) || InLevel(in0, e)
    {
      var f :| f in v'[level + 1] && e in f.entries;
      if f in outs {
        assert InInputs(in0, in1, e);
        if InLevel(in1, e) {
          var g :| g in in1 && e in g.entries;
          assert g in v[level + 1];
        }
      }
    }
  }

  lemma MergeShape(v: Files, v': Files, level: nat, in0: seq<File>, in1: seq<File>, outs: seq<File>)
    requires Listed(v') && Shape(v) && Replaced(v, v', level, in0, in1, outs) && Replaceable(v, level, in0, in1, outs)
    ensures Shape(v')
  {
    MergeSources(v, v', level, in0, in1, outs);
    forall l | 1 <= l < LEVELS
      ensures Disjoint(v'[l])
    {
      MergeDisjoint(v, v', level, in0, in1, outs, l);
    }
    assert Stacked(v'[0]);
    hide Replaceable, LevelEntries, Stacked, Disjoint;
    forall l, m | 0 <= l < m < LEVELS
      ensures Newer(LevelEntries(v'[l]), LevelEntries(v'[m]))
    {
      LevelsNewer(v, v', level, in0, l, m);
    }
  }

  lemma LevelsNewer(v: Files, v': Files, level: nat, in0: seq<File>, l: nat, m: nat)
    requires Shape(v) && |v'| == LEVELS && level + 1 < LEVELS && l < m < LEVELS
    requires forall k :: 0 <= k < LEVELS && k != level && k != level + 1 ==> v'[k] == v[k]
    requires LevelEntries(v'[level]) <= LevelEntries(v[level])
    requires LevelEntries(v'[level + 1]) <= LevelEntries(v[level + 1]) + LevelEntries(in0)
    requires LevelEntries(in0) <= LevelEntries(v[level])
    requires Newer(LevelEntries(v'[level]), LevelEntries(in0))
    ensures Newer(LevelEntries(v'[l]), LevelEntries(v'[m]))
  {
    hide LevelEntries, Stacked, Disjoint;
    assert Newer(LevelEntries(v[l]), LevelEntries(v[m]));
    assert l < level ==> Newer(LevelEntries(v[l]), LevelEntries(v[level]));
    assert l < level + 1 ==> Newer(LevelEntries(v[l]), LevelEntries(v[level + 1]));
    assert m > level ==> Newer(LevelEntries(v[level]), LevelEntries(v[m]));
    assert m > level + 1 ==> Newer(LevelEntries(v[level + 1]), LevelEntries(v[m]));
  }
}
