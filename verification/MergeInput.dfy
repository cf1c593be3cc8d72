/** VersionSet::MakeMergedIterator: the input of a compaction. */
module MergeInput {
  import opened Base
  import opened Entries
  import opened Version
  import opened Manifest
  import opened Pick
  import opened Edits
  import opened Merge
  import Merging

  function EntryOrder(a: Entry, b: Entry): (r: int) {
    if Before(a, b) then -1 else if Before(b, a) then 1 else 0
  }

  lemma EntryOrderTotal()
    ensures Merging.TotalOrder(EntryOrder)
  {}

  /** The entries of a level's files in file order: a two-level iterator over the file list. */
  function Concatenated(fs: seq<File>): (r: seq<seq<Entry>>) {
    if fs == [] then [] else [Flatten(FileEntries(fs))]
  }

  /** The iterators that are merged: for level 0 one per file, otherwise one per level. */
  function Children(level: nat, in0: seq<File>, in1: seq<File>): (r: seq<seq<Entry>>) {
    (if level == 0 then FileEntries(in0) else Concatenated(in0)) + Concatenated(in1)
  }

  lemma {:induction false} ConcatenatedSorted(fs: seq<File>)
    requires Disjoint(fs)
    ensures Sorted(Flatten(FileEntries(fs)))
  {
    if fs != [] {
      var f, rest := fs[0], fs[1..];
      assert forall i, j :: 0 <= i < j < |rest| ==> rest[i] == fs[i + 1] && rest[j] == fs[j + 1];
      ConcatenatedSorted(rest);
      CutIs(rest);
      var es, more := f.entries, Flatten(FileEntries(rest));
      assert Flatten(FileEntries(fs)) == es + more;
      forall a, b | a in es && b in more
        ensures Before(a, b)
      {
        var g :| g in rest && b in g.entries;
        var i :| 0 <= i < |rest| && rest[i] == g;
        assert fs[i + 1] == g;
        InBounds(f, a);
        InBounds(g, b);
      }
      SortedConcat(es, more);
    }
  }

  lemma SortedConcat(es: seq<Entry>, fs: seq<Entry>)
    requires Sorted(es) && Sorted(fs) && forall a, b :: a in es && b in fs ==> Before(a, b)
    ensures Sorted(es + fs)
  {}

  ghost predicate Inputs(v: Files, level: nat, in0: seq<File>, in1: seq<File>) {
    && Shape(v) && level + 1 < LEVELS
    && (forall f :: f in in0 ==> f in v[level]) && (forall f :: f in in1 ==> f in v[level + 1])
    && (forall i, j :: 0 <= i < j < |in0| ==> in0[i] != in0[j])
    && (level > 0 ==> Disjoint(in0)) && Disjoint(in1)
  }

  /** What SetUpInputs delivers can be merged. */
  lemma PickedInputs(v: Files, level: nat, in0: seq<File>, in1: seq<File>, rule: RangeRule)
    requires Shape(v) && Listed(v) && level + 1 < LEVELS && (forall f :: f in in0 ==> f in v[level])
    requires exists s, l :: IsRange(in0, rule, s, l) && NextInputs(v[level + 1], in1, s.key, l.key)
    requires InOrder(v, level, in0, in1)
    ensures Inputs(v, level, in0, in1)
  {
    hide Shape, Disjoint, IsRange, DistinctNumbers;
    ListedOnce(v[level]);
  }

  lemma ListedOnce(fs: seq<File>)
    requires SortedFiles(fs)
    ensures NoRepeats(fs)
  {}

  /** The iterators over the first inputs. */
  function Firsts(level: nat, in0: seq<File>): (r: seq<seq<Entry>>) {
    if level == 0 then FileEntries(in0) else Concatenated(in0)
  }

  lemma {:induction false} FileEntriesAt(fs: seq<File>, i: nat)
    requires i < |fs|
    ensures FileEntries(fs)[i] == fs[i].entries
  {
    if i > 0 { FileEntriesAt(fs[1..], i - 1); }
  }

  /** The file and level that an entry of the i-th iterator comes from. */
  lemma ChildFile(v: Files, level: nat, in0: seq<File>, in1: seq<File>, i: nat, e: Entry) returns (l: nat, f: File)
    requires Inputs(v, level, in0, in1) && i < |Children(level, in0, in1)| && e in Children(level, in0, in1)[i]
    ensures e in f.entries && l < LEVELS && f in v[l]
    ensures if i < |Firsts(level, in0)| then l == level && f in in0 && (level == 0 ==> f == in0[i])
        && (level > 0 ==> i == 0)
            else l == level + 1 && f in in1 && i == |Firsts(level, in0)|
  {
    hide Shape, Disjoint;
    if i < |Firsts(level, in0)| && level == 0 {
      l, f := level, in0[i];
      FileEntriesAt(in0, i);
    } else {
      var fs := if i < |Firsts(level, in0)| then in0 else in1;
      l := if i < |Firsts(level, in0)| then level else level + 1;
      CutIs(fs);
      assert InLevel(fs, e);
      f :| f in fs && e in f.entries;
    }
  }

  lemma ChildSorted(v: Files, level: nat, in0: seq<File>, in1: seq<File>, i: nat)
    requires Inputs(v, level, in0, in1) && i < |Children(level, in0, in1)|
    ensures Sorted(Children(level, in0, in1)[i])
  {
    hide Shape;
    if i < |Firsts(level, in0)| && level == 0 {
      FileEntriesAt(in0, i);
    } else {
      ConcatenatedSorted(if i < |Firsts(level, in0)| then in0 else in1);
    }
  }

  /** Different iterators have no version in common. */
  lemma ChildrenDiffer(v: Files, level: nat, in0: seq<File>, in1: seq<File>, i: nat, a: Entry, k: nat, b: Entry)
    requires Inputs(v, level, in0, in1) && i < |Children(level, in0, in1)| && k < |Children(level, in0, in1)| && i != k
    requires a in Children(level, in0, in1)[i] && b in Children(level, in0, in1)[k]
    ensures EntryOrder(a, b) != 0
  {
    var l, f := ChildFile(v, level, in0, in1, i, a);
    var m, g := ChildFile(v, level, in0, in1, k, b);
    hide Shape, Children, Disjoint;
    if EntryOrder(a, b) == 0 {
      assert InLevel(v[l], a) && InLevel(v[m], b);
      ShapeDistinct(v);
      assert a in VersionEntries(v) && b in VersionEntries(v);
      OneFile(v, l, f, m, g, a);
    }
  }

  lemma ChildrenNoTies(v: Files, level: nat, in0: seq<File>, in1: seq<File>)
    requires Inputs(v, level, in0, in1)
    ensures Merging.NoTies(EntryOrder, Children(level, in0, in1))
    ensures Merging.AllAscending(EntryOrder, Children(level, in0, in1))
  {
    hide Inputs, Children, EntryOrder;
    var cs := Children(level, in0, in1);
    forall i | 0 <= i < |cs|
      ensures Sorted(cs[i]) && SortedOrder(cs[i])
    {
      ChildSorted(v, level, in0, in1, i);
      SortedIncreases(cs[i]);
    }
    forall i, j, k, l | 0 <= i < |cs| && 0 <= j < |cs[i]| && 0 <= k < |cs| && 0 <= l < |cs[k]| && (i != k || j != l)
      ensures EntryOrder(cs[i][j], cs[k][l]) != 0
    {
      if i != k { ChildrenDiffer(v, level, in0, in1, i, cs[i][j], k, cs[k][l]); }
    }
  }

  ghost predicate SortedOrder(es: seq<Entry>) {
    && (forall i, j :: 0 <= i < |es| && 0 <= j < |es| && i != j ==> EntryOrder(es[i], es[j]) != 0)
    && Merging.Ascending(EntryOrder, es)
  }

  lemma SortedIncreases(es: seq<Entry>)
    requires Sorted(es)
    ensures SortedOrder(es)
  {}

  lemma ChildEntries(level: nat, in0: seq<File>, in1: seq<File>, e: Entry)
    ensures e in Flatten(Children(level, in0, in1)) <==> InInputs(in0, in1, e)
  {
    FlattenAppend(Firsts(level, in0), Concatenated(in1));
    CutIs(in0);
    CutIs(in1);
    ConcatenatedFlat(in0);
    ConcatenatedFlat(in1);
  }

  lemma ConcatenatedFlat(fs: seq<File>)
    ensures Flatten(Concatenated(fs)) == Flatten(FileEntries(fs))
  {
    if fs != [] { assert Flatten(Concatenated(fs)) == Flatten(FileEntries(fs)) + Flatten<Entry>([]); }
  }

  /** The merged iterator over the inputs of a compaction delivers every input version exactly
      once, in internal order: what the merge loop takes for granted. */
  lemma MakeMergedInput(v: Files, level: nat, in0: seq<File>, in1: seq<File>)
    requires Inputs(v, level, in0, in1)
    ensures Merged(Merging.MergeOf(EntryOrder, Children(level, in0, in1)), in0, in1)
  {
    hide Inputs, Children, Merging.TotalOrder, Merging.MergeOf, Merging.NoTies, Merging.AllAscending, Flatten, InInputs;
    var cs := Children(level, in0, in1);
    var input := Merging.MergeOf(EntryOrder, cs);
    ChildrenNoTies(v, level, in0, in1);
    EntryOrderTotal();
    Merging.MergeIncreases(EntryOrder, cs);
    Merging.MergeConserves(EntryOrder, cs);
    forall e
      ensures e in input <==> InInputs(in0, in1, e)
    {
      assert e in input <==> e in multiset(input);
      ChildEntries(level, in0, in1, e);
    }
  }
}
