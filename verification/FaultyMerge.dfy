/** When a merge under the drop rule as written does no harm: its outputs can be told apart by
    key, and no answer changes. */
module FaultyMerge {
  import opened Base
  import opened Entries
  import opened Version
  import opened Pick
  import opened Compaction
  import opened Edits
  import opened Merge

  // ---------------------------------------------------------------- files that overlap

  /** As written, x survives a merge of the input: it is not the newest version of its key, and not
      a deletion at the base level. */
  ghost predicate StaysBehind(input: seq<Entry>, v: Files, level: nat, x: Entry) {
    x in input && !IsNewest(input, None, x) && !(x.value.None? && IsBase(v, level, x.key))
  }

  /** No user key has two versions that stay behind. */
  ghost predicate OneStaysBehind(input: seq<Entry>, v: Files, level: nat) {
    forall x, y :: StaysBehind(input, v, level, x) && StaysBehind(input, v, level, y) && x.key == y.key ==> x == y
  }

  ghost predicate AllApart(outs: seq<File>) {
    forall o, p :: o in outs && p in outs && o != p ==> Apart(o, p)
  }

  lemma SameKeyMeets(es: seq<Entry>, i: nat) returns (outs: seq<File>)
    requires Sorted(es) && i + 1 < |es| && es[i].key == es[i + 1].key
    ensures Flatten(FileEntries(outs)) == es && !AllApart(outs)
  {
    var o: File, p: File := Table(0, es[..i + 1]), Table(1, es[i + 1..]);
    outs := [o, p];
    assert FileEntries(outs) == [o.entries] + FileEntries([p]) && FileEntries([p]) == [p.entries] + FileEntries([]);
    assert Flatten(FileEntries(outs)) == o.entries + (p.entries + []);
    assert o in outs && p in outs;
    assert es[i] in o.entries && es[i + 1] in p.entries;
    InBounds(o, es[i]);
    InBounds(p, es[i + 1]);
  }

  lemma NotIncreasing(es: seq<Entry>) returns (i: nat)
    requires Sorted(es) && !KeysIncrease(es)
    ensures i + 1 < |es| && es[i].key == es[i + 1].key
  {
    var a, b :| 0 <= a < b < |es| && es[a].key >= es[b].key;
    i := a;
    assert Before(es[a], es[b]);
    assert Before(es[a], es[a + 1]) && (a + 1 < b ==> Before(es[a + 1], es[b]));
  }

  lemma KeysIncreaseIff(input: seq<Entry>, v: Files, level: nat)
    requires Sorted(input)
    ensures KeysIncrease(Survive(input, None, AsWritten, v, level)) <==> OneStaysBehind(input, v, level)
  {
    hide Survive, IsNewest, IsBase;
    var es := Survive(input, None, AsWritten, v, level);
    SurviveIs(input, None, AsWritten, v, level);
    SurviveSorted(input, None, AsWritten, v, level);
    if KeysIncrease(es) {
      forall x, y | StaysBehind(input, v, level, x) && StaysBehind(input, v, level, y) && x.key == y.key
        ensures x == y
      {
        var i :| 0 <= i < |es| && es[i] == x;
        var j :| 0 <= j < |es| && es[j] == y;
      }
    } else {
      var i := NotIncreasing(es);
      assert StaysBehind(input, v, level, es[i]) && StaysBehind(input, v, level, es[i + 1]);
      assert Before(es[i], es[i + 1]);
    }
  }

  /** As written, the outputs of a merge have disjoint key ranges wherever they are cut, exactly
      when no user key has two versions that stay behind: otherwise a cut can part them, and the
      next level is no longer sorted. */
  lemma AsWrittenApartIff(input: seq<Entry>, v: Files, level: nat)
    requires Sorted(input)
    ensures
      (forall outs: seq<File> ::
         Flatten(FileEntries(outs)) == Survive(input, None, AsWritten, v, level) ==> AllApart(outs))
      <==> OneStaysBehind(input, v, level)
  {
    hide Survive, OneStaysBehind, KeysIncrease, Sorted;
    var es := Survive(input, None, AsWritten, v, level);
    KeysIncreaseIff(input, v, level);
    SurviveSorted(input, None, AsWritten, v, level);
    if KeysIncrease(es) {
      forall outs: seq<File> | Flatten(FileEntries(outs)) == es
        ensures AllApart(outs)
      {
        CutApart(outs);
      }
    } else {
      var i := NotIncreasing(es);
      var outs := SameKeyMeets(es, i);
    }
  }

  // ---------------------------------------------------------------- answers that change

  /** A merge does not change the answer for the key of its newest input version e: a version above
      hides the inputs, or what is stored below e says the same. */
  ghost predicate Unaffected(es: iset<Entry>, j: Job, input: seq<Entry>, e: Entry, s: nat) {
    || (exists x :: x in es && x.key == e.key && e.sn < x.sn <= s)
    || Shows(Older(es, input, e, j.input, j.level), e.key, s, e.value)
  }

  ghost predicate AllUnaffected(es: iset<Entry>, j: Job, input: seq<Entry>, s: nat) {
    forall e :: e in input && IsNewest(input, None, e) ==> Unaffected(es, j, input, e, s)
  }

  /** Whatever was shown is still shown. */
  ghost predicate StillShown(es: iset<Entry>, es': iset<Entry>, s: nat) {
    forall k, val :: Shows(es, k, s, val) ==> Shows(es', k, s, val)
  }

  lemma {:induction false} NewestOf(input: seq<Entry>, x: Entry) returns (e: Entry)
    requires x in input
    ensures e in input && e.key == x.key && IsNewest(input, None, e)
  {
    var front, last := input[..|input| - 1], input[|input| - 1];
    assert forall y :: y in input <==> y in front || y == last;
    if x in front {
      e := NewestOf(front, x);
      if last.key == x.key && last.sn > e.sn { e := last; }
    } else if exists y :: y in front && y.key == x.key {
      var y :| y in front && y.key == x.key;
      e := NewestOf(front, y);
      if last.sn > e.sn { e := last; }
    } else {
      e := x;
    }
  }

  lemma InputWithin(v: Files, j: Job, input: seq<Entry>, s: nat)
    requires JobOk(v, j) && Merged(input, j.in0, j.in1) && Bounded(VersionEntries(v), s)
    ensures forall e :: e in input ==> e in VersionEntries(v) && e.sn <= s
  {
    hide JobOk, VersionEntries;
    forall e | e in input
      ensures e in VersionEntries(v)
    {
      InputInVersion(v, j, e);
    }
  }

  /** As written, a merge changes no answer exactly when it leaves each of its newest input versions
      unaffected. */
  lemma AsWrittenKeepsAllIff(upper: iset<Entry>, v: Files, v': Files, j: Job, input: seq<Entry>, outs: seq<File>,
      s: nat)
    requires JobOk(v, j) && Shape(v) && Merged(input, j.in0, j.in1) && OutputsOf(outs, input, AsWritten, j)
    requires Replaced(v, v', j.level, j.in0, j.in1, outs) && Bounded(VersionEntries(v), s)
    requires Distinct(upper + VersionEntries(v)) && Newer(upper, VersionEntries(v))
    ensures StillShown(upper + VersionEntries(v), upper + VersionEntries(v'), s)
       <==> AllUnaffected(upper + VersionEntries(v), j, input, s)
  {
    hide JobOk, Shape, Merged, OutputsOf, Replaced, Bounded, Distinct, Newer, VersionEntries, Shows, IsNewest, Older;
    var es, es' := upper + VersionEntries(v), upper + VersionEntries(v');
    InputWithin(v, j, input, s);
    forall e | e in input && IsNewest(input, None, e)
      ensures (forall val :: Shows(es, e.key, s, val) ==> Shows(es', e.key, s, val)) <==> Unaffected(es, j, input, e, s)
    {
      AsWrittenKeepsIff(upper, v, v', j, input, outs, e, s);
    }
    forall k, val | AllUnaffected(es, j, input, s) && Shows(es, k, s, val)
      ensures Shows(es', k, s, val)
    {
      if exists x :: x in input && x.key == k {
        var x :| x in input && x.key == k;
        var e := NewestOf(input, x);
      } else {
        OtherKey(upper, v, v', j, input, outs, k, s);
      }
    }
  }

  /** A merge does not touch keys outside its input. */
  lemma OtherKey(upper: iset<Entry>, v: Files, v': Files, j: Job, input: seq<Entry>, outs: seq<File>, k: UserKey,
      s: nat)
    requires JobOk(v, j) && Shape(v) && Merged(input, j.in0, j.in1) && OutputsOf(outs, input, AsWritten, j)
    requires Replaced(v, v', j.level, j.in0, j.in1, outs) && !exists x :: x in input && x.key == k
    ensures forall val :: Shows(upper + VersionEntries(v), k, s, val) <==> Shows(upper + VersionEntries(v'), k, s, val)
  {
    hide JobOk, Shape, Merged, OutputsOf, Replaced, VersionEntries, Shows, Survive;
    MergeKeeps(v, v', j, input, outs, AsWritten);
    SameAnswers(upper + VersionEntries(v), upper + VersionEntries(v'), k, s);
  }

  // ---------------------------------------------------------------- harmless merges

  /** A merge that does no harm: its outputs are apart, and no answer changes. Under the repaired
      rule, that is every merge. */
  ghost predicate Harmless(es: iset<Entry>, j: Job, input: seq<Entry>, outs: seq<File>, rule: DropRule, s: nat) {
    rule == AsWritten ==> AllApart(outs) && AllUnaffected(es, j, input, s)
  }

  /** The outputs of a harmless merge can take the place of its inputs. */
  lemma HarmlessReplaceable(es: iset<Entry>, v: Files, j: Job, input: seq<Entry>, outs: seq<File>, rule: DropRule,
      s: nat)
    requires JobOk(v, j) && Merged(input, j.in0, j.in1) && OutputsOf(outs, input, rule, j)
    requires Harmless(es, j, input, outs, rule, s)
    ensures Replaceable(v, j.level, j.in0, j.in1, outs)
  {
    hide JobOk, OutputsOf, AllUnaffected, Replaceable, Merged, Apart;
    if rule == Repaired {
      RepairedReplaceable(v, j, input, outs);
    } else {
      OutputsReplaceable(v, j, input, outs, rule);
    }
  }

  /** A harmless merge changes no answer. */
  lemma HarmlessKeepsAll(upper: iset<Entry>, v: Files, v': Files, j: Job, input: seq<Entry>, outs: seq<File>,
      rule: DropRule, s: nat)
    requires JobOk(v, j) && Shape(v) && Merged(input, j.in0, j.in1) && OutputsOf(outs, input, rule, j)
    requires Replaced(v, v', j.level, j.in0, j.in1, outs) && Bounded(VersionEntries(v), s)
    requires Distinct(upper + VersionEntries(v)) && Newer(upper, VersionEntries(v))
    requires Harmless(upper + VersionEntries(v), j, input, outs, rule, s)
    ensures StillShown(upper + VersionEntries(v), upper + VersionEntries(v'), s)
  {
    hide JobOk, Shape, Merged, OutputsOf, Replaced, Bounded, Distinct, Newer, VersionEntries, Shows, AllUnaffected,
        AllApart;
    if rule == Repaired {
      RepairedKeepsAll(upper, v, v', j, input, outs, s);
    } else {
      AsWrittenKeepsAllIff(upper, v, v', j, input, outs, s);
    }
  }
}
