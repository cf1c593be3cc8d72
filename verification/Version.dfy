/** db/version: the files of a version, the invariant on their shape, and the point lookup that
    probes them. */
module Version {
  import opened Base
  import opened Entries

  const LEVELS: nat := 7

  /** The files of each level, level 0 first. */
  type Files = seq<seq<File>>

  ghost predicate InLevel(fs: seq<File>, e: Entry) {
    exists f :: f in fs && e in f.entries
  }

  ghost function LevelEntries(fs: seq<File>): (r: iset<Entry>) {
    iset e | InLevel(fs, e)
  }

  ghost predicate InVersion(v: Files, e: Entry) {
    exists l :: 0 <= l < |v| && InLevel(v[l], e)
  }

  ghost function VersionEntries(v: Files): (r: iset<Entry>) {
    iset e | InVersion(v, e)
  }

  /** A level below the first: sorted, with pairwise disjoint user-key ranges. */
  ghost predicate Disjoint(fs: seq<File>) {
    forall i, j :: 0 <= i < j < |fs| ==> fs[i].Hi() < fs[j].Lo()
  }

  /** Level 0: ranges may overlap, and the file with the larger number is the newer one. */
  ghost predicate Stacked(fs: seq<File>) {
    && (forall f, g :: f in fs && g in fs && f.number == g.number ==> f == g)
    && (forall f, g :: f in fs && g in fs && f.number > g.number ==> Newer(Contents(f.entries), Contents(g.entries)))
  }

  /** The shape every version keeps: what lets a reader stop at the first hit and probe a single
      file per level. */
  ghost predicate Shape(v: Files) {
    && |v| == LEVELS
    && Stacked(v[0])
    && (forall l :: 1 <= l < LEVELS ==> Disjoint(v[l]))
    && (forall l, m :: 0 <= l < m < LEVELS ==> Newer(LevelEntries(v[l]), LevelEntries(v[m])))
  }

  // ---------------------------------------------------------------- lookup

  /** The binary search of FindFile between lo and hi, on any list. */
  function Search(fs: seq<File>, k: UserKey, lo: nat, hi: nat): (at: nat)
    requires lo <= hi <= |fs|
    ensures lo <= at <= hi
    decreases hi - lo
  {
    if lo == hi then hi
    else
      var mid := (lo + hi) / 2;
      if k > fs[mid].Hi() then Search(fs, k, mid + 1, hi) else Search(fs, k, lo, mid)
  }

  ghost predicate IsFirst(fs: seq<File>, k: UserKey, at: nat) {
    && at <= |fs| && (forall i :: 0 <= i < at ==> fs[i].Hi() < k)
    && (forall i :: at <= i < |fs| ==> k <= fs[i].Hi())
  }

  lemma {:induction false} SearchIs(fs: seq<File>, k: UserKey, lo: nat, hi: nat)
    requires Disjoint(fs) && lo <= hi <= |fs|
    requires (forall i :: 0 <= i < lo ==> fs[i].Hi() < k) && (forall i :: hi <= i < |fs| ==> k <= fs[i].Hi())
    ensures IsFirst(fs, k, Search(fs, k, lo, hi))
    decreases hi - lo
  {
    if lo < hi {
      var mid := (lo + hi) / 2;
      HiIncreases(fs);
      if k > fs[mid].Hi() { SearchIs(fs, k, mid + 1, hi); } else { SearchIs(fs, k, lo, mid); }
    }
  }

  /** FindFile: in a sorted level, the first file whose largest user key is not below k. */
  method FindFile(fs: seq<File>, k: UserKey) returns (at: nat)
    ensures at == Search(fs, k, 0, |fs|)
    ensures Disjoint(fs) ==> IsFirst(fs, k, at)
  {
    var lo, hi := 0, |fs|;
    while lo < hi
      invariant 0 <= lo <= hi <= |fs|
      invariant Search(fs, k, lo, hi) == Search(fs, k, 0, |fs|)
    {
      var mid := (lo + hi) / 2;
      if k > fs[mid].Hi() {
        lo := mid + 1;
      } else {
        hi := mid;
      }
    }
    if Disjoint(fs) { SearchIs(fs, k, 0, |fs|); }
    return hi;
  }

  lemma HiIncreases(fs: seq<File>)
    requires Disjoint(fs)
    ensures forall i, j :: 0 <= i < j < |fs| ==> fs[i].Hi() < fs[j].Hi()
  {
    forall i, j | 0 <= i < j < |fs|
      ensures fs[i].Hi() < fs[j].Hi()
    {
      assert fs[j] in fs;
      InBounds(fs[j], fs[j].entries[0]);
    }
  }

  /** What one probe of a level delivers, sorted or not. */
  function Probe(fs: seq<File>, k: UserKey, s: nat): (r: Option<Entry>) {
    var at := Search(fs, k, 0, |fs|);
    if at < |fs| && k >= fs[at].Lo() then Seek(fs[at].entries, k, s) else None
  }

  /** Only the file that the search picks can hold the key. */
  lemma ProbeFinds(fs: seq<File>, k: UserKey, s: nat)
    requires Disjoint(fs)
    ensures Finds(LevelEntries(fs), k, s, Probe(fs, k, s))
  {
    SearchIs(fs, k, 0, |fs|);
    var at := Search(fs, k, 0, |fs|);
    if at < |fs| && k >= fs[at].Lo() {
      SeekFinds(fs[at].entries, k, s);
      assert fs[at] in fs;
    }
    forall e | e in LevelEntries(fs) && e.key == k
      ensures at < |fs| && k >= fs[at].Lo() && e in fs[at].entries
    {
      var f :| f in fs && e in f.entries;
      var i :| 0 <= i < |fs| && fs[i] == f;
      InBounds(f, e);
      assert at <= i;
    }
  }

  /** One probe of a deeper level. */
  method ProbeLevel(fs: seq<File>, k: UserKey, s: nat) returns (r: Option<Entry>)
    ensures r == Probe(fs, k, s)
    ensures Disjoint(fs) ==> Finds(LevelEntries(fs), k, s, r)
  {
    var at := FindFile(fs, k);
    r := None;
    if at < |fs| && k >= fs[at].Lo() {
      r := Seek(fs[at].entries, k, s);
    }
    if Disjoint(fs) { ProbeFinds(fs, k, s); }
  }

  ghost predicate NewestFirst(fs: seq<File>) {
    forall i, j :: 0 <= i < j < |fs| ==> fs[i].number >= fs[j].number
  }

  method InsertNewestFirst(fs: seq<File>, f: File) returns (r: seq<File>)
    requires NewestFirst(fs)
    ensures NewestFirst(r)
    ensures forall g :: g in r <==> g in fs || g == f
    ensures multiset(r) == multiset(fs) + multiset{f}
  {
    var at := 0;
    while at < |fs| && fs[at].number >= f.number
      invariant 0 <= at <= |fs|
      invariant forall i :: 0 <= i < at ==> fs[i].number >= f.number
    {
      at := at + 1;
    }
    assert fs == fs[..at] + fs[at..];
    r := fs[..at] + [f] + fs[at..];
  }

  /** std::sort by NewFirst. */
  method SortNewestFirst(fs: seq<File>) returns (r: seq<File>)
    ensures NewestFirst(r) && multiset(r) == multiset(fs)
    ensures forall f :: f in r <==> f in fs
  {
    r := [];
    for n := 0 to |fs|
      invariant NewestFirst(r) && multiset(r) == multiset(fs[..n])
      invariant forall f :: f in r <==> f in fs[..n]
    {
      r := InsertNewestFirst(r, fs[n]);
      assert fs[..n + 1] == fs[..n] + [fs[n]];
    }
    assert fs[..|fs|] == fs;
  }

  ghost predicate Covers(f: File, k: UserKey) {
    f.Lo() <= k <= f.Hi()
  }

  /** Level 0: the covering files from newest to oldest, up to the first hit. */
  method ProbeLevel0(fs: seq<File>, k: UserKey, s: nat) returns (r: Option<Entry>)
    ensures Stacked(fs) ==> Finds(LevelEntries(fs), k, s, r)
    ensures r.Some? ==> exists f :: f in fs && Covers(f, k)
  {
    var tmp := [];
    for n := 0 to |fs|
      invariant forall f :: f in tmp <==> f in fs[..n] && Covers(f, k)
    {
      assert fs[..n + 1] == fs[..n] + [fs[n]];
      if k <= fs[n].Hi() && k >= fs[n].Lo() {
        tmp := tmp + [fs[n]];
      }
    }
    assert fs[..|fs|] == fs;
    var order := SortNewestFirst(tmp);
    for n := 0 to |order|
      invariant forall f :: f in order[..n] ==> Absent(Contents(f.entries), k, s)
    {
      var f := order[n];
      assert f in fs;
      r := Seek(f.entries, k, s);
      SeekFinds(f.entries, k, s);
      if r.Some? {
        if Stacked(fs) { BestInStack(fs, order, n, k, s, r.value); }
        return;
      }
      assert order[..n + 1] == order[..n] + [f];
    }
    r := None;
    assert order[..|order|] == order;
    forall e | e in LevelEntries(fs) && e.key == k
      ensures e.sn > s
    {
      var f :| f in fs && e in f.entries;
      InBounds(f, e);
      assert f in order;
      assert e in Contents(f.entries);
    }
  }

  lemma BestInStack(fs: seq<File>, order: seq<File>, n: nat, k: UserKey, s: nat, e: Entry)
    requires Stacked(fs) && n < |order|
    requires forall f :: f in order <==> f in fs && Covers(f, k)
    requires NewestFirst(order)
    requires forall f :: f in order[..n] ==> Absent(Contents(f.entries), k, s)
    requires IsBest(Contents(order[n].entries), k, s, e)
    ensures IsBest(LevelEntries(fs), k, s, e)
  {
    var f := order[n];
    assert f in fs;
    forall i | 0 <= i < n
      ensures Absent(Contents(order[i].entries), k, s)
    {
      assert order[i] == order[..n][i];
    }
    forall x | x in LevelEntries(fs) && x.key == k && x.sn <= s
      ensures x.sn <= e.sn
    {
      var g :| g in fs && x in g.entries;
      InBounds(g, x);
      assert g in order;
      var i :| 0 <= i < |order| && order[i] == g;
      assert x in Contents(g.entries);
      if f.number > g.number {
        assert Newer(Contents(f.entries), Contents(g.entries));
      } else {
        assert f == g;
      }
    }
  }

  /** The first hit in level l or below. */
  function FirstHit(v: Files, l: nat, k: UserKey, s: nat): (r: Option<Entry>)
    decreases |v| - l
  {
    if l >= |v| then None else if Probe(v[l], k, s).Some? then Probe(v[l], k, s) else FirstHit(v, l + 1, k, s)
  }

  ghost predicate Uncovered(fs: seq<File>, k: UserKey) {
    forall f :: f in fs ==> !Covers(f, k)
  }

  /** Version::Get with ForEachFile: probes level 0 from the newest file, then one file of each
      deeper level, and stops at the first hit. In a version of the right shape, it finds the newest
      version of the key. */
  method Get(v: Files, k: UserKey, s: nat) returns (r: Option<Entry>)
    requires |v| == LEVELS
    ensures Shape(v) ==> Finds(VersionEntries(v), k, s, r)
    ensures Uncovered(v[0], k) ==> r == FirstHit(v, 1, k, s)
  {
    hide Probe;
    r := ProbeLevel0(v[0], k, s);
    if r.Some? {
      if Shape(v) { HitAtLevel(v, 0, k, s, r.value); }
      return;
    }
    for l := 1 to LEVELS
      invariant Shape(v) ==> forall m :: 0 <= m < l ==> Absent(LevelEntries(v[m]), k, s)
      invariant FirstHit(v, l, k, s) == FirstHit(v, 1, k, s)
    {
      if v[l] == [] {
        ProbeNothing(k, s);
        continue;
      }
      r := ProbeLevel(v[l], k, s);
      if r.Some? {
        if Shape(v) { HitAtLevel(v, l, k, s, r.value); }
        return;
      }
    }
    r := None;
    if Shape(v) { AbsentBelow(v, k, s); }
  }

  lemma ProbeNothing(k: UserKey, s: nat)
    ensures Probe([], k, s) == None && LevelEntries([]) == iset{}
  {}

  lemma AbsentBelow(v: Files, k: UserKey, s: nat)
    requires |v| == LEVELS && forall m :: 0 <= m < LEVELS ==> Absent(LevelEntries(v[m]), k, s)
    ensures Absent(VersionEntries(v), k, s)
  {
    forall e | e in VersionEntries(v) && e.key == k
      ensures e.sn > s
    {
      var l :| 0 <= l < |v| && InLevel(v[l], e);
      assert e in LevelEntries(v[l]);
    }
  }

  lemma HitAtLevel(v: Files, l: nat, k: UserKey, s: nat, e: Entry)
    requires Shape(v) && l < LEVELS && IsBest(LevelEntries(v[l]), k, s, e)
    requires forall m :: 0 <= m < l ==> Absent(LevelEntries(v[m]), k, s)
    ensures IsBest(VersionEntries(v), k, s, e)
  {
    forall x | x in VersionEntries(v) && x.key == k && x.sn <= s
      ensures x.sn <= e.sn
    {
      var m :| 0 <= m < |v| && InLevel(v[m], x);
      assert x in LevelEntries(v[m]);
      if m > l { assert Newer(LevelEntries(v[l]), LevelEntries(v[m])); }
    }
  }

  /** In a shaped version no key has two versions with one sequence number. */
  lemma ShapeDistinct(v: Files)
    requires Shape(v)
    ensures Distinct(VersionEntries(v))
  {
    forall a, b | a in VersionEntries(v) && b in VersionEntries(v) && a.key == b.key && a.sn == b.sn
      ensures a == b
    {
      var l :| 0 <= l < |v| && InLevel(v[l], a);
      var m :| 0 <= m < |v| && InLevel(v[m], b);
      assert a in LevelEntries(v[l]) && b in LevelEntries(v[m]);
      assert l == m;
      LevelDistinct(v[l], a, b);
    }
  }

  lemma LevelDistinct(fs: seq<File>, a: Entry, b: Entry)
    requires (Disjoint(fs) || Stacked(fs)) && InLevel(fs, a) && InLevel(fs, b) && a.key == b.key && a.sn == b.sn
    ensures a == b
  {
    var f :| f in fs && a in f.entries;
    var g :| g in fs && b in g.entries;
    assert a in Contents(f.entries) && b in Contents(g.entries);
    if Disjoint(fs) { SameFile(fs, f, g, a, b); }
    SortedDistinct(f.entries);
  }

  lemma SameFile(fs: seq<File>, f: File, g: File, a: Entry, b: Entry)
    requires Disjoint(fs) && f in fs && g in fs && a in f.entries && b in g.entries && a.key == b.key
    ensures f == g
  {
    InBounds(f, a);
    InBounds(g, b);
    var i :| 0 <= i < |fs| && fs[i] == f;
    var j :| 0 <= j < |fs| && fs[j] == g;
  }
}
