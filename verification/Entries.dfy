/** Versions of user keys, as every level of the store sees them.

    A user key stands for its place in the comparator's order, as a real number: every countable
    total order embeds in the reals, and `Comparator.RankEmbeds` gives such an embedding for the
    bytewise order. */
module Entries {
  import opened Base

  type UserKey = real

  /** One version of a key; a `None` value is a deletion. */
  datatype Entry = Entry(key: UserKey, sn: nat, value: Option<Bytes>)

  /** InternalKeyComparator: user key ascending, then sequence number descending. */
  predicate Before(a: Entry, b: Entry) {
    a.key < b.key || (a.key == b.key && a.sn > b.sn)
  }

  predicate Sorted(es: seq<Entry>) {
    forall i, j :: 0 <= i < j < |es| ==> Before(es[i], es[j])
  }

  ghost predicate IsBest(es: iset<Entry>, k: UserKey, s: nat, e: Entry) {
    && e in es && e.key == k && e.sn <= s
    && (forall x :: x in es && x.key == k && x.sn <= s ==> x.sn <= e.sn)
  }

  ghost predicate Absent(es: iset<Entry>, k: UserKey, s: nat) {
    forall x :: x in es && x.key == k ==> x.sn > s
  }

  /** r is the newest version of k at or below sequence number s, if there is one. */
  ghost predicate Finds(es: iset<Entry>, k: UserKey, s: nat, r: Option<Entry>) {
    match r
    case None => Absent(es, k, s)
    case Some(e) => IsBest(es, k, s, e)
  }

  /** The answer a reader gives for a version: nothing, for a deletion or no version. */
  function Answer(r: Option<Entry>): (v: Option<Bytes>) {
    match r
    case None => None
    case Some(e) => e.value
  }

  /** A reader at sequence number s must answer v for k. */
  ghost predicate Shows(es: iset<Entry>, k: UserKey, s: nat, v: Option<Bytes>) {
    exists r :: Finds(es, k, s, r) && Answer(r) == v
  }

  /** No two versions of a key carry the same sequence number. */
  ghost predicate Distinct(es: iset<Entry>) {
    forall a, b :: a in es && b in es && a.key == b.key && a.sn == b.sn ==> a == b
  }

  /** Every version in `es` is newer than every version of the same key in `fs`. */
  ghost predicate Newer(es: iset<Entry>, fs: iset<Entry>) {
    forall a, b :: a in es && b in fs && a.key == b.key ==> a.sn > b.sn
  }

  lemma FindsUnique(es: iset<Entry>, k: UserKey, s: nat, r: Option<Entry>, r': Option<Entry>)
    requires Distinct(es) && Finds(es, k, s, r) && Finds(es, k, s, r')
    ensures r == r'
  {}

  /** Looking into the newer collection first, and below it only on a miss, finds the newest
      version of all. */
  lemma FindsLayered(es: iset<Entry>, fs: iset<Entry>, k: UserKey, s: nat, r: Option<Entry>, r': Option<Entry>)
    requires Newer(es, fs) && Finds(es, k, s, r) && (r.None? ==> Finds(fs, k, s, r'))
    ensures Finds(es + fs, k, s, if r.Some? then r else r')
  {}

  ghost function Contents(es: seq<Entry>): (r: iset<Entry>) {
    iset e | e in es
  }

  /** The first entry at or after (k, s) in internal order, if it is a version of k: what a seek
      in a sorted table or memtable delivers. */
  function Seek(es: seq<Entry>, k: UserKey, s: nat): (r: Option<Entry>) {
    if es == [] then None
    else if es[0].key < k || (es[0].key == k && es[0].sn > s) then Seek(es[1..], k, s)
    else if es[0].key == k then Some(es[0]) else None
  }

  lemma {:induction false} SeekFinds(es: seq<Entry>, k: UserKey, s: nat)
    requires Sorted(es)
    ensures Finds(Contents(es), k, s, Seek(es, k, s))
  {
    if es != [] {
      var e, rest := es[0], es[1..];
      assert forall x :: x in es ==> x == e || (x in rest && Before(e, x)) by {
        forall x | x in es ensures x == e || (x in rest && Before(e, x)) {
          var i :| 0 <= i < |es| && es[i] == x;
          if i > 0 { assert rest[i - 1] == x; }
        }
      }
      if e.key < k || (e.key == k && e.sn > s) {
        SeekFinds(rest, k, s);
        assert forall x :: x in Contents(es) <==> x == e || x in Contents(rest);
      }
    }
  }

  // ---------------------------------------------------------------- files

  /** A table: a file number and its entries, as the builder receives them. */
  datatype Table = Table(number: nat, entries: seq<Entry>) {
    predicate Ok() {
      |entries| > 0 && Sorted(entries)
    }

    function Lo(): (k: UserKey)
      requires |entries| > 0
    {
      entries[0].key
    }

    function Hi(): (k: UserKey)
      requires |entries| > 0
    {
      entries[|entries| - 1].key
    }
  }

  /** A table file as levels hold it: sorted and not empty. Its recorded bounds are its first and
      last entry. */
  type File = t: Table | t.Ok() witness Table(0, [Entry(0.0, 0, None)])

  lemma InBounds(f: File, e: Entry)
    requires e in f.entries
    ensures f.Lo() <= e.key <= f.Hi()
  {
    var i :| 0 <= i < |f.entries| && f.entries[i] == e;
    assert i > 0 ==> Before(f.entries[0], e);
    assert i < |f.entries| - 1 ==> Before(e, f.entries[|f.entries| - 1]);
  }

  lemma SortedDistinct(es: seq<Entry>)
    requires Sorted(es)
    ensures Distinct(Contents(es))
  {}
}
