/** util/cache: the circular, doubly linked lists on which the cache keeps its handles. */
module HandleList {
  /** The link fields of a handle, or of the list's own head. */
  class Link {
    var next: Link?
    var prev: Link?

    constructor ()
    {}
  }

  /** The links stand in a circle, in this order. */
  ghost predicate Ring(links: seq<Link>)
    reads links
  {
    (forall i, j :: 0 <= i < j < |links| ==> links[i] != links[j]) && forall i: nat :: JoinedAt(links, i)
  }

  ghost predicate JoinedAt(links: seq<Link>, i: nat)
    reads links
  {
    i < |links| ==> Joined(links[i], links[Behind(links, i)])
  }

  function Behind(links: seq<Link>, i: nat): (j: nat)
    requires i < |links|
    ensures j < |links| && j == if i + 1 < |links| then i + 1 else 0
  {
    if i + 1 < |links| then i + 1 else 0
  }

  ghost predicate Joined(a: Link, b: Link)
    reads a, b
  {
    a.next == b && b.prev == a
  }

  /** The circle without place i + 1: who stands at place k, and who behind it. */
  lemma Skipped(was: seq<Link>, ring: seq<Link>, i: nat, k: nat)
    requires (forall i, j :: 0 <= i < j < |was| ==> was[i] != was[j]) && i + 1 < |was|
    requires ring == was[..i + 1] + was[i + 2..] && k < |ring|
    ensures var a := if k <= i then k else k + 1;
      && ring[k] == was[a] != was[i + 1]
      && (k == i ==> ring[Behind(ring, k)] == was[Behind(was, i + 1)])
      && (k != i ==> ring[k] != was[i] && ring[Behind(ring, k)] == was[Behind(was, a)] != was[Behind(was, i + 1)])
  {}

  /** A list of handles: a head and the links behind it, the next victim first. */
  class List {
    const head: Link
    ghost var links: seq<Link>

    ghost predicate Valid()
      reads this, head, links
    {
      Ring([head] + links)
    }

    /** LRUCache's constructor: the head points to itself. */
    constructor ()
      ensures Valid() && links == [] && fresh(head)
    {
      var h := new Link();
      h.next, h.prev := h, h;
      head, links := h, [];
    }

    /** lru_.next == &lru_. */
    method IsEmpty() returns (empty: bool)
      requires Valid()
      ensures empty <==> links == []
    {
      At(0);
      empty := head.next == head;
    }

    /** The next victim. */
    method First() returns (e: Link)
      requires Valid() && links != []
      ensures e == links[0]
    {
      At(0);
      e := head.next;
    }

    /** LRU_Append: behind the last link, whatever e was linked to. */
    method Append(e: Link)
      requires Valid() && e != head && e !in links
      modifies this, e, head, links
      ensures Valid() && links == old(links) + [e]
    {
      ghost var was := [head] + links;
      At(|links|);
      e.next := head;
      e.prev := head.prev;
      e.next.prev := e;
      e.prev.next := e;
      links := links + [e];
      ghost var ring := was + [e];
      assert [head] + links == ring;
      forall k: nat
        ensures JoinedAt(ring, k)
      {
        if k < |was| {
          assert old(JoinedAt(was, k)) && ring[k] == was[k];
          if k + 1 < |was| { assert ring[Behind(ring, k)] == was[k + 1] && was[k + 1] != was[0]; }
        }
      }
    }

    /** LRU_Remove: the neighbours of e join up. */
    method Remove(e: Link, ghost i: nat)
      requires Valid() && i < |links| && links[i] == e
      modifies this, head, links
      ensures Valid() && links == old(links[..i] + links[i + 1..])
    {
      ghost var was := [head] + links;
      ghost var ring := was[..i + 1] + was[i + 2..];
      At(i);
      At(i + 1);
      e.next.prev := e.prev;
      e.prev.next := e.next;
      links := links[..i] + links[i + 1..];
      assert [head] + links == ring;
      ghost var before, behind := was[i], was[Behind(was, i + 1)];
      assert before.next == behind && behind.prev == before;
      forall k: nat
        ensures JoinedAt(ring, k)
      {
        if k < |ring| {
          var a := if k <= i then k else k + 1;
          Skipped(was, ring, i, k);
          if k != i {
            assert old(JoinedAt(was, a));
            assert was[a].next == old(was[a].next) && was[Behind(was, a)].prev == old(was[Behind(was, a)].prev);
          }
        }
      }
    }

    /** Place i of the circle, the head being 0, and the one behind it. */
    lemma At(i: nat)
      requires Valid() && i <= |links|
      ensures var ring := [head] + links; Joined(ring[i], ring[if i < |links| then i + 1 else 0])
    {
      assert JoinedAt([head] + links, i);
    }
  }
}
