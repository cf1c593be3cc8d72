/** db/memtable/skiplist.h: nodes with one forward link per level, each level a sublist of the one
    below. */
module SkipList {
  import opened Base
  import opened Merging

  const MAX_HEIGHT: nat := 12

  // ---------------------------------------------------------------- heights

  /** The next position behind i whose node reaches above level l; |h|, if there is none. */
  function NextAt(h: seq<nat>, i: nat, l: nat): (j: nat)
    requires i < |h|
    ensures i < j <= |h|
    decreases |h| - i
  {
    if i + 1 == |h| then |h| else if h[i + 1] > l then i + 1 else NextAt(h, i + 1, l)
  }

  lemma {:induction false} NextAtIs(h: seq<nat>, i: nat, l: nat)
    requires i < |h|
    ensures NextAt(h, i, l) < |h| ==> h[NextAt(h, i, l)] > l
    ensures forall k :: i < k < NextAt(h, i, l) ==> h[k] <= l
    decreases |h| - i
  {
    if i + 1 < |h| && h[i + 1] <= l { NextAtIs(h, i + 1, l); }
  }

  lemma NextAtUnique(h: seq<nat>, i: nat, l: nat, j: nat)
    requires i < j <= |h| && (j < |h| ==> h[j] > l) && forall k :: i < k < j ==> h[k] <= l
    ensures NextAt(h, i, l) == j
  {
    NextAtIs(h, i, l);
    var j' := NextAt(h, i, l);
  }

  function Inserted<T>(s: seq<T>, at: nat, x: T): (r: seq<T>)
    requires at <= |s|
    ensures |r| == |s| + 1 && r[at] == x
    ensures forall k :: 0 <= k < at ==> r[k] == s[k]
    ensures forall k :: at < k < |r| ==> r[k] == s[k - 1]
  {
    s[..at] + [x] + s[at..]
  }

  lemma InsertedElements<T>(s: seq<T>, at: nat, x: T)
    requires at <= |s|
    ensures forall y :: y in Inserted(s, at, x) <==> y in s || y == x
  {
    assert s == s[..at] + s[at..];
  }

  function Caught(j: nat, at: nat, x: nat, l: nat): (r: nat) {
    if j < at then j else if x > l then at else j + 1
  }

  /** Links after an insertion at `at`: those of positions behind it move along, those of positions
      before it are caught by the new node if it reaches that level. */
  lemma NextAfterInsert(h: seq<nat>, at: nat, x: nat, i: nat, l: nat)
    requires 0 < at <= |h| && i < |h|
    ensures i >= at ==> NextAt(Inserted<nat>(h, at, x), i + 1, l) == NextAt(h, i, l) + 1
    ensures i < at ==> NextAt(Inserted<nat>(h, at, x), i, l) == Caught(NextAt(h, i, l), at, x, l)
    ensures i < at <= NextAt(h, i, l) ==> NextAt(Inserted<nat>(h, at, x), at, l) == NextAt(h, i, l) + 1
  {
    hide NextAt, Inserted;
    NextAtIs(h, i, l);
    var h', j := Inserted<nat>(h, at, x), NextAt(h, i, l);
    if i >= at {
      NextAtUnique(h', i + 1, l, j + 1);
    } else if j < at {
      NextAtUnique(h', i, l, j);
    } else {
      NextAtUnique(h', i, l, if x > l then at else j + 1);
      NextAtUnique(h', at, l, j + 1);
    }
  }

  /** The positions met by following the links of level l from position i. */
  ghost function Chain(h: seq<nat>, i: nat, l: nat): (r: seq<nat>)
    requires i < |h|
    decreases |h| - i
  {
    var j := NextAt(h, i, l);
    if j == |h| then [] else [j] + Chain(h, j, l)
  }

  /** A level's chain holds exactly the nodes that reach it, in order. */
  lemma {:induction false} ChainIs(h: seq<nat>, i: nat, l: nat)
    requires i < |h|
    ensures forall k :: k in Chain(h, i, l) <==> i < k < |h| && h[k] > l
    ensures forall a, b :: 0 <= a < b < |Chain(h, i, l)| ==> Chain(h, i, l)[a] < Chain(h, i, l)[b]
    decreases |h| - i
  {
    hide NextAt;
    NextAtIs(h, i, l);
    var j := NextAt(h, i, l);
    if j < |h| {
      ChainIs(h, j, l);
      assert forall b :: 0 <= b < |Chain(h, j, l)| ==> Chain(h, j, l)[b] in Chain(h, j, l);
    }
  }

  /** So every level is a sublist of the level below it, and level 0 is the whole list. */
  lemma LevelsNest(h: seq<nat>, l: nat)
    requires h != [] && forall i :: 0 < i < |h| ==> h[i] >= 1
    ensures forall k :: k in Chain(h, 0, l + 1) ==> k in Chain(h, 0, l)
    ensures forall k :: 0 < k < |h| ==> k in Chain(h, 0, 0)
  {
    hide Chain;
    ChainIs(h, 0, l);
    ChainIs(h, 0, l + 1);
    ChainIs(h, 0, 0);
  }

  // ---------------------------------------------------------------- the list

  lemma Flip<K(!new)>(cmp: Order<K>, a: K, b: K)
    requires TotalOrder(cmp)
    ensures cmp(a, b) > 0 <==> cmp(b, a) < 0
  {}

  class Node<K> {
    const key: K
    var next: seq<Node?<K>>

    constructor (key: K, height: nat)
      ensures this.key == key && |next| == height && forall l :: 0 <= l < height ==> next[l] == null
    {
      this.key, next := key, seq(height, _ => null);
    }
  }

  /** The keys of a node list without its head. */
  ghost function KeysOf<K>(ns: seq<Node<K>>): (r: seq<K>)
    ensures |r| == if ns == [] then 0 else |ns| - 1
    ensures forall i :: 0 <= i < |r| ==> r[i] == ns[i + 1].key
  {
    if ns == [] then [] else seq(|ns| - 1, i requires 0 <= i < |ns| - 1 => ns[i + 1].key)
  }

  lemma KeysInserted<K>(ns: seq<Node<K>>, at: nat, node: Node<K>)
    requires 0 < at <= |ns|
    ensures KeysOf(Inserted(ns, at, node)) == Inserted(KeysOf(ns), at - 1, node.key)
  {}

  lemma AscendingInserted<K(!new)>(cmp: Order<K>, keys: seq<K>, at: nat, key: K)
    requires TotalOrder(cmp) && Ascending(cmp, keys) && at <= |keys|
    requires forall i :: 0 <= i < at ==> cmp(keys[i], key) < 0
    requires forall i :: at <= i < |keys| ==> cmp(keys[i], key) >= 0
    ensures Ascending(cmp, Inserted(keys, at, key))
  {
    hide Inserted;
    var r := Inserted(keys, at, key);
    forall i, j | 0 <= i < j < |r|
      ensures cmp(r[i], r[j]) <= 0
    {
      if i == at { Flip(cmp, key, r[j]); }
    }
  }

  lemma FirstNotBelow<K(!new)>(cmp: Order<K>, keys: seq<K>, key: K) returns (at: nat)
    requires TotalOrder(cmp) && Ascending(cmp, keys)
    ensures at <= |keys|
    ensures forall i :: 0 <= i < at ==> cmp(keys[i], key) < 0
    ensures forall i :: at <= i < |keys| ==> cmp(keys[i], key) >= 0
  {
    at := 0;
    while at < |keys| && cmp(keys[at], key) < 0
      invariant at <= |keys| && forall i :: 0 <= i < at ==> cmp(keys[i], key) < 0
    {
      at := at + 1;
    }
    forall i | at <= i < |keys|
      ensures cmp(keys[i], key) >= 0
    {
      Flip(cmp, keys[i], key);
      assert i > at ==> cmp(keys[at], keys[i]) <= 0;
    }
  }

  ghost function Pick<K>(ns: seq<Node<K>>, i: nat): (n: Node?<K>) {
    if i < |ns| then ns[i] else null
  }

  ghost function Nexts<K>(ns: seq<Node<K>>): (r: seq<seq<Node?<K>>>)
    reads ns
    ensures |r| == |ns| && forall i :: 0 <= i < |r| ==> r[i] == ns[i].next
  {
    seq(|ns|, i requires 0 <= i < |ns| reads ns => ns[i].next)
  }

  /** The link of the i-th node at level l, for nodes ns with links nx and heights h. */
  ghost predicate LinkAt<K>(ns: seq<Node<K>>, nx: seq<seq<Node?<K>>>, h: seq<nat>, l: nat, i: nat) {
    i < |ns| == |nx| == |h| && l < h[i] && l < |nx[i]| ==> nx[i][l] == Pick(ns, NextAt(h, i, l))
  }

  ghost predicate Linked<K>(ns: seq<Node<K>>, nx: seq<seq<Node?<K>>>, h: seq<nat>, l: nat) {
    forall i: nat :: LinkAt(ns, nx, h, l, i)
  }

  ghost predicate Tall<K>(nx: seq<seq<Node?<K>>>, h: seq<nat>) {
    |nx| == |h| && forall i :: 0 <= i < |h| ==> |nx[i]| == h[i]
  }

  /** At level l, p is the last position before `at` that reaches above it. */
  ghost predicate Before(h: seq<nat>, p: nat, at: nat, l: nat) {
    p < at && p < |h| && h[p] > l && NextAt(h, p, l) >= at
  }

  lemma PickInserted<K>(ns: seq<Node<K>>, at: nat, node: Node<K>, j: nat)
    requires at <= |ns|
    ensures j < at ==> Pick(Inserted(ns, at, node), j) == Pick(ns, j)
    ensures j >= at ==> Pick(Inserted(ns, at, node), j + 1) == Pick(ns, j)
    ensures Pick(Inserted(ns, at, node), at) == node
  {}

  /** Splicing the new node in at level l, behind position p. */
  lemma SpliceLevel<K>(ns: seq<Node<K>>, nx: seq<seq<Node?<K>>>, h: seq<nat>, at: nat, node: Node<K>,
      links: seq<Node?<K>>, p: nat, l: nat)
    requires |ns| == |h| && Linked(ns, nx, h, l) && Tall(nx, h) && 0 < at <= |ns| && l < |links| && Before(h, p, at, l)
    ensures Linked(Inserted(ns, at, node), Inserted(nx[p := nx[p][l := node]], at, links[l := nx[p][l]]),
        Inserted<nat>(h, at, |links|), l)
  {
    var ns', h' := Inserted(ns, at, node), Inserted<nat>(h, at, |links|);
    var nx' := Inserted(nx[p := nx[p][l := node]], at, links[l := nx[p][l]]);
    hide NextAt, Inserted, Pick, LinkAt;
    forall i: nat
      ensures LinkAt(ns', nx', h', l, i)
    {
      var o := if i < at then i else if i == at then p else i - 1;
      assert LinkAt(ns, nx, h, l, o) && LinkAt(ns, nx, h, l, p);
      SpliceAt(ns, nx, h, at, node, links, p, l, i);
    }
  }

  lemma SpliceAt<K>(ns: seq<Node<K>>, nx: seq<seq<Node?<K>>>, h: seq<nat>, at: nat, node: Node<K>,
      links: seq<Node?<K>>, p: nat, l: nat, i: nat)
    requires |ns| == |h| && Tall(nx, h) && 0 < at <= |ns| && l < |links| && Before(h, p, at, l)
    requires LinkAt(ns, nx, h, l, p) && LinkAt(ns, nx, h, l, if i < at then i else if i == at then p else i - 1)
    ensures LinkAt(Inserted(ns, at, node), Inserted(nx[p := nx[p][l := node]], at, links[l := nx[p][l]]),
        Inserted<nat>(h, at, |links|), l, i)
  {
    hide Inserted, Pick;
    if i <= |ns| {
      var o := if i < at then i else if i == at then p else i - 1;
      NextAfterInsert(h, at, |links|, o, l);
      PickInserted(ns, at, node, NextAt(h, o, l));
      if i < at && i != p && h[i] > l { LastBefore(h, p, at, l, i); }
    }
  }

  lemma LastBefore(h: seq<nat>, p: nat, at: nat, l: nat, i: nat)
    requires Before(h, p, at, l) && i < at && i < |h| && h[i] > l && i != p
    ensures NextAt(h, i, l) < at
  {
    NextAtIs(h, p, l);
    NextAtIs(h, i, l);
    hide NextAt;
  }

  /** Levels that the new node does not reach. */
  lemma SkipLevel<K>(ns: seq<Node<K>>, nx: seq<seq<Node?<K>>>, h: seq<nat>, at: nat, node: Node<K>,
      links: seq<Node?<K>>, l: nat)
    requires |ns| == |h| && Linked(ns, nx, h, l) && Tall(nx, h) && 0 < at <= |ns| && l >= |links|
    ensures Linked(Inserted(ns, at, node), Inserted(nx, at, links), Inserted<nat>(h, at, |links|), l)
  {
    var ns', h', nx' := Inserted(ns, at, node), Inserted<nat>(h, at, |links|), Inserted(nx, at, links);
    hide NextAt, Inserted, Pick, LinkAt;
    forall i: nat
      ensures LinkAt(ns', nx', h', l, i)
    {
      assert LinkAt(ns, nx, h, l, if i <= at then i else i - 1);
      SkipAt(ns, nx, h, at, node, links, l, i);
    }
  }

  lemma SkipAt<K>(ns: seq<Node<K>>, nx: seq<seq<Node?<K>>>, h: seq<nat>, at: nat, node: Node<K>,
      links: seq<Node?<K>>, l: nat, i: nat)
    requires |ns| == |h| && Tall(nx, h) && 0 < at <= |ns| && l >= |links|
    requires LinkAt(ns, nx, h, l, if i <= at then i else i - 1)
    ensures LinkAt(Inserted(ns, at, node), Inserted(nx, at, links), Inserted<nat>(h, at, |links|), l, i)
  {
    hide Inserted, Pick;
    if i != at && i <= |ns| {
      var o := if i < at then i else i - 1;
      NextAfterInsert(h, at, |links|, o, l);
      PickInserted(ns, at, node, NextAt(h, o, l));
    }
  }

  /** Splicing at one level leaves the others alone. */
  lemma OtherLevel<K>(ns: seq<Node<K>>, nx: seq<seq<Node?<K>>>, h: seq<nat>, p: nat, l: nat, n: Node?<K>, m: nat)
    requires Linked(ns, nx, h, m) && p < |nx| && l < |nx[p]| && m != l
    ensures Linked(ns, nx[p := nx[p][l := n]], h, m)
  {
    var nx' := nx[p := nx[p][l := n]];
    forall i: nat
      ensures LinkAt(ns, nx', h, m, i)
    {
      assert LinkAt(ns, nx, h, m, i);
    }
  }

  lemma NewOtherLevel<K>(ns: seq<Node<K>>, nx: seq<seq<Node?<K>>>, at: nat, links: seq<Node?<K>>, h: seq<nat>,
      p: nat, l: nat, n: Node?<K>, x: Node?<K>, m: nat)
    requires at <= |nx| && Linked(ns, Inserted(nx, at, links), h, m) && p < |nx| && l < |nx[p]| && l < |links| && m != l
    ensures Linked(ns, Inserted(nx[p := nx[p][l := n]], at, links[l := x]), h, m)
  {
    hide Inserted, Pick, NextAt;
    var was, now := Inserted(nx, at, links), Inserted(nx[p := nx[p][l := n]], at, links[l := x]);
    forall i: nat
      ensures LinkAt(ns, now, h, m, i)
    {
      assert LinkAt(ns, was, h, m, i);
      assert i < |now| ==> |now[i]| == |was[i]| && (m < |now[i]| ==> now[i][m] == was[i][m]);
    }
  }

  ghost predicate PrevIn<K>(ns: seq<Node<K>>, h: seq<nat>, prev: seq<Node?<K>>, at: nat, l: nat) {
    l < |prev| && exists p: nat :: Before(h, p, at, l) && p < |ns| && prev[l] == ns[p]
  }

  ghost predicate Apart<K>(ns: seq<Node<K>>) {
    forall i, j :: 0 <= i < j < |ns| ==> ns[i] != ns[j]
  }

  /** The new node is linked in below level i and not yet from there on. */
  ghost predicate Spliced<K>(ns: seq<Node<K>>, nx: seq<seq<Node?<K>>>, h: seq<nat>, at: nat, node: Node<K>,
      links: seq<Node?<K>>, i: nat)
    requires at <= |ns|
  {
    && |ns| == |h| && Tall(nx, h)
    && (forall l: nat :: l < i ==>
          Linked(Inserted(ns, at, node), Inserted(nx, at, links), Inserted<nat>(h, at, |links|), l))
    && (forall l: nat :: l >= i ==> Linked(ns, nx, h, l))
  }

  lemma SpliceStep<K>(ns: seq<Node<K>>, nx: seq<seq<Node?<K>>>, h: seq<nat>, at: nat, node: Node<K>,
      links: seq<Node?<K>>, p: nat, i: nat)
    requires 0 < at <= |ns| && Spliced(ns, nx, h, at, node, links, i)
    requires i < |links| && Before(h, p, at, i) && p < |nx| && i < |nx[p]|
    ensures Spliced(ns, nx[p := nx[p][i := node]], h, at, node, links[i := nx[p][i]], i + 1)
  {
    hide NextAt, Linked, Inserted, LinkAt, Before, Pick;
    var ns', h' := Inserted(ns, at, node), Inserted<nat>(h, at, |links|);
    var nx1, links1 := nx[p := nx[p][i := node]], links[i := nx[p][i]];
    SpliceLevel(ns, nx, h, at, node, links, p, i);
    forall l: nat | l < i
      ensures Linked(ns', Inserted(nx1, at, links1), h', l)
    {
      NewOtherLevel(ns', nx, at, links, h', p, i, node, nx[p][i], l);
    }
    forall l: nat | l > i
      ensures Linked(ns, nx1, h, l)
    {
      OtherLevel(ns, nx, h, p, i, node, l);
    }
  }

  lemma SpliceEnd<K>(ns: seq<Node<K>>, nx: seq<seq<Node?<K>>>, h: seq<nat>, at: nat, node: Node<K>,
      links: seq<Node?<K>>)
    requires 0 < at <= |ns| && Spliced(ns, nx, h, at, node, links, |links|)
    ensures var ns', nx', h' := Inserted(ns, at, node), Inserted(nx, at, links), Inserted<nat>(h, at, |links|);
      Tall(nx', h') && forall l: nat :: Linked(ns', nx', h', l)
  {
    assert Tall(Inserted(nx, at, links), Inserted<nat>(h, at, |links|));
    hide NextAt, Linked, Inserted, LinkAt, Tall;
    forall l: nat
      ensures Linked(Inserted(ns, at, node), Inserted(nx, at, links), Inserted<nat>(h, at, |links|), l)
    {
      if l >= |links| { SkipLevel(ns, nx, h, at, node, links, l); }
    }
  }

  /** The loop of Insert that links the new node in, level by level. */
  method Splice<K>(node: Node<K>, height: nat, prev: seq<Node?<K>>, ghost at: nat, ghost ns: seq<Node<K>>,
      ghost h: seq<nat>)
    requires |ns| == |h| && 0 < at <= |ns| && node !in ns && |node.next| == height
    requires Apart(ns)
    requires Tall(Nexts(ns), h) && forall l: nat :: Linked(ns, Nexts(ns), h, l)
    requires forall l :: 0 <= l < height ==> PrevIn(ns, h, prev, at, l)
    modifies node, ns
    ensures var ns', h' := Inserted(ns, at, node), Inserted<nat>(h, at, height);
      Tall(Nexts(ns'), h') && forall l: nat :: Linked(ns', Nexts(ns'), h', l)
  {
    assert Spliced(ns, Nexts(ns), h, at, node, node.next, 0);
    hide NextAt, Linked, Inserted, LinkAt, Before, Spliced;
    for i := 0 to height
      invariant |node.next| == height && Tall(Nexts(ns), h)
      invariant Spliced(ns, Nexts(ns), h, at, node, node.next, i)
    {
      assert PrevIn(ns, h, prev, at, i);
      ghost var p: nat :| Before(h, p, at, i) && p < |ns| && prev[i] == ns[p];
      ghost var nx, links := Nexts(ns), node.next;
      HighEnough(h, p, at, i);
      SpliceStep(ns, nx, h, at, node, links, p, i);
      node.next := node.next[i := prev[i].next[i]];
      prev[i].next := prev[i].next[i := node];
      assert Nexts(ns) == nx[p := nx[p][i := node]];
    }
    SpliceEnd(ns, Nexts(ns), h, at, node, node.next);
    NextsInserted(ns, at, node);
  }

  lemma NextsInserted<K>(ns: seq<Node<K>>, at: nat, node: Node<K>)
    requires at <= |ns|
    ensures Nexts(Inserted(ns, at, node)) == Inserted(Nexts(ns), at, node.next)
  {
    assert Nexts(Inserted(ns, at, node)) == Inserted(Nexts(ns), at, node.next);
  }

  lemma HighEnough(h: seq<nat>, p: nat, at: nat, l: nat)
    requires Before(h, p, at, l)
    ensures p < |h| && h[p] > l
  {}

  ghost predicate ShapeOf<K(!new)>(cmp: Order<K>, head: Node<K>, maxHeight: nat, ns: seq<Node<K>>, h: seq<nat>) {
    && TotalOrder(cmp) && 0 < |ns| == |h| && ns[0] == head && h[0] == MAX_HEIGHT
    && 1 <= maxHeight <= MAX_HEIGHT
    && Apart(ns)
    && (forall i :: 1 <= i < |ns| ==> 1 <= h[i] <= maxHeight)
    && Ascending(cmp, KeysOf(ns))
  }

  lemma ShapeInserted<K(!new)>(cmp: Order<K>, head: Node<K>, maxHeight: nat, ns: seq<Node<K>>, h: seq<nat>, at: nat,
      node: Node<K>, height: nat)
    requires ShapeOf(cmp, head, maxHeight, ns, h) && 1 <= height <= maxHeight && node !in ns && 1 <= at <= |ns|
    requires forall i :: 1 <= i < at ==> cmp(ns[i].key, node.key) < 0
    requires forall i :: at <= i < |ns| ==> cmp(ns[i].key, node.key) >= 0
    ensures ShapeOf(cmp, head, maxHeight, Inserted(ns, at, node), Inserted<nat>(h, at, height))
  {
    hide TotalOrder, Ascending, Inserted, KeysOf;
    KeysInserted(ns, at, node);
    AscendingInserted(cmp, KeysOf(ns), at - 1, node.key);
  }

  class List<K(!new)> {
    const cmp: Order<K>
    const head: Node<K>
    var maxHeight: nat
    /** All nodes in list order, the head first, and how many levels each of them reaches. */
    ghost var nodes: seq<Node<K>>
    ghost var heights: seq<nat>

    /** The keys in the list, in order. */
    ghost function Keys(): (r: seq<K>)
      reads this`nodes
    {
      KeysOf(nodes)
    }

    ghost predicate Shape()
      reads this, nodes
    {
      ShapeOf(cmp, head, maxHeight, nodes, heights) && Tall(Nexts(nodes), heights)
    }

    ghost predicate Valid()
      reads this, nodes
    {
      Shape() && forall l: nat :: Linked(nodes, Nexts(nodes), heights, l)
    }

    constructor (cmp: Order<K>, zero: K)
      requires TotalOrder(cmp)
      ensures Valid() && Keys() == [] && this.cmp == cmp && fresh(nodes)
    {
      this.cmp := cmp;
      var h := new Node(zero, MAX_HEIGHT);
      head, maxHeight, nodes, heights := h, 1, [h], [MAX_HEIGHT];
    }

    /** `at` is the position of the first node whose key is not below `key`. */
    ghost predicate IsPos(key: K, at: nat)
      reads this`nodes
    {
      && 1 <= at <= |nodes|
      && (forall i :: 1 <= i < at ==> cmp(nodes[i].key, key) < 0)
      && (forall i :: at <= i < |nodes| ==> cmp(nodes[i].key, key) >= 0)
    }

    lemma PosOf(key: K) returns (at: nat)
      requires Shape()
      ensures IsPos(key, at)
    {
      at := FirstNotBelow(cmp, Keys(), key);
      at := at + 1;
      forall i | 1 <= i < |nodes|
        ensures nodes[i].key == Keys()[i - 1]
      {}
    }

    lemma PosInKeys(key: K, at: nat)
      requires IsPos(key, at)
      ensures at <= |Keys()| + 1
      ensures forall i :: 0 <= i < at - 1 ==> cmp(Keys()[i], key) < 0
      ensures forall i :: at - 1 <= i < |Keys()| ==> cmp(Keys()[i], key) >= 0
      ensures if at <= |Keys()| then Pick(nodes, at) != null && Pick(nodes, at).key == Keys()[at - 1]
          else Pick(nodes, at) == null
    {}

    lemma LinkOf(l: nat, i: nat)
      requires Valid() && i < |nodes| && l < heights[i]
      ensures |nodes[i].next| == heights[i] && nodes[i].next[l] == Pick(nodes, NextAt(heights, i, l))
    {
      hide NextAt, Pick;
      assert Linked(nodes, Nexts(nodes), heights, l);
      assert LinkAt(nodes, Nexts(nodes), heights, l, i);
    }

    /** On level 0, the next node is the next position. */
    lemma Successor(i: nat)
      requires Valid() && i < |nodes|
      ensures |nodes[i].next| > 0 && nodes[i].next[0] == Pick(nodes, i + 1) && nodes[0] == head
    {
      LinkOf(0, i);
      hide Pick, Linked;
    }

    /** The node at position i has a larger key than the one before it, if there is one. */
    ghost predicate Rises(i: nat)
      reads this`nodes
    {
      1 < i < |nodes| ==> cmp(nodes[i - 1].key, nodes[i].key) < 0
    }

    /** The first position whose key is not below that of node i. */
    lemma FirstEqual(i: nat, at: nat)
      requires Shape() && 1 <= i < |nodes| && IsPos(nodes[i].key, at)
      ensures at <= i && (at == i <==> Rises(i))
    {
      hide Tall;
      var key := nodes[i].key;
      assert cmp(key, key) >= 0 by { Flip(cmp, key, key); }
      if at < i {
        var before := nodes[i - 1].key;
        assert cmp(before, key) >= 0;
      }
    }

    lemma KeysAscend()
      requires Valid()
      ensures Ascending(cmp, Keys()) && nodes != []
    {}

    lemma HeadOnly(i: nat)
      requires Valid() && i < |nodes|
      ensures nodes[i] == head <==> i == 0
    {
      hide Linked;
    }

    ghost predicate PrevOk(prev: seq<Node?<K>>, at: nat, l: nat)
      reads this`nodes, this`heights
    {
      PrevIn(nodes, heights, prev, at, l)
    }

    lemma AtHead(key: K, at: nat)
      requires Valid() && IsPos(key, at)
      ensures nodes != [] && nodes[0] == head && 1 <= at <= |nodes| == |heights|
      ensures 1 <= maxHeight <= heights[0] && maxHeight <= MAX_HEIGHT
    {
      hide Linked, Tall, NextAt;
    }

    /** Where the link of node r on one level leads: past the key's position, or short of it. */
    lemma Follow(key: K, at: nat, r: nat, l: nat)
      requires Valid() && IsPos(key, at) && r < at && r < |nodes| == |heights| && l < heights[r]
      ensures l < |nodes[r].next|
      ensures var j, next := NextAt(heights, r, l), nodes[r].next[l];
        && r < j && (l == 0 ==> j == r + 1) && next == Pick(nodes, j)
        && (if next == null then j >= at
            else j < |nodes| && next == nodes[j] && heights[j] > l && (cmp(key, next.key) > 0 <==> j < at))
    {
      hide NextAt, Ascending, Linked, TotalOrder;
      LinkOf(l, r);
      NextAtIs(heights, r, l);
      var j := NextAt(heights, r, l);
      if j < |nodes| { Flip(cmp, key, nodes[j].key); }
      if l == 0 { NextAtZero(r); }
    }

    lemma NextAtZero(r: nat)
      requires Valid() && r < |nodes|
      ensures NextAt(heights, r, 0) == r + 1
    {
      hide Linked;
    }

    lemma PrevHere(prev: seq<Node?<K>>, at: nat, l: nat, r: nat)
      requires r < at && r < |nodes| == |heights| && heights[r] > l && NextAt(heights, r, l) >= at
      requires l < |prev| && prev[l] == nodes[r]
      ensures PrevOk(prev, at, l)
    {
      hide NextAt;
      assert Before(heights, r, at, l);
    }

    lemma PrevKept(prev: seq<Node?<K>>, prev': seq<Node?<K>>, at: nat, l: nat)
      requires PrevOk(prev, at, l) && l < |prev'| && l < |prev| && prev'[l] == prev[l]
      ensures PrevOk(prev', at, l)
    {
      hide Before;
    }

    /** The search loop of FindGreaterOrEqual. */
    method FindGreaterOrEqual(key: K, ghost at: nat) returns (node: Node?<K>, prev: seq<Node?<K>>)
      requires Valid() && IsPos(key, at)
      ensures node == Pick(nodes, at) && |prev| == MAX_HEIGHT
      ensures forall l :: 0 <= l < maxHeight ==> PrevOk(prev, at, l)
    {
      hide NextAt, Ascending, TotalOrder, Linked, Tall, IsPos, Pick, PrevOk, Shape, Nexts;
      AtHead(key, at);
      var ret := head;
      ghost var r: nat := 0;
      var height := maxHeight - 1;
      prev := seq(MAX_HEIGHT, _ => null);
      while true
        invariant r < at && r < |nodes| && ret == nodes[r] && 0 <= height < maxHeight && heights[r] > height
        invariant |prev| == MAX_HEIGHT && forall l :: height < l < maxHeight ==> PrevOk(prev, at, l)
        decreases height, |nodes| - r
      {
        Follow(key, at, r, height);
        var next := ret.next[height];
        ghost var j := NextAt(heights, r, height);
        if next != null && cmp(key, next.key) > 0 {
          ret, r := next, j;
        } else {
          ghost var found := prev;
          prev := prev[height := ret];
          forall l | height <= l < maxHeight
            ensures PrevOk(prev, at, l)
          {
            if l > height { PrevKept(found, prev, at, l); } else { PrevHere(prev, at, l, r); }
          }
          if height == 0 {
            return next, prev;
          }
          height := height - 1;
        }
      }
    }

    /** FindLess: the last node below the key, or the head. */
    method FindLess(key: K, ghost at: nat) returns (node: Node<K>)
      requires Valid() && IsPos(key, at)
      ensures node == nodes[at - 1]
    {
      hide NextAt, Ascending, TotalOrder, Linked, Tall, IsPos, Pick, Shape, Nexts;
      AtHead(key, at);
      var ret := head;
      ghost var r: nat := 0;
      var height := maxHeight - 1;
      while true
        invariant r < at && r < |nodes| && ret == nodes[r] && 0 <= height < maxHeight && heights[r] > height
        decreases height, |nodes| - r
      {
        Follow(key, at, r, height);
        var next := ret.next[height];
        ghost var j := NextAt(heights, r, height);
        if next != null && cmp(key, next.key) > 0 {
          ret, r := next, j;
        } else {
          if height == 0 {
            return ret;
          }
          height := height - 1;
        }
      }
    }

    /** FindLast: the last node, or the head of an empty list. */
    method FindLast() returns (node: Node<K>)
      requires Valid()
      ensures node == nodes[|nodes| - 1]
    {
      hide NextAt, Ascending, TotalOrder, Linked;
      node := head;
      ghost var r: nat := 0;
      var height := maxHeight - 1;
      while true
        invariant r < |nodes| && node == nodes[r] && 0 <= height < maxHeight && heights[r] > height
        decreases height, |nodes| - r
      {
        LinkOf(height, r);
        var next := node.next[height];
        ghost var j := NextAt(heights, r, height);
        NextAtIs(heights, r, height);
        assert next == Pick(nodes, j);
        if next != null {
          node, r := next, j;
        } else {
          if height == 0 {
            return;
          }
          height := height - 1;
        }
      }
    }

    /** Levels above the current maximum start at the head. */
    method RaiseTo(height: nat, prev0: seq<Node?<K>>, ghost at: nat) returns (prev: seq<Node?<K>>)
      requires Valid() && 1 <= height <= MAX_HEIGHT && 1 <= at <= |nodes| && |prev0| == MAX_HEIGHT
      requires forall l :: 0 <= l < maxHeight ==> PrevOk(prev0, at, l)
      modifies this`maxHeight
      ensures Valid() && maxHeight == (if height > old(maxHeight) then height else old(maxHeight))
      ensures |prev| == MAX_HEIGHT && forall l :: 0 <= l < height ==> PrevOk(prev, at, l)
    {
      hide NextAt, Ascending, TotalOrder, Linked;
      prev := prev0;
      if height > maxHeight {
        for i := maxHeight to height
          invariant Valid() && maxHeight == old(maxHeight) && |prev| == MAX_HEIGHT
          invariant forall l :: 0 <= l < i ==> PrevOk(prev, at, l)
        {
          ghost var found := prev;
          prev := prev[i := head];
          AboveAll(i, at);
          forall l | 0 <= l <= i
            ensures PrevOk(prev, at, l)
          {
            if l < i { PrevKept(found, prev, at, l); }
          }
        }
        maxHeight := height;
      }
    }

    lemma AboveAll(l: nat, at: nat)
      requires Shape() && maxHeight <= l < MAX_HEIGHT && 1 <= at <= |nodes|
      ensures Before(heights, 0, at, l)
    {
      NextAtIs(heights, 0, l);
      hide NextAt;
    }

    /** Insert. `height` is what RandomHeight chose. The key goes before the first one that is not
        below it. */
    method Insert(key: K, height: nat) returns (ghost at: nat)
      requires Valid() && 1 <= height <= MAX_HEIGHT
      modifies this, nodes
      ensures Valid() && forall n :: n in nodes ==> n in old(nodes) || fresh(n)
      ensures old(IsPos(key, at)) && 1 <= at <= |old(Keys())| + 1
      ensures Keys() == Inserted(old(Keys()), at - 1, key)
      ensures at <= |old(heights)| && heights == Inserted(old(heights), at, height)
      ensures maxHeight == if height > old(maxHeight) then height else old(maxHeight)
    {
      hide Valid, Inserted, KeysOf, PrevOk;
      ValidShape();
      at := PosOf(key);
      var next, prev := FindGreaterOrEqual(key, at);
      var node := new Node(key, height);
      prev := RaiseTo(height, prev, at);
      Link(node, height, prev, at);
      InsertedElements(old(nodes), at, node);
    }

    lemma ValidShape()
      requires Valid()
      ensures Shape()
    {}

    method Link(node: Node<K>, height: nat, prev: seq<Node?<K>>, ghost at: nat)
      requires Valid() && IsPos(node.key, at) && 1 <= height <= maxHeight && node !in nodes && |node.next| == height
      requires forall l :: 0 <= l < height ==> PrevOk(prev, at, l)
      modifies this`nodes, this`heights, nodes, node
      ensures Valid() && nodes == Inserted(old(nodes), at, node)
      ensures at >= 1 && at - 1 <= |old(Keys())| && Keys() == Inserted(old(Keys()), at - 1, node.key)
      ensures at <= |old(heights)| && heights == Inserted(old(heights), at, height)
    {
      hide NextAt, Ascending, TotalOrder, Linked, Inserted, KeysOf, Tall, PrevIn;
      KeysInserted(nodes, at, node);
      ShapeInserted(cmp, head, maxHeight, nodes, heights, at, node, height);
      forall l | 0 <= l < height
        ensures PrevIn(nodes, heights, prev, at, l)
      {
        assert PrevOk(prev, at, l);
      }
      hide ShapeOf, Apart;
      Splice(node, height, prev, at, nodes, heights);
      nodes, heights := Inserted(nodes, at, node), Inserted<nat>(heights, at, height);
    }

    /** Contain: whether a key that compares equal is in the list. */
    method Contain(key: K) returns (found: bool)
      requires Valid()
      ensures found <==> exists i :: 0 <= i < |Keys()| && cmp(key, Keys()[i]) == 0
    {
      hide NextAt, Ascending, TotalOrder, Linked, Tall, KeysOf;
      ghost var at := PosOf(key);
      var node, _ := FindGreaterOrEqual(key, at);
      found := node != null && cmp(key, node.key) == 0;
      PosInKeys(key, at);
      EqualIsFirst(cmp, Keys(), key, at - 1);
    }
  }

  lemma EqualIsFirst<K(!new)>(cmp: Order<K>, keys: seq<K>, key: K, at: nat)
    requires TotalOrder(cmp) && Ascending(cmp, keys) && at <= |keys|
    requires forall i :: 0 <= i < at ==> cmp(keys[i], key) < 0
    requires forall i :: at <= i < |keys| ==> cmp(keys[i], key) >= 0
    ensures (exists i :: 0 <= i < |keys| && cmp(key, keys[i]) == 0) <==> at < |keys| && cmp(key, keys[at]) == 0
  {
    forall i | 0 <= i < |keys| && cmp(key, keys[i]) == 0
      ensures at < |keys| && cmp(key, keys[at]) == 0
    {
      Flip(cmp, key, keys[i]);
      Flip(cmp, keys[i], key);
      Flip(cmp, keys[at], key);
      Flip(cmp, key, keys[at]);
      assert i > at ==> cmp(keys[at], keys[i]) <= 0;
    }
  }

  // ---------------------------------------------------------------- the iterator

  class Iter<K(!new)> {
    const list: List<K>
    var node: Node?<K>
    /** The node's position in the list; behind the last one when the iterator is not valid. */
    ghost var pos: nat

    ghost predicate Good()
      reads this, list, list.nodes
    {
      list.Valid() && 1 <= pos <= |list.nodes| && node == Pick(list.nodes, pos)
    }

    constructor (list: List<K>)
      requires list.Valid()
      ensures Good() && this.list == list && pos == |list.nodes|
    {
      this.list, node, pos := list, null, |list.nodes|;
    }

    predicate Valid()
      reads this
    {
      node != null
    }

    method Next()
      requires Good() && Valid()
      modifies this
      ensures Good() && pos == old(pos) + 1
    {
      hide NextAt, KeysOf, Ascending, TotalOrder, List.Valid;
      list.Successor(pos);
      node := node.next[0];
      pos := pos + 1;
    }

    method Seek(key: K)
      requires Good()
      modifies this
      ensures Good() && list.IsPos(key, pos)
    {
      hide NextAt, KeysOf, List.Valid;
      list.ValidShape();
      pos := list.PosOf(key);
      var n, _ := list.FindGreaterOrEqual(key, pos);
      node := n;
    }

    method SeekToFirst()
      requires Good()
      modifies this
      ensures Good() && pos == 1
    {
      hide NextAt, KeysOf, Ascending, TotalOrder, List.Valid;
      list.Successor(0);
      node := list.head.next[0];
      pos := 1;
    }

    /** SeekToLast goes to the last node of the chain, which is the head in an empty list. */
    method SeekToLast()
      requires Good()
      modifies this
      ensures Good() && pos == if |list.nodes| == 1 then 1 else |list.nodes| - 1
    {
      hide NextAt, KeysOf, Ascending, TotalOrder, List.Valid;
      list.Successor(0);
      node := list.FindLast();
      pos := |list.nodes| - 1;
      list.HeadOnly(pos);
      if node == list.head {
        node := null;
        pos := 1;
      }
    }

    /** Prev searches anew for the last key below the current one, and so passes over keys equal to
        it: it undoes Next exactly if the node before has a smaller key. */
    method Prev() returns (ghost at: nat)
      requires Good() && Valid()
      modifies this
      ensures Good() && at <= old(pos) && list.IsPos(old(node).key, at)
      ensures pos == if at == 1 then |list.nodes| else at - 1
      ensures at == old(pos) <==> list.Rises(old(pos))
    {
      hide NextAt, KeysOf, List.Valid, List.IsPos, List.Shape, List.Rises;
      list.ValidShape();
      at := list.PosOf(node.key);
      list.FirstEqual(pos, at);
      node := list.FindLess(node.key, at);
      list.HeadOnly(at - 1);
      if node == list.head {
        node := null;
        pos := |list.nodes|;
      } else {
        pos := at - 1;
      }
    }
  }
}
