/** DBImpl::MergeBatchGroup: which waiting writers the leader takes along, and what it writes for
    them. */
module GroupCommit {
  import opened Base
  import W = WriteBatch

  type Ops = seq<W.Op>

  /** The source appends the first batch again for every follower, where the follower's own batch
      is meant. `Repaired` appends the follower's. */
  datatype JoinRule = AsWritten | Repaired

  /** A writer in the queue: its batch (a null one only waits its turn), the batch's size in bytes,
      and whether it asked for a sync. */
  datatype Req = Req(ops: Option<Ops>, size: nat, sync: bool)

  function OpsOf(r: Req): (ops: Ops) {
    if r.ops.Some? then r.ops.value else []
  }

  const SMALL: nat := 1024
  const LARGE: nat := 0x10_0000

  /** A small first batch takes little else along. */
  function MaxSize(first: nat): (m: nat) {
    if first <= SMALL then first + SMALL else LARGE
  }

  /** The scan over the queue from position i on. */
  function Scan(reqs: seq<Req>, i: nat, size: nat, max: nat): (n: nat)
    requires 1 <= i <= |reqs|
    ensures i <= n <= |reqs|
    decreases |reqs| - i
  {
    if i == |reqs| || (reqs[i].sync && !reqs[0].sync) then i
    else if reqs[i].ops.None? then Scan(reqs, i + 1, size, max)
    else if size + reqs[i].size > max then i
    else Scan(reqs, i + 1, size + reqs[i].size, max)
  }

  function GroupLength(reqs: seq<Req>): (n: nat)
    requires reqs != []
    ensures 1 <= n <= |reqs|
  {
    Scan(reqs, 1, reqs[0].size, MaxSize(reqs[0].size))
  }

  /** The bytes of the batches in a prefix of the queue. */
  function SizeOf(reqs: seq<Req>, n: nat): (size: nat)
    requires n <= |reqs|
  {
    if n == 0 then 0 else SizeOf(reqs, n - 1) + if reqs[n - 1].ops.Some? then reqs[n - 1].size else 0
  }

  /** What ends a group: the queue, a follower that wants a sync the leader did not ask for, or one
      that would make the group too large. */
  ghost predicate Stops(reqs: seq<Req>, n: nat, max: nat)
    requires reqs != [] && n <= |reqs|
  {
    n == |reqs| || (reqs[n].sync && !reqs[0].sync) || (reqs[n].ops.Some? && SizeOf(reqs, n) + reqs[n].size > max)
  }

  lemma {:induction false} ScanIs(reqs: seq<Req>, i: nat, max: nat)
    requires 1 <= i <= |reqs| && reqs[0].ops.Some?
    ensures var n := Scan(reqs, i, SizeOf(reqs, i), max);
      && (forall k :: i <= k < n ==> !Stops(reqs, k, max))
      && Stops(reqs, n, max) && (SizeOf(reqs, n) <= max || n == i || SizeOf(reqs, n) == SizeOf(reqs, i))
    decreases |reqs| - i
  {
    if !Stops(reqs, i, max) {
      ScanIs(reqs, i + 1, max);
    }
  }

  /** The group is the longest prefix of the queue that keeps to the size limit and demands no sync
      that the leader did not ask for: 1 KiB above a first batch of at most 1 KiB, and 1 MiB otherwise. */
  lemma GroupIsMaximal(reqs: seq<Req>)
    requires reqs != [] && reqs[0].ops.Some?
    ensures var n, first := GroupLength(reqs), reqs[0].size;
      var max := if first <= 1024 then first + 1024 else 1_048_576;
      && (forall k :: 1 <= k < n ==> !Stops(reqs, k, max)) && Stops(reqs, n, max)
      && (SizeOf(reqs, n) <= max || SizeOf(reqs, n) == first)
  {
    assert SizeOf(reqs, 1) == SizeOf(reqs, 0) + reqs[0].size;
    ScanIs(reqs, 1, MaxSize(reqs[0].size));
  }

  /** What is appended for a follower. */
  function Share(rule: JoinRule, first: Req, follower: Req): (ops: Ops) {
    if follower.ops.None? then [] else if rule == AsWritten then OpsOf(first) else OpsOf(follower)
  }

  /** What is written for the first n writers. */
  function Joined(rule: JoinRule, reqs: seq<Req>, n: nat): (ops: Ops)
    requires 1 <= n <= |reqs|
  {
    if n == 1 then OpsOf(reqs[0]) else Joined(rule, reqs, n - 1) + Share(rule, reqs[0], reqs[n - 1])
  }

  /** The operations of the writers, in queue order. */
  function AllOps(reqs: seq<Req>): (ops: Ops) {
    if reqs == [] then [] else AllOps(reqs[..|reqs| - 1]) + OpsOf(reqs[|reqs| - 1])
  }

  lemma {:induction false} AllOpsConcat(a: seq<Req>, b: seq<Req>)
    ensures AllOps(a + b) == AllOps(a) + AllOps(b)
    decreases |b|
  {
    if b == [] {
      assert a + b == a;
    } else {
      assert (a + b)[..|a + b| - 1] == a + b[..|b| - 1];
      AllOpsConcat(a, b[..|b| - 1]);
    }
  }

  /** Repaired, the merged batch is the concatenation of the group's batches. */
  lemma {:induction false} RepairedJoins(reqs: seq<Req>, n: nat)
    requires 1 <= n <= |reqs|
    ensures Joined(Repaired, reqs, n) == AllOps(reqs[..n])
  {
    if n == 1 {
      assert reqs[..1][..0] == [];
    } else {
      RepairedJoins(reqs, n - 1);
      assert reqs[..n][..n - 1] == reqs[..n - 1];
    }
  }

  /** The first batch, once for every follower that has a batch. */
  function Copies(reqs: seq<Req>, n: nat): (ops: Ops)
    requires 1 <= n <= |reqs|
  {
    if n == 1 then [] else Copies(reqs, n - 1) + if reqs[n - 1].ops.None? then [] else OpsOf(reqs[0])
  }

  lemma {:induction false} AsWrittenJoins(reqs: seq<Req>, n: nat)
    requires 1 <= n <= |reqs|
    ensures Joined(AsWritten, reqs, n) == OpsOf(reqs[0]) + Copies(reqs, n)
  {
    if n > 1 { AsWrittenJoins(reqs, n - 1); }
  }

  /** No follower in the group brings a batch along. */
  ghost predicate Batchless(reqs: seq<Req>, n: nat)
    requires n <= |reqs|
  {
    forall i :: 1 <= i < n ==> reqs[i].ops.None?
  }

  /** The same writers, but for what is in their batches. */
  ghost predicate SamePattern(reqs: seq<Req>, reqs': seq<Req>) {
    |reqs| == |reqs'| && forall i :: 0 <= i < |reqs| ==>
      reqs[i].ops.Some? == reqs'[i].ops.Some? && reqs[i].size == reqs'[i].size && reqs[i].sync == reqs'[i].sync
  }

  lemma {:induction false} BatchlessJoins(reqs: seq<Req>, n: nat)
    requires 1 <= n <= |reqs| && Batchless(reqs, n)
    ensures Joined(AsWritten, reqs, n) == Joined(Repaired, reqs, n)
  {
    if n > 1 { BatchlessJoins(reqs, n - 1); }
  }

  /** Nobody in the group wants anything done but writer i, who has the operation x. */
  ghost function OnlyOne(reqs: seq<Req>, i: nat, x: W.Op): (r: seq<Req>)
    ensures SamePattern(reqs, r)
    ensures forall j :: 0 <= j < |r| ==> OpsOf(r[j]) == if j == i && reqs[j].ops.Some? then [x] else []
  {
    seq(|reqs|, j requires 0 <= j < |reqs| =>
      if reqs[j].ops.None? then reqs[j] else Req(Some(if j == i then [x] else []), reqs[j].size, reqs[j].sync))
  }

  lemma {:induction false} NoneOfFirst(reqs: seq<Req>, n: nat)
    requires 1 <= n <= |reqs| && OpsOf(reqs[0]) == []
    ensures Joined(AsWritten, reqs, n) == []
  {
    if n > 1 { NoneOfFirst(reqs, n - 1); }
  }

  lemma {:induction false} InAllOps(reqs: seq<Req>, i: nat)
    requires i < |reqs| && OpsOf(reqs[i]) != []
    ensures AllOps(reqs) != []
  {
    if i < |reqs| - 1 { InAllOps(reqs[..|reqs| - 1], i); }
  }

  /** As written, a group is merged correctly whatever its batches hold, exactly when no follower
      in it has one. */
  lemma AsWrittenSafeIff(reqs: seq<Req>, n: nat)
    requires 1 <= n <= |reqs|
    ensures (forall reqs' :: SamePattern(reqs, reqs') ==> Joined(AsWritten, reqs', n) == AllOps(reqs'[..n]))
       <==> Batchless(reqs, n)
  {
    hide Joined, AllOps;
    if Batchless(reqs, n) {
      forall reqs' | SamePattern(reqs, reqs')
        ensures Joined(AsWritten, reqs', n) == AllOps(reqs'[..n])
      {
        BatchlessJoins(reqs', n);
        RepairedJoins(reqs', n);
      }
    } else {
      var i :| 1 <= i < n && reqs[i].ops.Some?;
      var reqs' := OnlyOne(reqs, i, W.Op.Delete([]));
      NoneOfFirst(reqs', n);
      InAllOps(reqs'[..n], i);
      assert SamePattern(reqs, reqs');
    }
  }

  /** For given batches: the merged batch holds the group's operations exactly when the followers
      have between them just what the leader has, once for each. */
  lemma AsWrittenJoinsIff(reqs: seq<Req>, n: nat)
    requires 1 <= n <= |reqs|
    ensures Joined(AsWritten, reqs, n) == AllOps(reqs[..n]) <==> AllOps(reqs[1..n]) == Copies(reqs, n)
  {
    hide Joined, Copies, AllOps;
    AsWrittenJoins(reqs, n);
    assert reqs[..n] == [reqs[0]] + reqs[1..n];
    AllOpsConcat([reqs[0]], reqs[1..n]);
    AllOpsOne(reqs[0]);
    Cancel(OpsOf(reqs[0]), Copies(reqs, n), AllOps(reqs[1..n]));
  }

  lemma AllOpsOne(r: Req)
    ensures AllOps([r]) == OpsOf(r)
  {
    assert [r][..0] == [];
  }

  lemma Cancel(front: Ops, a: Ops, b: Ops)
    ensures front + a == front + b <==> a == b
  {
    assert (front + a)[|front|..] == a && (front + b)[|front|..] == b;
  }

  /** Two writers of one key each: the second one's is lost, and the first one's is written twice. */
  lemma FollowerLost(x: W.Op, y: W.Op)
    requires x != y
    ensures var reqs := [Req(Some([x]), 30, false), Req(Some([y]), 30, false)];
      && GroupLength(reqs) == 2 && Joined(AsWritten, reqs, 2) == [x, x] && y !in Joined(AsWritten, reqs, 2)
      && Joined(Repaired, reqs, 2) == [x, y]
  {}

  // ---------------------------------------------------------------- the method

  datatype Writer = Writer(batch: W.Batch?, sync: bool)

  ghost function ReqOf(w: Writer): (r: Req)
    reads if w.batch == null then {} else {w.batch}
  {
    if w.batch == null then Req(None, 0, w.sync) else Req(Some(w.batch.ops), |w.batch.rep|, w.sync)
  }

  ghost function Batches(ws: seq<Writer>): (r: set<object>) {
    set w | w in ws && w.batch != null :: w.batch
  }

  ghost function ReqsOf(ws: seq<Writer>): (r: seq<Req>)
    reads Batches(ws)
    ensures |r| == |ws| && forall i :: 0 <= i < |r| ==> r[i] == ReqOf(ws[i])
  {
    seq(|ws|, i requires 0 <= i < |ws| reads Batches(ws) => ReqOf(ws[i]))
  }

  ghost predicate Ready(ws: seq<Writer>, tmp: W.Batch)
    reads Batches(ws), tmp
  {
    && ws != [] && ws[0].batch != null && tmp !in Batches(ws) && tmp.Valid()
    && forall i :: 0 <= i < |ws| && ws[i].batch != null ==> ws[i].batch.Valid()
  }

  /** The loop of MergeBatchGroup over the queue: what the leader writes, and how many writers it
      takes along. Merging happens in the scratch batch; a lone batch is written as it is. */
  method MergeBatchGroup(ws: seq<Writer>, tmp: W.Batch, rule: JoinRule) returns (ret: W.Batch, n: nat)
    requires Ready(ws, tmp) && tmp.ops == []
    requires forall k :: 1 <= k <= |ws| ==> |Joined(rule, ReqsOf(ws), k)| < W32
    modifies tmp
    ensures n == GroupLength(old(ReqsOf(ws))) && ret.Valid() && (ret == ws[0].batch || ret == tmp)
    ensures ret.ops == Joined(rule, old(ReqsOf(ws)), n)
    ensures ret == ws[0].batch <==> Batchless(old(ReqsOf(ws)), n)
  {
    hide W.Batch.Valid, Scan, Joined, Batchless;
    ghost var reqs := ReqsOf(ws);
    assert Batchless(reqs, 1) by { NobodyYet(reqs); }
    ret := ws[0].batch;
    var size: nat := |ret.rep|;
    var max: nat := LARGE;
    if size <= SMALL {
      max := size + SMALL;
    }
    n := 1;
    JoinedStart(rule, reqs);
    while n < |ws|
      invariant 1 <= n <= |ws| && Ready(ws, tmp) && ReqsOf(ws) == reqs
      invariant Scan(reqs, n, size, max) == GroupLength(reqs)
      invariant ret == tmp || (ret == ws[0].batch && tmp.ops == [])
      invariant ret.ops == Joined(rule, reqs, n) && (ret == ws[0].batch <==> Batchless(reqs, n))
    {
      ScanStep(reqs, n, size, max);
      JoinedStep(rule, reqs, n);
      BatchlessStep(reqs, n);
      var w := ws[n];
      assert reqs[n] == ReqOf(w) && reqs[0] == ReqOf(ws[0]);
      if w.sync && !ws[0].sync {
        return;
      }
      if w.batch != null {
        size := size + |w.batch.rep|;
        if size > max {
          return;
        }
        ret := Take(ret, ws[0].batch, if rule == AsWritten then ws[0].batch else w.batch, tmp);
      }
      n := n + 1;
    }
    ScanEnds(reqs, size, max);
  }

  /** Append a batch to what has been merged so far: from the first follower on, in the scratch batch. */
  method Take(ret: W.Batch, first: W.Batch, more: W.Batch, tmp: W.Batch) returns (ret': W.Batch)
    requires first != tmp && more != tmp && first.Valid() && more.Valid() && tmp.Valid()
    requires ret == tmp || (ret == first && tmp.ops == [])
    requires |ret.ops| + |more.ops| < W32
    modifies tmp
    ensures ret' == tmp && tmp.Valid() && tmp.ops == old(ret.ops) + more.ops
  {
    hide W.Batch.Valid;
    ret' := ret;
    if ret' == first {
      ret' := tmp;
      ret'.Append(first);
    }
    ret'.Append(more);
  }

  lemma ScanStep(reqs: seq<Req>, i: nat, size: nat, max: nat)
    requires 1 <= i < |reqs|
    ensures Scan(reqs, i, size, max) ==
      if reqs[i].sync && !reqs[0].sync then i
      else if reqs[i].ops.None? then Scan(reqs, i + 1, size, max)
      else if size + reqs[i].size > max then i
      else Scan(reqs, i + 1, size + reqs[i].size, max)
  {}

  lemma NobodyYet(reqs: seq<Req>)
    requires reqs != []
    ensures Batchless(reqs, 1)
  {}

  lemma BatchlessStep(reqs: seq<Req>, n: nat)
    requires 1 <= n < |reqs|
    ensures Batchless(reqs, n + 1) <==> Batchless(reqs, n) && reqs[n].ops.None?
  {}

  lemma ScanEnds(reqs: seq<Req>, size: nat, max: nat)
    requires reqs != []
    ensures Scan(reqs, |reqs|, size, max) == |reqs|
  {}

  lemma JoinedStart(rule: JoinRule, reqs: seq<Req>)
    requires reqs != []
    ensures Joined(rule, reqs, 1) == OpsOf(reqs[0])
  {}

  lemma JoinedStep(rule: JoinRule, reqs: seq<Req>, n: nat)
    requires 1 <= n < |reqs|
    ensures Joined(rule, reqs, n + 1) == Joined(rule, reqs, n) + Share(rule, reqs[0], reqs[n])
  {}
}
