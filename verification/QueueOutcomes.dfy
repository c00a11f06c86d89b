/**
  What each operation of the queue does, said by positions in the list and by the fields of
  the packets, without the scans and loops that do it.
 */
module QueueOutcomes {
  import opened Options
  import opened Packets
  import opened QueueSpec
  import opened QueueRuns

  /** The two packets become one: the newer replaces the older, or their amounts are added. */
  predicate Combines(a: Packet, b: Packet) {
    Continues(a, b) || Adds(a, b)
  }

  predicate IsCombination(m: Packet, a: Packet, b: Packet)
    requires Combines(a, b)
  {
    if Adds(a, b) then IsSumOf(m, a, b) else m == b
  }

  // ----- The three scans -----

  /** Entry `i` is the one a new packet is combined with: the newest that combines, with only bypassed ones behind it. */
  predicate IsPartner(es: seq<Entry>, p: Packet, i: int) {
    && 0 <= i < |es| && Combines(es[i].packet, p)
    && forall k | i < k < |es| :: Bypasses(es[k].packet, p)
  }

  lemma {:induction false} ScanBackwards(es: seq<Entry>, p: Packet, end: nat)
    requires end <= |es|
    ensures forall i: nat :: BackwardMatch(es, p, end) == Some(i) <==>
              i < end && Combines(es[i].packet, p) && forall k | i < k < end :: Bypasses(es[k].packet, p)
  {
    hide Batch, Continues, Adds, Bypasses;
    if end == 0 {
    } else {
      BatchExactly(es[end - 1].packet, p);
      ScanBackwards(es, p, end - 1);
    }
  }

  /** The backward scan of a push finds the partner if there is one. */
  lemma BackwardMatchExactly(es: seq<Entry>, p: Packet)
    ensures BackwardMatch(es, p, |es|).Some? <==> exists i :: IsPartner(es, p, i)
    ensures forall i: nat :: BackwardMatch(es, p, |es|) == Some(i) <==> IsPartner(es, p, i)
  {
    ScanBackwards(es, p, |es|);
    var r := BackwardMatch(es, p, |es|);
    hide Batch, BackwardMatch, Continues, Adds, Bypasses;
    if r.Some? {
      assert IsPartner(es, p, r.value);
    }
    if i :| IsPartner(es, p, i) {
      var j: nat := i;
      assert BackwardMatch(es, p, |es|) == Some(j);
    }
  }

  lemma {:induction false} ScanForwards(d: Packet, es: seq<Entry>, start: nat)
    requires start <= |es|
    ensures forall j: nat :: ForwardMatch(d, es, start) == Some(j) <==>
              start <= j < |es| && Combines(d, es[j].packet) && forall k | start <= k < j :: Bypasses(d, es[k].packet)
    decreases |es| - start
  {
    hide Batch, Continues, Adds, Bypasses;
    if start == |es| {
    } else {
      BatchExactly(d, es[start].packet);
      ScanForwards(d, es, start + 1);
    }
  }

  /** Entry `i` can be combined with the later entry `j`, bypassing everything between. */
  predicate Reaches(es: seq<Entry>, i: int, j: int) {
    && 0 <= i < j < |es| && Combines(es[i].packet, es[j].packet)
    && forall k | i < k < j :: Bypasses(es[i].packet, es[k].packet)
  }

  lemma ForwardMatchExactly(es: seq<Entry>, i: nat)
    requires i < |es|
    ensures forall j: nat :: ForwardMatch(es[i].packet, es, i + 1) == Some(j) <==> Reaches(es, i, j)
    ensures ForwardMatch(es[i].packet, es, i + 1).Some? <==> exists j :: Reaches(es, i, j)
  {
    ScanForwards(es[i].packet, es, i + 1);
    hide Batch, ForwardMatch, Continues, Adds, Bypasses;
    var r := ForwardMatch(es[i].packet, es, i + 1);
    if r.Some? {
      assert Reaches(es, i, r.value);
    }
    if j :| Reaches(es, i, j) {
      var n: nat := j;
      assert ForwardMatch(es[i].packet, es, i + 1) == Some(n);
    }
  }

  /** The pair the overflow loop combines: the oldest entry that reaches a later one. */
  ghost predicate IsOldestPair(es: seq<Entry>, i: int, j: int) {
    Reaches(es, i, j) && forall a, b | a < i :: !Reaches(es, a, b)
  }

  lemma {:induction false} PairsFrom(es: seq<Entry>, start: nat)
    requires start <= |es|
    ensures match OldestPair(es, start)
            case Some(p) => Reaches(es, p.0, p.1) && forall a, b | start <= a < p.0 :: !Reaches(es, a, b)
            case None => forall a, b | start <= a :: !Reaches(es, a, b)
    decreases |es| - start
  {
    hide ForwardMatch, Reaches;
    if start == |es| {
      assert forall a, b | start <= a :: !Reaches(es, a, b) by { NothingReachesBeyond(es); }
    } else {
      ForwardMatchExactly(es, start);
      PairsFrom(es, start + 1);
    }
  }

  lemma NothingReachesBeyond(es: seq<Entry>)
    ensures forall a, b | a >= |es| || a < 0 :: !Reaches(es, a, b)
  {
  }

  lemma OldestPairExactly(es: seq<Entry>)
    ensures OldestPair(es, 0).Some? <==> exists i, j :: Reaches(es, i, j)
    ensures OldestPair(es, 0).Some? ==> IsOldestPair(es, OldestPair(es, 0).value.0, OldestPair(es, 0).value.1)
    ensures forall i, j | IsOldestPair(es, i, j) :: OldestPair(es, 0) == Some((i, j))
  {
    PairsFrom(es, 0);
    NothingReachesBeyond(es);
    forall i, j | IsOldestPair(es, i, j) ensures OldestPair(es, 0) == Some((i, j)) {
      OldestIsUnique(es, i, j);
    }
  }

  lemma OldestIsUnique(es: seq<Entry>, i: int, j: int)
    requires IsOldestPair(es, i, j)
    ensures OldestPair(es, 0) == Some((i, j))
  {
    PairsFrom(es, 0);
    NothingReachesBeyond(es);
    hide OldestPair;
    var (a, b) := OldestPair(es, 0).value;
    assert a == i by { assert Reaches(es, i, j) && Reaches(es, a, b); }
    hide Continues, Adds;
    ReachIsUnique(es, i, j, b);
  }

  /** An entry reaches at most one other: what combines with it is not bypassed. */
  lemma ReachIsUnique(es: seq<Entry>, i: int, j: int, b: int)
    requires Reaches(es, i, j) && Reaches(es, i, b)
    ensures j == b
  {
    CombinedIsNotBypassed(es[i].packet, es[j].packet);
    CombinedIsNotBypassed(es[i].packet, es[b].packet);
  }

  lemma CombinedIsNotBypassed(a: Packet, b: Packet)
    ensures !(Combines(a, b) && Bypasses(a, b))
  {
  }

  // ----- What a push does -----

  ghost predicate NoPartner(es: seq<Entry>, p: Packet) {
    forall i :: !IsPartner(es, p, i)
  }

  ghost predicate NoPair(es: seq<Entry>) {
    forall i, j :: !Reaches(es, i, j)
  }

  lemma PushRejects(q: Queue, p: Packet, now: int)
    requires !q.accepting
    ensures QueueSpec.Push(q, p, now) == (q, Returned(EnqueueResult(false, false, 0, 0)))
  {
  }

  /** A packet with a partner takes no room: it is combined into that entry, which keeps its receipt time. */
  lemma PushCoalesces(q: Queue, p: Packet, now: int, i: nat)
    requires q.accepting && IsPartner(q.entries, p, i)
    ensures var (q', step) := QueueSpec.Push(q, p, now);
            var e := q.entries[i];
            && step == Returned(EnqueueResult(true, false, 1, 0))
            && |q'.entries| == |q.entries| && IsCombination(q'.entries[i].packet, e.packet, p)
            && q' == q.(entries := q.entries[i := Entry(q'.entries[i].packet, e.receivedAt)])
  {
    BackwardMatchExactly(q.entries, p);
    BatchExactly(q.entries[i].packet, p);
    hide Batch, BackwardMatch, MakeRoom, Bypasses, Continues, Adds, IsSumOf;
  }

  /** Without a partner and with room, the packet goes last, and a worker is requested if none was scheduled. */
  lemma PushAppends(q: Queue, p: Packet, now: int)
    requires q.accepting && NoPartner(q.entries, p) && |q.entries| < q.capacity
    ensures QueueSpec.Push(q, p, now) ==
              (Queue(q.capacity, q.entries + [Entry(p, now)], true, true),
               Returned(EnqueueResult(true, !q.workerScheduled, 0, 0)))
  {
    BackwardMatchExactly(q.entries, p);
    hide Batch, BackwardMatch, MakeRoom, IsPartner;
  }

  /** With a full queue the oldest entry that reaches another is combined into that one, at its place and with the earlier time. */
  lemma PushCompacts(q: Queue, p: Packet, now: int, i: nat, j: nat)
    requires q.accepting && NoPartner(q.entries, p) && |q.entries| == q.capacity && IsOldestPair(q.entries, i, j)
    ensures var (q', step) := QueueSpec.Push(q, p, now);
            var es := q.entries;
            var time := if es[i].receivedAt < es[j].receivedAt then es[i].receivedAt else es[j].receivedAt;
            && step == Returned(EnqueueResult(true, !q.workerScheduled, 1, 0))
            && |q'.entries| == |es| && IsCombination(q'.entries[j - 1].packet, es[i].packet, es[j].packet)
            && q' == Queue(q.capacity,
                           es[..i] + es[i + 1..j] + [Entry(q'.entries[j - 1].packet, time)] + es[j + 1..] + [Entry(p, now)],
                           true, true)
  {
    BackwardMatchExactly(q.entries, p);
    OldestPairExactly(q.entries);
    BatchExactly(q.entries[i].packet, q.entries[j].packet);
    hide Batch, BackwardMatch, OldestPair, OldestDroppable, IsPartner, Bypasses, Continues, Adds, IsSumOf;
    CombinedPlaces(q.entries, i, j);
  }

  lemma CombinedPlaces(es: seq<Entry>, i: nat, j: nat)
    requires i < j < |es| && Batch(es[i].packet, es[j].packet).Batched?
    ensures var m := Entry(Batch(es[i].packet, es[j].packet).merged, Min(es[i].receivedAt, es[j].receivedAt));
            CombineInto(es, i, j) == es[..i] + es[i + 1..j] + [m] + es[j + 1..]
  {
    hide Batch;
  }

  /** With a full queue and nothing to combine, the oldest droppable motion makes room. */
  lemma PushDrops(q: Queue, p: Packet, now: int, i: nat)
    requires q.accepting && NoPartner(q.entries, p) && |q.entries| == q.capacity && NoPair(q.entries)
    requires i < |q.entries| && IsDroppableMotion(q.entries[i].packet)
    requires forall k | 0 <= k < i :: !IsDroppableMotion(q.entries[k].packet)
    ensures QueueSpec.Push(q, p, now) ==
              (Queue(q.capacity, q.entries[..i] + q.entries[i + 1..] + [Entry(p, now)], true, true),
               Returned(EnqueueResult(true, !q.workerScheduled, 0, 1)))
  {
    BackwardMatchExactly(q.entries, p);
    OldestPairExactly(q.entries);
    var r := OldestDroppable(q.entries, 0);
    assert r == Some(i);
    hide Batch, BackwardMatch, OldestPair, OldestDroppable, IsPartner, Reaches, IsDroppableMotion;
  }

  /**
    A producer is left waiting exactly when the queue is full, the packet has no partner in
    it, no queued packet reaches another and none is droppable motion.
   */
  lemma WaitsExactlyWhenNothingCanGive(q: Queue, p: Packet, now: int)
    requires Bounded(q)
    ensures QueueSpec.Push(q, p, now).1.Waiting? <==>
              && q.accepting && |q.entries| == q.capacity && NoPartner(q.entries, p) && NoPair(q.entries)
              && forall i | 0 <= i < |q.entries| :: !IsDroppableMotion(q.entries[i].packet)
    ensures QueueSpec.Push(q, p, now).1.Waiting? ==> QueueSpec.Push(q, p, now).0 == q
  {
    BackwardMatchExactly(q.entries, p);
    OldestPairExactly(q.entries);
    var r := OldestDroppable(q.entries, 0);
    hide Batch, BackwardMatch, OldestPair, OldestDroppable, IsPartner, Reaches, IsDroppableMotion;
  }

  /** A producer whose wait is over gets in last, unless the queue was stopped; it is never lost silently. */
  lemma WaitEnds(q: Queue, p: Packet, now: int)
    requires MayWake(q)
    ensures FinishPush(q, p, now) ==
              if q.accepting then
                (Queue(q.capacity, q.entries + [Entry(p, now)], true, true),
                 Returned(EnqueueResult(true, !q.workerScheduled, 0, 0)))
              else (q, Returned(EnqueueResult(false, false, 0, 0)))
  {
  }

  /** Packets that are no edges and are never dropped either: controller states, scrolls and pen moves. */
  predicate IsKeptState(p: Packet) {
    p.Controller? || p.Scroll? || p.HScroll? || (p.Pen? && !p.event.Transition?)
  }

  /** Every packet is an edge, droppable motion or kept state, and only one of them. */
  lemma ThreeKinds(p: Packet)
    ensures IsEdge(p) <==> !IsDroppableMotion(p) && !IsKeptState(p)
    ensures !(IsDroppableMotion(p) && IsKeptState(p))
  {
  }

  /** The queue in front of a waiting producer holds only edges exactly when it holds no kept state. */
  lemma WaitsBehindEdgesExactly(q: Queue, p: Packet, now: int)
    requires Bounded(q) && QueueSpec.Push(q, p, now).1.Waiting?
    ensures (forall i | 0 <= i < |q.entries| :: IsEdge(q.entries[i].packet))
       <==> forall i | 0 <= i < |q.entries| :: !IsKeptState(q.entries[i].packet)
  {
    WaitsExactlyWhenNothingCanGive(q, p, now);
    forall i | 0 <= i < |q.entries|
      ensures IsEdge(q.entries[i].packet) <==> !IsKeptState(q.entries[i].packet)
    {
      ThreeKinds(q.entries[i].packet);
      assert !IsDroppableMotion(q.entries[i].packet);
    }
    hide IsEdge, IsKeptState, QueueSpec.Push, NoPair;
  }

  /** A reachable state in which a producer waits although no edge is queued: one scroll and room for one packet. */
  lemma WaitsBehindScroll(amount: Int16, p: Packet, now: int)
    requires p.Discrete?
    ensures var scroll := Scroll(amount, amount);
            var run := [Push(scroll, now), Push(p, now)];
            && IsRun(Start(1), run)
            && var s := After(Start(1), run);
               && s.waiting == multiset{p} && PacketsOf(s.queue.entries) == [scroll]
               && !IsEdge(scroll) && s.dropped == multiset{}
  {
    var scroll := Scroll(amount, amount);
    var s0 := Start(1);
    var s1 := Next(s0, Push(scroll, now));
    var es := [Entry(scroll, now)];
    assert s1.queue.entries == es && s1.queue.capacity == 1 && s1.queue.accepting;
    assert !IsDroppableMotion(es[0].packet) && Batch(scroll, p).TerminateBatch?;
    assert NoPair(es) && NoPartner(es, p);
    WaitsExactlyWhenNothingCanGive(s1.queue, p, now);
    var s2 := Next(s1, Push(p, now));
    assert s2.waiting == multiset{p};
    hide Next, QueueSpec.Push;
    var run := [Push(scroll, now), Push(p, now)];
    assert run[1..] == [Push(p, now)] && run[1..][1..] == [];
    assert IsRun(s2, []) && IsRun(s1, run[1..]) && After(s1, run[1..]) == s2;
  }

  // ----- What a pop leaves behind -----

  /** A packet that was skipped stays out of reach after a merge. */
  lemma SkippedStaysSkipped(d: Packet, s: Packet, e: Packet)
    requires Batch(d, s).Batched? && Batch(d, e) == NotBatchable
    ensures Batch(Batch(d, s).merged, e) == NotBatchable
  {
  }

  lemma {:induction false} MergeSkips(d: Packet, es: seq<Entry>, e: Packet)
    requires Batch(d, e) == NotBatchable
    ensures Batch(MergeForward(d, es).packet, e) == NotBatchable
    decreases |es|
  {
    if es == [] {
    } else {
      match Batch(d, es[0].packet)
      case Batched(m) =>
        SkippedStaysSkipped(d, es[0].packet, e);
        hide Batch;
        MergeSkips(m, es[1..], e);
      case TerminateBatch =>
      case NotBatchable => MergeSkips(d, es[1..], e);
    }
  }

  lemma {:induction false} NoMatchBehind(p: Packet, e: Entry, es: seq<Entry>, start: nat)
    requires start <= |es| && ForwardMatch(p, es, start).None?
    ensures ForwardMatch(p, [e] + es, start + 1).None?
    decreases |es| - start
  {
    if start < |es| && Batch(p, es[start].packet) == NotBatchable {
      hide Batch;
      NoMatchBehind(p, e, es, start + 1);
    }
  }

  lemma {:induction false} DrainLeavesNoPartner(d: Packet, es: seq<Entry>)
    ensures var r := MergeForward(d, es); ForwardMatch(r.packet, r.rest, 0).None?
    decreases |es|
  {
    hide Batch;
    if es == [] {
    } else {
      match Batch(d, es[0].packet)
      case Batched(m) => DrainLeavesNoPartner(m, es[1..]);
      case TerminateBatch =>
      case NotBatchable =>
        DrainLeavesNoPartner(d, es[1..]);
        MergeSkips(d, es[1..], es[0].packet);
        var r := MergeForward(d, es[1..]);
        NoMatchBehind(r.packet, es[0], r.rest, 0);
    }
  }

  /** After a pop no queued packet combines with the delivered one, unless a barrier stands before it. */
  lemma PopLeavesNoPartner(d: Packet, es: seq<Entry>, j: nat)
    ensures var r := MergeForward(d, es);
            j < |r.rest| && Combines(r.packet, r.rest[j].packet) ==>
              exists k :: 0 <= k < j && !Bypasses(r.packet, r.rest[k].packet)
  {
    var r := MergeForward(d, es);
    DrainLeavesNoPartner(d, es);
    ScanForwards(r.packet, r.rest, 0);
    hide MergeForward, ForwardMatch, Combines, Bypasses;
  }

  /** What stays in the queue stays as it was, in order. */
  predicate IsSubsequence(a: seq<Entry>, b: seq<Entry>)
    decreases |b|
  {
    a == [] || (b != [] && ((a[0] == b[0] && IsSubsequence(a[1..], b[1..])) || IsSubsequence(a, b[1..])))
  }

  lemma {:induction false} PopKeepsTheRest(d: Packet, es: seq<Entry>)
    ensures var r := MergeForward(d, es); IsSubsequence(r.rest, es) && |r.rest| + r.coalesced == |es|
    decreases |es|
  {
    hide Batch;
    if es == [] {
    } else {
      match Batch(d, es[0].packet)
      case Batched(m) => PopKeepsTheRest(m, es[1..]);
      case TerminateBatch => WholeSubsequence(es);
      case NotBatchable => PopKeepsTheRest(d, es[1..]);
    }
  }

  lemma {:induction false} WholeSubsequence(es: seq<Entry>)
    ensures IsSubsequence(es, es)
  {
    if es == [] {
    } else {
      WholeSubsequence(es[1..]);
    }
  }
}
