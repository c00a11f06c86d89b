/**
  Runs of the queue: any interleaving of producers (some of them waiting), the consumer,
  stop and resume. A ghost history records what was accepted, delivered, combined and
  dropped since the last stop, and the theorems say what every reachable state owes to it.
 */
module QueueRuns {
  import opened Options
  import opened Packets
  import opened QueueViews
  import opened QueueSpec
  import opened QueueTrace

  datatype System = System(
    queue: Queue,
    waiting: multiset<Packet>,  // packets of producers blocked on a full queue
    accepted: seq<Packet>,
    delivered: seq<Packet>,
    coalesced: nat,
    dropped: multiset<Packet>)

  datatype Event =
    | Push(packet: Packet, now: int)
    | Wake(packet: Packet, now: int)
    | Pop
    | WorkerFinished
    | Stop
    | Resume

  function Start(capacity: nat): System {
    System(Queue(if capacity < 1 then 1 else capacity, [], true, false), multiset{}, [], [], 0, multiset{})
  }

  predicate Enabled(s: System, e: Event) {
    e.Wake? ==> e.packet in s.waiting && MayWake(s.queue)
  }

  /** The stale motion a push discards. */
  function DiscardedBy(q: Queue, r: EnqueueResult): multiset<Packet> {
    if r.dropped == 0 then multiset{}
    else match OldestDroppable(q.entries, 0)
      case Some(i) => multiset{q.entries[i].packet}
      case None => multiset{}
  }

  function AfterPush(s: System, packet: Packet, q: Queue, step: PushStep): System {
    match step
    case Waiting => s.(queue := q, waiting := s.waiting + multiset{packet})
    case Returned(r) =>
      if !r.accepted then s.(queue := q)
      else s.(queue := q, accepted := s.accepted + [packet], coalesced := s.coalesced + r.coalesced,
              dropped := s.dropped + DiscardedBy(s.queue, r))
  }

  function Next(s: System, e: Event): System
    requires Enabled(s, e)
  {
    match e
    case Push(packet, now) =>
      var (q, step) := QueueSpec.Push(s.queue, packet, now);
      AfterPush(s, packet, q, step)
    case Wake(packet, now) =>
      var (q, step) := FinishPush(s.queue, packet, now);
      AfterPush(s.(waiting := s.waiting - multiset{packet}), packet, q, step)
    case Pop =>
      var (q, popped) := QueueSpec.Pop(s.queue);
      (match popped
       case None => s
       case Some(p) => s.(queue := q, delivered := s.delivered + [p.packet], coalesced := s.coalesced + p.coalesced))
    case WorkerFinished => s.(queue := QueueSpec.WorkerFinished(s.queue).0)
    case Stop =>
      s.(queue := QueueSpec.Stop(s.queue), accepted := [], delivered := [], coalesced := 0, dropped := multiset{})
    case Resume => s.(queue := QueueSpec.Resume(s.queue))
  }

  predicate IsRun(s: System, events: seq<Event>)
    decreases |events|
  {
    events == [] || (Enabled(s, events[0]) && IsRun(Next(s, events[0]), events[1..]))
  }

  function After(s: System, events: seq<Event>): System
    requires IsRun(s, events)
    decreases |events|
  {
    if events == [] then s else After(Next(s, events[0]), events[1..])
  }

  /** What left or is about to leave the queue, in order. */
  function Output(s: System): seq<Packet> {
    s.delivered + PacketsOf(s.queue.entries)
  }

  // ----- The invariant -----

  ghost predicate ExplainedBy(s: System, done: seq<Slot>, queued: seq<Slot>) {
    && Bounded(s.queue)
    && DropsOldestMotion(queued)
    && Alive(done) == s.delivered && Alive(queued) == PacketsOf(s.queue.entries)
    && multiset(Lost(done + queued)) == s.dropped
    && OnlyMotionDropped(done)
    && SameViews(s.accepted, All(done + queued))
    && |s.accepted| == |s.delivered| + |s.queue.entries| + s.coalesced + |s.dropped|
  }

  ghost predicate Inv(s: System) {
    exists done, queued :: ExplainedBy(s, done, queued)
  }

  lemma SameViewsTrans(ps: seq<Packet>, qs: seq<Packet>, rs: seq<Packet>)
    requires SameViews(ps, qs) && SameViews(qs, rs)
    ensures SameViews(ps, rs)
  {
    forall ch | KeepsLatest(ch) ensures View(ch, ps) == View(ch, rs) {
      assert View(ch, ps) == View(ch, qs) == View(ch, rs);
    }
  }

  /** A push that finds a partner in the queue. */
  lemma CoalescePreserves(s: System, p: Packet, now: int, done: seq<Slot>, t: seq<Slot>)
    requires ExplainedBy(s, done, t) && s.queue.accepting
    requires BackwardMatch(s.queue.entries, p, |s.queue.entries|).Some?
    ensures Inv(Next(s, Push(p, now)))
  {
    hide Edges, SegmentSums, Masks, Dedup, View, SameViews, DropsOldestMotion, All, Alive, Lost, Batch, BackwardMatch, IsEdge, Passable;
    var es := s.queue.entries;
    var i := BackwardMatch(es, p, |es|).value;
    var d := es[i].packet;
    BatchedShape(d, p);
    forall k | i < k < |es| ensures Passable(d, es[k].packet) {
      SkippedByScanIsPassable(d, es[k].packet, p);
    }
    AppendLive(done, t, p);
    AppendKeepsViews(s.accepted, All(done + t), p);
    var t' := t + [Live(p)];
    var u := MergeLive(done, t', i, |es|, true);
    SameViewsTrans(s.accepted + [p], All(done + t'), All(done + u));
    CoalescedPackets(es, i, p);
    CoalescedNext(s, p, now, i);
    assert ExplainedBy(Next(s, Push(p, now)), done, u);
  }

  lemma CoalescedPackets(es: seq<Entry>, i: nat, p: Packet)
    requires i < |es| && Batch(es[i].packet, p).Batched?
    ensures var ps, m := PacketsOf(es), Batch(es[i].packet, p).merged;
            PacketsOf(es[i := es[i].(packet := m)]) == (ps + [p])[..i] + [m] + (ps + [p])[i + 1..|es|] + (ps + [p])[|es| + 1..]
  {
    hide Batch;
  }

  lemma CoalescedNext(s: System, p: Packet, now: int, i: nat)
    requires s.queue.accepting && BackwardMatch(s.queue.entries, p, |s.queue.entries|) == Some(i)
    ensures var es := s.queue.entries;
            Next(s, Push(p, now)) ==
              s.(queue := s.queue.(entries := es[i := es[i].(packet := Batch(es[i].packet, p).merged)]),
                 accepted := s.accepted + [p], coalesced := s.coalesced + 1)
  {
    hide Batch, BackwardMatch;
    assert s.dropped + multiset{} == s.dropped;
  }

  /** Appending after room was made, or when there was room. */
  lemma AppendPreserves(s: System, q: Queue, c: nat, x: multiset<Packet>, p: Packet, now: int, done: seq<Slot>, u: seq<Slot>)
    requires q.capacity == s.queue.capacity && 1 <= q.capacity && |q.entries| < q.capacity
    requires DropsOldestMotion(u) && Alive(done) == s.delivered && Alive(u) == PacketsOf(q.entries)
    requires multiset(Lost(done + u)) == s.dropped + x
    requires OnlyMotionDropped(done)
    requires SameViews(s.accepted, All(done + u))
    requires |s.accepted| == |s.delivered| + |q.entries| + s.coalesced + c + |s.dropped| + |x|
    ensures var q' := Append(q, p, now, c, |x|).0;
            Inv(s.(queue := q', accepted := s.accepted + [p], coalesced := s.coalesced + c, dropped := s.dropped + x))
  {
    hide Edges, SegmentSums, Masks, Dedup, View, SameViews, DropsOldestMotion, All, Alive, Lost;
    AppendLive(done, u, p);
    AppendKeepsViews(s.accepted, All(done + u), p);
    var q' := Append(q, p, now, c, |x|).0;
    var s' := s.(queue := q', accepted := s.accepted + [p], coalesced := s.coalesced + c, dropped := s.dropped + x);
    assert PacketsOf(q'.entries) == PacketsOf(q.entries) + [p];
    assert ExplainedBy(s', done, u + [Live(p)]);
  }

  lemma OverflowPreserves(s: System, p: Packet, now: int, done: seq<Slot>, t: seq<Slot>)
    requires ExplainedBy(s, done, t) && s.queue.accepting
    requires BackwardMatch(s.queue.entries, p, |s.queue.entries|).None?
    requires |s.queue.entries| == s.queue.capacity && MakeRoom(s.queue.entries).Room?
    ensures Inv(Next(s, Push(p, now)))
  {
    if OldestPair(s.queue.entries, 0).Some? {
      CompactPreserves(s, p, now, done, t);
    } else {
      DropPreserves(s, p, now, done, t);
    }
  }

  lemma CombinedPackets(es: seq<Entry>, i: nat, j: nat)
    requires i < j < |es| && Batch(es[i].packet, es[j].packet).Batched?
    ensures var ps := PacketsOf(es);
            PacketsOf(CombineInto(es, i, j)) == ps[..i] + ps[i + 1..j] + [Batch(ps[i], ps[j]).merged] + ps[j + 1..]
  {
    hide Batch;
  }

  lemma CompactPreserves(s: System, p: Packet, now: int, done: seq<Slot>, t: seq<Slot>)
    requires ExplainedBy(s, done, t) && s.queue.accepting
    requires BackwardMatch(s.queue.entries, p, |s.queue.entries|).None?
    requires |s.queue.entries| == s.queue.capacity && OldestPair(s.queue.entries, 0).Some?
    ensures Inv(Next(s, Push(p, now)))
  {
    hide Edges, SegmentSums, Masks, Dedup, View, SameViews, DropsOldestMotion, All, Alive, Lost, ForwardMatch, Batch, IsEdge, Passable;
    var es := s.queue.entries;
    var (i, j) := OldestPair(es, 0).value;
    var d := es[i].packet;
    var shorter := CombineInto(es, i, j);
    BatchedShape(d, es[j].packet);
    forall k | i < k < j ensures Passable(d, es[k].packet) {
      NotBatchableIsPassable(d, es[k].packet);
    }
    var u := MergeLive(done, t, i, j, false);
    SameViewsTrans(s.accepted, All(done + t), All(done + u));
    CombinedPackets(es, i, j);
    AppendPreserves(s, s.queue.(entries := shorter), 1, multiset{}, p, now, done, u);
  }

  lemma DropPreserves(s: System, p: Packet, now: int, done: seq<Slot>, t: seq<Slot>)
    requires ExplainedBy(s, done, t) && s.queue.accepting
    requires BackwardMatch(s.queue.entries, p, |s.queue.entries|).None?
    requires |s.queue.entries| == s.queue.capacity
    requires OldestPair(s.queue.entries, 0).None? && OldestDroppable(s.queue.entries, 0).Some?
    ensures Inv(Next(s, Push(p, now)))
  {
    hide Edges, SegmentSums, Masks, Dedup, View, SameViews, DropsOldestMotion, All, Alive, Lost;
    var es := s.queue.entries;
    var i := OldestDroppable(es, 0).value;
    var u := DropLive(done, t, i);
    assert Alive(u) == PacketsOf(RemoveAt(es, i));
    AppendPreserves(s, s.queue.(entries := RemoveAt(es, i)), 0, multiset{es[i].packet}, p, now, done, u);
  }

  lemma PopPreserves(s: System, done: seq<Slot>, t: seq<Slot>)
    requires ExplainedBy(s, done, t) && s.queue.entries != []
    ensures Inv(Next(s, Pop))
  {
    hide Edges, SegmentSums, Masks, Dedup, View, SameViews, OnlyMotionDropped, All, Alive, Lost, Batch, IsDroppableMotion;
    var es := s.queue.entries;
    var d, rest := es[0].packet, es[1..];
    assert PacketsOf(es) == [d] + [] + PacketsOf(rest);
    var u := DrainLive(done, t, d, [], rest);
    var r := MergeForward(d, rest);
    DrainCounts(d, rest);
    SameViewsTrans(s.accepted, All(done + t), All(done + u));
    var before, after := DeliverFront(done, u);
    var s' := Next(s, Pop);
    assert Alive(u)[1..] == PacketsOf(r.rest);
    OnlyMotionConcat(done, u);
    OnlyMotionConcat(before, after);
    assert ExplainedBy(s', before, after);
  }

  lemma {:induction false} DrainCounts(d: Packet, es: seq<Entry>)
    ensures var r := MergeForward(d, es);
            |r.rest| + r.coalesced == |es|
    decreases |es|
  {
    if es == [] {
    } else {
      match Batch(d, es[0].packet)
      case Batched(m) => DrainCounts(m, es[1..]);
      case TerminateBatch =>
      case NotBatchable => DrainCounts(d, es[1..]);
    }
  }

  lemma PushPreserves(s: System, p: Packet, now: int, done: seq<Slot>, t: seq<Slot>)
    requires ExplainedBy(s, done, t)
    ensures Inv(Next(s, Push(p, now)))
  {
    hide Edges, SegmentSums, Masks, Dedup, View, SameViews, DropsOldestMotion, All, Alive, Lost;
    var es := s.queue.entries;
    if !s.queue.accepting || (BackwardMatch(es, p, |es|).None? && |es| == s.queue.capacity && MakeRoom(es).NoRoom?) {
      assert ExplainedBy(Next(s, Push(p, now)), done, t);
    } else if BackwardMatch(es, p, |es|).Some? {
      CoalescePreserves(s, p, now, done, t);
    } else if |es| < s.queue.capacity {
      AppendPreserves(s, s.queue, 0, multiset{}, p, now, done, t);
    } else {
      OverflowPreserves(s, p, now, done, t);
    }
  }

  lemma WakePreserves(s: System, p: Packet, now: int, done: seq<Slot>, t: seq<Slot>)
    requires ExplainedBy(s, done, t) && Enabled(s, Wake(p, now))
    ensures Inv(Next(s, Wake(p, now)))
  {
    hide Edges, SegmentSums, Masks, Dedup, View, SameViews, DropsOldestMotion, All, Alive, Lost;
    if s.queue.accepting {
      AppendPreserves(s.(waiting := s.waiting - multiset{p}), s.queue, 0, multiset{}, p, now, done, t);
    } else {
      assert ExplainedBy(Next(s, Wake(p, now)), done, t);
    }
  }

  lemma StepPreserves(s: System, e: Event)
    requires Inv(s) && Enabled(s, e)
    ensures Inv(Next(s, e))
  {
    hide Edges, SegmentSums, Masks, Dedup, View, SameViews, DropsOldestMotion, All, Alive, Lost;
    var done, t :| ExplainedBy(s, done, t);
    match e
    case Push(p, now) => PushPreserves(s, p, now, done, t);
    case Wake(p, now) => WakePreserves(s, p, now, done, t);
    case Pop =>
      if s.queue.entries == [] {
        assert ExplainedBy(Next(s, e), done, t);
      } else {
        PopPreserves(s, done, t);
      }
    case Stop => StopPreserves(s);
    case _ =>
      assert ExplainedBy(Next(s, e), done, t);
  }

  lemma StopPreserves(s: System)
    requires Inv(s)
    ensures Inv(Next(s, Stop))
  {
    hide Edges, SegmentSums, Masks, Dedup, View, Lost, Alive, All;
    EmptyTrace();
    var none: seq<Slot> := [];
    assert none + none == none;
    assert ExplainedBy(Next(s, Stop), [], []);
  }

  lemma {:induction false} RunPreserves(s: System, events: seq<Event>)
    requires Inv(s) && IsRun(s, events)
    ensures Inv(After(s, events))
    decreases |events|
  {
    if events == [] {
    } else {
      StepPreserves(s, events[0]);
      RunPreserves(Next(s, events[0]), events[1..]);
    }
  }

  lemma ReachableInv(capacity: nat, events: seq<Event>)
    requires IsRun(Start(capacity), events)
    ensures Inv(After(Start(capacity), events))
  {
    assert ExplainedBy(Start(capacity), [], []);
    RunPreserves(Start(capacity), events);
  }
}
