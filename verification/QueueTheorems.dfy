/**
  What every reachable state of the queue guarantees about the packets accepted since the
  last stop. `Output` is what was delivered followed by what is still queued.
 */
module QueueTheorems {
  import opened Options
  import opened Lists
  import opened Packets
  import opened CursorTrack
  import opened QueueViews
  import opened QueueSpec
  import opened QueueTrace
  import opened QueueRuns

  /** `t` is the output with the dropped motion put back where it was dropped. */
  ghost predicate Restores(s: System, t: seq<Slot>) {
    && Alive(t) == Output(s)
    && multiset(Lost(t)) == s.dropped
    && OnlyMotionDropped(t)
    && SameViews(s.accepted, All(t))
  }

  /**
    The only difference in any view between what clients sent and what comes out is that the
    recorded stale motion packets are missing.
   */
  lemma OnlyStaleMotionIsMissing(capacity: nat, events: seq<Event>)
    requires IsRun(Start(capacity), events)
    ensures exists t :: Restores(After(Start(capacity), events), t)
  {
    ReachableInv(capacity, events);
    hide IsRun, After, SameViews, All, Alive, Lost, OnlyMotionDropped, Bounded;
    var s := After(Start(capacity), events);
    var done, queued :| ExplainedBy(s, done, queued);
    TraceConcat(done, queued);
    var t: seq<Slot> := done + queued;
    OnlyMotionConcat(done, queued);
    assert Restores(s, t);
  }

  /** The queue never exceeds its bound, and every accepted packet is accounted for. */
  lemma BoundedAndBalanced(capacity: nat, events: seq<Event>)
    requires IsRun(Start(capacity), events)
    ensures var s := After(Start(capacity), events);
            && |s.queue.entries| <= s.queue.capacity == (if capacity < 1 then 1 else capacity)
            && |s.accepted| == |s.delivered| + |s.queue.entries| + s.coalesced + |s.dropped|
  {
    ReachableInv(capacity, events);
    CapacityFixed(Start(capacity), events);
  }

  lemma CapacityFixedByStep(s: System, e: Event)
    requires Enabled(s, e)
    ensures Next(s, e).queue.capacity == s.queue.capacity
  {
    hide BackwardMatch, MakeRoom, MergeForward, Batch, OldestDroppable, QueueSpec.Push, FinishPush, Append, QueueSpec.Pop;
  }

  lemma {:induction false} CapacityFixed(s: System, events: seq<Event>)
    requires IsRun(s, events)
    ensures After(s, events).queue.capacity == s.queue.capacity
    decreases |events|
  {
    if events == [] {
    } else {
      CapacityFixedByStep(s, events[0]);
      hide Next, Enabled;
      CapacityFixed(Next(s, events[0]), events[1..]);
    }
  }

  // ----- Consequences for the output itself -----

  /** What is not dropped is observed alike with and without the dropped slots. */
  lemma {:induction false} DroppedUnobserved(ch: Channel, t: seq<Slot>)
    requires ch.Pad? || ch.Stylus?
    requires OnlyMotionDropped(t)
    ensures Observed(ch, All(t)) == Observed(ch, Alive(t))
    ensures Edges(All(t)) == Edges(Alive(t))
    ensures Masks(All(t)) == Masks(Alive(t))
  {
    if t == [] {
    } else {
      var x, r := t[0], t[1..];
      DroppedUnobserved(ch, r);
      HeadTail(t);
      SlotCons(x, r);
      ViewsCons(ch, x.packet, All(r));
      ViewsCons(ch, x.packet, Alive(r));
      NilLeft(Alive(r));
      NilLeft(Edges(Alive(r)));
      NilLeft(Observed(ch, Alive(r)));
      NilLeft(Masks(Alive(r)));
      hide Observed, Edges, Masks, All, Alive;
    }
  }

  /** Keys, buttons, text, arrivals, batteries and touch or pen transitions: none lost, none reordered. */
  lemma EdgesAreExact(capacity: nat, events: seq<Event>)
    requires IsRun(Start(capacity), events)
    ensures var s := After(Start(capacity), events);
            Edges(Output(s)) == Edges(s.accepted)
  {
    OnlyStaleMotionIsMissing(capacity, events);
    var s := After(Start(capacity), events);
    var t :| Restores(s, t);
    DroppedUnobserved(Stylus, t);
  }

  /**
    Pads and pens lose nothing at all: same changes of connected pads, same changes of each
    pad's buttons and of the pen's event, buttons and tool, same last state, and the same
    state before every edge.
   */
  lemma PadsAreExact(capacity: nat, events: seq<Event>, number: int)
    requires IsRun(Start(capacity), events)
    ensures var s := After(Start(capacity), events);
            && View(Pad(number), Output(s)) == View(Pad(number), s.accepted)
            && View(Stylus, Output(s)) == View(Stylus, s.accepted)
            && Dedup(Masks(Output(s))) == Dedup(Masks(s.accepted))
            && forall ch | ch == Pad(number) || ch == Stylus ::
                 && Dedup(Marks(ch, Output(s))) == Dedup(Marks(ch, s.accepted))
                 && var o, a := States(ch, Output(s)), States(ch, s.accepted);
                    (o == [] <==> a == []) && (a != [] ==> o[|o| - 1] == a[|a| - 1])
  {
    hide Observed, Collapse, Edges, SegmentSums, Masks, Dedup, Marks, States, All, Alive, Lost, IsRun, After;
    OnlyStaleMotionIsMissing(capacity, events);
    var s := After(Start(capacity), events);
    var t :| Restores(s, t);
    DroppedUnobserved(Stylus, t);
    DroppedUnobserved(Pad(number), t);
    SameViewSameMarks(Pad(number), s.accepted, Output(s));
    SameViewSameMarks(Stylus, s.accepted, Output(s));
  }

  /** A trace from which nothing was dropped is the output. */
  lemma {:induction false} NothingLost(t: seq<Slot>)
    requires Lost(t) == []
    ensures All(t) == Alive(t)
  {
    if t == [] {
    } else {
      assert t[0].Live?;
      NothingLost(t[1..]);
    }
  }

  /** While no motion had to be dropped, the output shows every view of the input. */
  lemma NothingDroppedNothingChanged(capacity: nat, events: seq<Event>)
    requires IsRun(Start(capacity), events)
    ensures var s := After(Start(capacity), events);
            s.dropped == multiset{} ==> SameViews(s.accepted, Output(s))
  {
    OnlyStaleMotionIsMissing(capacity, events);
    var s := After(Start(capacity), events);
    var t :| Restores(s, t);
    if s.dropped == multiset{} {
      assert |multiset(Lost(t))| == |Lost(t)|;
      NothingLost(t);
    }
  }

  /** While no motion had to be dropped, every finger, pen, pad, sensor and pointer shows the same changes and the same last packet. */
  lemma EveryChannelIsExact(capacity: nat, events: seq<Event>, ch: Channel)
    requires IsRun(Start(capacity), events) && KeepsLatest(ch)
    ensures var s := After(Start(capacity), events);
            s.dropped == multiset{} ==>
              && Dedup(Marks(ch, Output(s))) == Dedup(Marks(ch, s.accepted))
              && var o, a := States(ch, Output(s)), States(ch, s.accepted);
                 (o == [] <==> a == []) && (a != [] ==> o[|o| - 1] == a[|a| - 1])
  {
    hide Edges, SegmentSums, Masks, Dedup, Marks, States, Collapse, Observed, IsRun, After, SameCursor;
    NothingDroppedNothingChanged(capacity, events);
    var s := After(Start(capacity), events);
    if s.dropped == multiset{} {
      assert View(ch, s.accepted) == View(ch, Output(s));
      SameViewSameMarks(ch, s.accepted, Output(s));
    }
  }

  /** Dropped packets other than mouse motion leave no mark on the cursor. */
  lemma {:induction false} DroppedLeaveCursor(t: seq<Slot>, at: Position)
    requires OnlyMotionDropped(t) && forall p | p in Lost(t) :: !IsMouseMotion(p)
    ensures CursorAfter(All(t), at) == CursorAfter(Alive(t), at) && Clicks(All(t), at) == Clicks(Alive(t), at)
    decreases |t|
  {
    if t == [] {
    } else {
      var x, r := t[0], t[1..];
      assert Lost(t) == (if x.Dropped? then [x.packet] else []) + Lost(r);
      assert x.Dropped? ==> x.packet in Lost(t);
      DroppedLeaveCursor(r, Moved(at, x.packet));
      assert x.Dropped? ==> Indifferent(x.packet);
      HeadTail(t);
      hide Moved, ClickIn, CursorAfter, Clicks, All, Alive, Lost, IsMouseMotion;
      SlotCons(x, r);
      TrackCons(x.packet, All(r), at);
      TrackCons(x.packet, Alive(r), at);
      NilLeft(Alive(r));
      NilLeft(Clicks(Alive(r), at));
      if x.Dropped? {
        IndifferentTrack(x.packet, at);
      }
    }
  }

  /** Every click lands where it was accepted unless mouse motion had to be dropped: relative and absolute motion keep their order. */
  lemma ClicksLandWhereAccepted(capacity: nat, events: seq<Event>)
    requires IsRun(Start(capacity), events)
    ensures var s := After(Start(capacity), events);
            (forall p | p in s.dropped :: !IsMouseMotion(p)) ==> SameCursor(s.accepted, Output(s))
  {
    OnlyStaleMotionIsMissing(capacity, events);
    hide IsRun, After, All, Alive, Lost, OnlyMotionDropped, IsMouseMotion, Clicks, CursorAfter, Edges, SegmentSums, Masks, View;
    var s := After(Start(capacity), events);
    var t :| Restores(s, t);
    if forall p | p in s.dropped :: !IsMouseMotion(p) {
      assert forall p | p in Lost(t) :: p in multiset(Lost(t));
      DroppedLeaveCursor(t, HOME);
    }
  }

  // ----- Conservation of motion between edges -----

  /** The amounts dropped between edges. */
  function LostSums(t: seq<Slot>): (r: seq<Amount>)
    ensures r != []
  {
    if t == [] then [NOTHING]
    else if t[0].Dropped? then AddToFirst(AmountOf(t[0].packet), LostSums(t[1..]))
    else if IsEdge(t[0].packet) then [NOTHING] + LostSums(t[1..])
    else LostSums(t[1..])
  }

  function PlusAll(xs: seq<Amount>, ys: seq<Amount>): (r: seq<Amount>)
    requires |xs| == |ys|
    ensures |r| == |xs|
  {
    if xs == [] then [] else [xs[0].Plus(ys[0])] + PlusAll(xs[1..], ys[1..])
  }

  lemma {:induction false} PlusAllAt(xs: seq<Amount>, ys: seq<Amount>, k: nat)
    requires |xs| == |ys| && k < |xs|
    ensures PlusAll(xs, ys)[k] == xs[k].Plus(ys[k])
  {
    if k == 0 {
    } else {
      PlusAllAt(xs[1..], ys[1..], k - 1);
    }
  }

  predicate NoScroll(xs: seq<Amount>) {
    forall i | 0 <= i < |xs| :: xs[i].vertical == 0 && xs[i].horizontal == 0
  }

  lemma {:induction false} SumsSplit(t: seq<Slot>)
    requires OnlyMotionDropped(t)
    ensures |LostSums(t)| == |SegmentSums(Alive(t))|
    ensures SegmentSums(All(t)) == PlusAll(SegmentSums(Alive(t)), LostSums(t))
    ensures NoScroll(LostSums(t))
  {
    hide SegmentSums, LostSums, All, Alive, PlusAll, NoScroll, IsDroppableMotion;
    if t == [] {
      NoSums();
    } else {
      var x, r := t[0], t[1..];
      assert t == [x] + r;
      SumsSplit(r);
      SumsSplitStep(x, r);
    }
  }

  lemma SumsSplitStep(x: Slot, r: seq<Slot>)
    requires x.Dropped? ==> IsDroppableMotion(x.packet)
    requires |LostSums(r)| == |SegmentSums(Alive(r))| && NoScroll(LostSums(r))
    requires SegmentSums(All(r)) == PlusAll(SegmentSums(Alive(r)), LostSums(r))
    ensures var t := [x] + r;
            && |LostSums(t)| == |SegmentSums(Alive(t))| && NoScroll(LostSums(t))
            && SegmentSums(All(t)) == PlusAll(SegmentSums(Alive(t)), LostSums(t))
  {
    hide *;
    var live, lost := SegmentSums(Alive(r)), LostSums(r);
    SlotCons(x, r);
    LostCons(x, r);
    SumsCons(x.packet, All(r));
    if x.Live? {
      SumsCons(x.packet, Alive(r));
      SumsSplitLive(x.packet, live, lost);
    } else {
      assert [] + Alive(r) == Alive(r);
      SumsSplitLost(x.packet, live, lost);
    }
  }

  lemma NoSums()
    ensures SegmentSums([]) == LostSums([]) == PlusAll([NOTHING], [NOTHING]) == [NOTHING]
    ensures All([]) == Alive([]) == [] && NoScroll([NOTHING])
  {
    hide *;
    NoPackets();
    NoLosses();
    EmptyTrace();
    NothingPlusNothing();
  }

  lemma NoPackets()
    ensures SegmentSums([]) == [NOTHING]
  {
  }

  lemma NoLosses()
    ensures LostSums([]) == [NOTHING] && NoScroll([NOTHING])
  {
  }

  lemma NothingPlusNothing()
    ensures PlusAll([NOTHING], [NOTHING]) == [NOTHING]
  {
    assert NOTHING.Plus(NOTHING) == NOTHING;
    var none: seq<Amount> := [];
    assert [NOTHING][1..] == none;
    assert PlusAll(none, none) == [];
  }

  lemma LostCons(x: Slot, r: seq<Slot>)
    ensures LostSums([x] + r) ==
      if x.Dropped? then AddToFirst(AmountOf(x.packet), LostSums(r))
      else if IsEdge(x.packet) then [NOTHING] + LostSums(r)
      else LostSums(r)
  {
    assert ([x] + r)[1..] == r;
  }

  lemma SumsSplitLive(p: Packet, live: seq<Amount>, lost: seq<Amount>)
    requires |live| == |lost| > 0 && NoScroll(lost)
    ensures var l := if IsEdge(p) then [NOTHING] + lost else lost;
            && |CountIn(p, live)| == |l|
            && CountIn(p, PlusAll(live, lost)) == PlusAll(CountIn(p, live), l)
            && NoScroll(l)
  {
    hide IsEdge, AmountOf, NoScroll, PlusAll, AddToFirst, SegmentSums, LostSums;
    if IsEdge(p) {
      SplitAtEdge(live, lost);
      NoScrollAtEdge(lost);
    } else {
      SplitInside(AmountOf(p), live, lost);
    }
  }

  lemma SplitAtEdge(live: seq<Amount>, lost: seq<Amount>)
    requires |live| == |lost|
    ensures [NOTHING] + PlusAll(live, lost) == PlusAll([NOTHING] + live, [NOTHING] + lost)
  {
    var xs, ys := [NOTHING] + live, [NOTHING] + lost;
    assert xs[1..] == live && ys[1..] == lost;
    assert NOTHING.Plus(NOTHING) == NOTHING;
  }

  lemma NoScrollAtEdge(lost: seq<Amount>)
    requires NoScroll(lost)
    ensures NoScroll([NOTHING] + lost)
  {
  }

  lemma SplitInside(x: Amount, live: seq<Amount>, lost: seq<Amount>)
    requires |live| == |lost| > 0
    ensures AddToFirst(x, PlusAll(live, lost)) == PlusAll(AddToFirst(x, live), lost)
  {
    AddFirstPlus(x, live[0], lost[0]);
  }

  lemma AddFirstPlus(x: Amount, a: Amount, b: Amount)
    ensures x.Plus(a.Plus(b)) == x.Plus(a).Plus(b) == a.Plus(x.Plus(b))
  {
  }

  lemma SumsSplitLost(p: Packet, live: seq<Amount>, lost: seq<Amount>)
    requires |live| == |lost| > 0 && IsDroppableMotion(p) && NoScroll(lost)
    ensures CountIn(p, PlusAll(live, lost)) == PlusAll(live, AddToFirst(AmountOf(p), lost))
    ensures NoScroll(AddToFirst(AmountOf(p), lost))
  {
    assert !IsEdge(p) && AmountOf(p).vertical == 0 && AmountOf(p).horizontal == 0;
    hide AmountOf, IsEdge;
    AddFirstPlus(AmountOf(p), live[0], lost[0]);
  }

  /**
    Between any two consecutive edges the accepted relative motion is what came out plus
    what was dropped there, and scrolling is conserved exactly.
   */
  lemma MotionIsConserved(capacity: nat, events: seq<Event>)
    requires IsRun(Start(capacity), events)
    ensures var s := After(Start(capacity), events);
            exists t ::
              && Restores(s, t)
              && |SegmentSums(Output(s))| == |SegmentSums(s.accepted)| == |LostSums(t)|
              && forall k | 0 <= k < |LostSums(t)| ::
                   var sent, out, lost := SegmentSums(s.accepted)[k], SegmentSums(Output(s))[k], LostSums(t)[k];
                   && sent.dx == out.dx + lost.dx && sent.dy == out.dy + lost.dy
                   && sent.vertical == out.vertical && sent.horizontal == out.horizontal
  {
    hide View, Edges, SegmentSums, Masks, Dedup, LostSums, PlusAll, All, Alive, Lost, IsRun, After;
    OnlyStaleMotionIsMissing(capacity, events);
    var s := After(Start(capacity), events);
    var t :| Restores(s, t);
    SumsSplit(t);
    var out, lost := SegmentSums(Output(s)), LostSums(t);
    forall k | 0 <= k < |lost| ensures SegmentSums(s.accepted)[k] == out[k].Plus(lost[k]) {
      PlusAllAt(out, lost, k);
    }
  }
}
