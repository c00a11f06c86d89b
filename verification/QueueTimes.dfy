/**
  Receipt times (src/input.cpp:2403, 2437-2439, 2473): whatever is combined, the packet that
  is delivered carries the time at which the first of its parts was queued.
 */
module QueueTimes {
  import opened Options
  import opened Packets
  import opened QueueSpec
  import opened QueueRuns
  import opened QueueOutcomes

  predicate SameChannel(a: Packet, b: Packet) {
    !IsEdge(a) && !IsEdge(b) && ChannelOf(a) == ChannelOf(b)
  }

  /** Within each channel the entries stand in the order of their times. */
  predicate TimesOrdered(es: seq<Entry>) {
    forall i, j | 0 <= i < j < |es| && SameChannel(es[i].packet, es[j].packet) :: es[i].receivedAt <= es[j].receivedAt
  }

  predicate NotLater(es: seq<Entry>, now: int) {
    forall i | 0 <= i < |es| :: es[i].receivedAt <= now
  }

  lemma CombinedChannel(d: Packet, s: Packet)
    requires Combines(d, s)
    ensures Batch(d, s).Batched? && SameChannel(d, s) && SameChannel(Batch(d, s).merged, s)
  {
  }

  lemma BypassedChannel(d: Packet, e: Packet)
    requires Bypasses(d, e)
    ensures !SameChannel(d, e)
  {
  }

  lemma ChannelTrans(a: Packet, b: Packet, c: Packet)
    requires SameChannel(a, b)
    ensures SameChannel(b, c) <==> SameChannel(a, c)
    ensures SameChannel(c, b) <==> SameChannel(c, a)
  {
  }

  lemma CombiningKeepsTimes(es: seq<Entry>, i: nat, j: nat, now: int)
    requires TimesOrdered(es) && NotLater(es, now) && Reaches(es, i, j)
    ensures Batch(es[i].packet, es[j].packet).Batched?
    ensures var shorter := CombineInto(es, i, j); TimesOrdered(shorter) && NotLater(shorter, now)
  {
    CombinedChannel(es[i].packet, es[j].packet);
    CombinedPlaces(es, i, j);
    var m := Entry(Batch(es[i].packet, es[j].packet).merged, Min(es[i].receivedAt, es[j].receivedAt));
    var shorter := CombineInto(es, i, j);
    hide Batch, SameChannel, Combines, Bypasses, CombineInto;
    assert m.receivedAt == es[i].receivedAt;
    forall k | i < k < j ensures !SameChannel(es[i].packet, es[k].packet) {
      BypassedChannel(es[i].packet, es[k].packet);
    }
    forall a, b | 0 <= a < b < |shorter| && SameChannel(shorter[a].packet, shorter[b].packet)
      ensures shorter[a].receivedAt <= shorter[b].receivedAt
    {
      var x, y := if a < i then a else a + 1, if b < i then b else b + 1;
      assert shorter[a] == if x == j then m else es[x];
      assert shorter[b] == if y == j then m else es[y];
      ChannelTrans(es[i].packet, es[j].packet, shorter[a].packet);
      ChannelTrans(es[i].packet, es[j].packet, shorter[b].packet);
      ChannelTrans(m.packet, es[j].packet, shorter[a].packet);
      ChannelTrans(m.packet, es[j].packet, shorter[b].packet);
    }
  }

  lemma RemovingKeepsTimes(es: seq<Entry>, i: nat, now: int)
    requires TimesOrdered(es) && NotLater(es, now) && i < |es|
    ensures TimesOrdered(RemoveAt(es, i)) && NotLater(RemoveAt(es, i), now)
  {
    hide SameChannel;
  }

  lemma AppendingKeepsTimes(es: seq<Entry>, p: Packet, now: int)
    requires TimesOrdered(es) && NotLater(es, now)
    ensures TimesOrdered(es + [Entry(p, now)]) && NotLater(es + [Entry(p, now)], now)
  {
    hide SameChannel;
  }

  lemma PushKeepsTimes(q: Queue, p: Packet, now: int)
    requires TimesOrdered(q.entries) && NotLater(q.entries, now)
    ensures var es := QueueSpec.Push(q, p, now).0.entries; TimesOrdered(es) && NotLater(es, now)
  {
    var es := q.entries;
    BackwardMatchExactly(es, p);
    OldestPairExactly(es);
    if BackwardMatch(es, p, |es|).Some? {
      var i := BackwardMatch(es, p, |es|).value;
      CombinedChannel(es[i].packet, p);
      hide Batch, BackwardMatch, MakeRoom, SameChannel, IsPartner;
      ReplacingKeepsTimes(es, i, Batch(es[i].packet, p).merged, p, now);
    } else {
      hide Batch, BackwardMatch, OldestPair, OldestDroppable, CombineInto, RemoveAt, TimesOrdered, NotLater, Reaches;
      match MakeRoom(es)
      case NoRoom => AppendingKeepsTimes(es, p, now);
      case Room(shorter, _, _) =>
        AppendingKeepsTimes(es, p, now);
        if OldestPair(es, 0).Some? {
          CombiningKeepsTimes(es, OldestPair(es, 0).value.0, OldestPair(es, 0).value.1, now);
        } else {
          RemovingKeepsTimes(es, OldestDroppable(es, 0).value, now);
        }
        AppendingKeepsTimes(shorter, p, now);
    }
  }

  lemma ReplacingKeepsTimes(es: seq<Entry>, i: nat, m: Packet, p: Packet, now: int)
    requires TimesOrdered(es) && NotLater(es, now) && i < |es|
    requires SameChannel(es[i].packet, p) && SameChannel(m, p)
    ensures var es' := es[i := es[i].(packet := m)]; TimesOrdered(es') && NotLater(es', now)
  {
    hide SameChannel;
    forall c: Packet ensures SameChannel(m, c) == SameChannel(es[i].packet, c) && SameChannel(c, m) == SameChannel(c, es[i].packet) {
      ChannelTrans(m, p, c);
      ChannelTrans(es[i].packet, p, c);
      ChannelSymmetric(m, p);
      ChannelSymmetric(es[i].packet, p);
    }
  }

  lemma ChannelSymmetric(a: Packet, b: Packet)
    ensures SameChannel(a, b) == SameChannel(b, a)
  {
  }

  lemma {:induction false} SubsequenceKeepsTimes(a: seq<Entry>, b: seq<Entry>, now: int)
    requires IsSubsequence(a, b) && TimesOrdered(b) && NotLater(b, now)
    ensures TimesOrdered(a) && NotLater(a, now)
    ensures forall e | e in a :: e in b
    decreases |b|
  {
    hide SameChannel;
    if a == [] {
    } else if a[0] == b[0] && IsSubsequence(a[1..], b[1..]) {
      SubsequenceKeepsTimes(a[1..], b[1..], now);
      assert a == [a[0]] + a[1..] && b == [b[0]] + b[1..];
      forall i, j | 0 <= i < j < |a| && SameChannel(a[i].packet, a[j].packet) ensures a[i].receivedAt <= a[j].receivedAt {
        if i == 0 {
          assert a[j] == a[1..][j - 1] && a[j] in b[1..];
        } else {
          assert a[i] == a[1..][i - 1] && a[j] == a[1..][j - 1];
        }
      }
    } else {
      SubsequenceKeepsTimes(a, b[1..], now);
    }
  }

  /** The delivered packet carries its entry's time, and nothing of its channel in the queue is older. */
  lemma PopCarriesEarliest(q: Queue, now: int)
    requires TimesOrdered(q.entries) && NotLater(q.entries, now) && q.entries != []
    ensures var (q', popped) := QueueSpec.Pop(q);
            && popped.Some? && popped.value.receivedAt == q.entries[0].receivedAt
            && (forall i | 0 <= i < |q.entries| && SameChannel(q.entries[0].packet, q.entries[i].packet) ::
                  popped.value.receivedAt <= q.entries[i].receivedAt)
            && TimesOrdered(q'.entries) && NotLater(q'.entries, now)
  {
    PopKeepsTheRest(q.entries[0].packet, q.entries[1..]);
    hide MergeForward, SameChannel, IsSubsequence;
    var r := MergeForward(q.entries[0].packet, q.entries[1..]);
    assert TimesOrdered(q.entries[1..]) && NotLater(q.entries[1..], now);
    SubsequenceKeepsTimes(r.rest, q.entries[1..], now);
  }

  // ----- Whole runs -----

  function Clock(e: Event, was: int): int {
    if e.Push? || e.Wake? then e.now else was
  }

  /** The clock never goes back from one queued packet to the next. */
  predicate ClockAdvances(events: seq<Event>, was: int)
    decreases |events|
  {
    events == [] || (was <= Clock(events[0], was) && ClockAdvances(events[1..], Clock(events[0], was)))
  }

  lemma LaterStill(es: seq<Entry>, was: int, now: int)
    requires NotLater(es, was) && was <= now
    ensures NotLater(es, now)
  {
  }

  lemma StepKeepsTimes(s: System, e: Event, was: int)
    requires Enabled(s, e) && TimesOrdered(s.queue.entries) && NotLater(s.queue.entries, was) && was <= Clock(e, was)
    ensures var s' := Next(s, e); TimesOrdered(s'.queue.entries) && NotLater(s'.queue.entries, Clock(e, was))
  {
    hide TimesOrdered, NotLater, QueueSpec.Push, QueueSpec.Pop;
    LaterStill(s.queue.entries, was, Clock(e, was));
    match e
    case Push(p, now) => PushKeepsTimes(s.queue, p, now);
    case Wake(p, now) => AppendingKeepsTimes(s.queue.entries, p, now);
    case Pop =>
      if s.queue.entries == [] {
        PopNothing(s.queue);
      } else {
        PopCarriesEarliest(s.queue, was);
      }
    case Stop => NothingIsOrdered(was);
    case _ =>
  }

  lemma PopNothing(q: Queue)
    requires q.entries == []
    ensures QueueSpec.Pop(q) == (q, None)
  {
  }

  lemma NothingIsOrdered(now: int)
    ensures TimesOrdered([]) && NotLater([], now)
  {
  }

  /** In every run under a clock that never goes back, each channel's entries are in the order of their times. */
  lemma {:induction false} RunKeepsTimes(s: System, events: seq<Event>, was: int)
    requires IsRun(s, events) && ClockAdvances(events, was)
    requires TimesOrdered(s.queue.entries) && NotLater(s.queue.entries, was)
    ensures TimesOrdered(After(s, events).queue.entries)
    decreases |events|
  {
    hide TimesOrdered, NotLater, Next, Enabled;
    if events == [] {
    } else {
      StepKeepsTimes(s, events[0], was);
      RunKeepsTimes(Next(s, events[0]), events[1..], Clock(events[0], was));
    }
  }
}
