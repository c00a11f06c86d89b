/**
  A trace keeps every packet that went through the queue in its place: the ones that are
  still alive (delivered or queued) and the stale motion that was dropped. Each operation of
  the queue is shown to rewrite the trace without changing any view of it.
 */
module QueueTrace {
  import opened Lists
  import opened Packets
  import opened QueueViews
  import opened QueueSpec

  datatype Slot = Live(packet: Packet) | Dropped(packet: Packet)

  /** Everything in the trace, dropped or not. */
  function All(t: seq<Slot>): seq<Packet> {
    if t == [] then [] else [t[0].packet] + All(t[1..])
  }

  function Alive(t: seq<Slot>): seq<Packet> {
    if t == [] then [] else (if t[0].Live? then [t[0].packet] else []) + Alive(t[1..])
  }

  function Lost(t: seq<Slot>): seq<Packet> {
    if t == [] then [] else (if t[0].Dropped? then [t[0].packet] else []) + Lost(t[1..])
  }

  /** Only motion without edges is dropped, and only before all motion that is still queued. */
  ghost predicate DropsOldestMotion(t: seq<Slot>) {
    && OnlyMotionDropped(t)
    && forall i, j | 0 <= i < j < |t| :: t[i].Live? && IsDroppableMotion(t[i].packet) ==> t[j].Live?
  }

  ghost predicate OnlyMotionDropped(t: seq<Slot>) {
    forall i | 0 <= i < |t| :: t[i].Dropped? ==> IsDroppableMotion(t[i].packet)
  }

  lemma OnlyMotionConcat(t: seq<Slot>, u: seq<Slot>)
    ensures OnlyMotionDropped(t + u) <==> OnlyMotionDropped(t) && OnlyMotionDropped(u)
  {
    hide IsDroppableMotion;
    var w := t + u;
    assert forall i | 0 <= i < |t| :: w[i] == t[i];
    assert forall i | 0 <= i < |u| :: w[|t| + i] == u[i];
  }

  /** One trace explains the same history as another, with the same packets dropped. */
  ghost predicate SameHistory(t: seq<Slot>, u: seq<Slot>) {
    SameViews(All(t), All(u)) && multiset(Lost(t)) == multiset(Lost(u))
  }

  lemma SlotCons(s: Slot, t: seq<Slot>)
    ensures All([s] + t) == [s.packet] + All(t)
    ensures Alive([s] + t) == (if s.Live? then [s.packet] else []) + Alive(t)
    ensures Lost([s] + t) == (if s.Dropped? then [s.packet] else []) + Lost(t)
  {
    assert ([s] + t)[1..] == t;
  }

  lemma {:induction false} TraceConcat(t: seq<Slot>, u: seq<Slot>)
    ensures All(t + u) == All(t) + All(u)
    ensures Alive(t + u) == Alive(t) + Alive(u)
    ensures Lost(t + u) == Lost(t) + Lost(u)
  {
    if t == [] {
      assert t + u == u;
    } else {
      hide *;
      TraceConcat(t[1..], u);
      SlotCons(t[0], t[1..]);
      SlotCons(t[0], t[1..] + u);
      var x, r := t[0], t[1..];
      assert t == [x] + r;
      Assoc([x], r, u);
      Assoc([x.packet], All(r), All(u));
      Assoc(if x.Live? then [x.packet] else [], Alive(r), Alive(u));
      Assoc(if x.Dropped? then [x.packet] else [], Lost(r), Lost(u));
    }
  }

  lemma OneSlot(s: Slot)
    ensures All([s]) == [s.packet]
    ensures Alive([s]) == if s.Live? then [s.packet] else []
    ensures Lost([s]) == if s.Dropped? then [s.packet] else []
  {
    assert [s][1..] == [];
  }

  /** Split a trace at the place of its `i`-th live packet. */
  lemma {:induction false} Locate(t: seq<Slot>, i: nat) returns (k: nat)
    requires i < |Alive(t)|
    ensures k < |t| && t[k] == Live(Alive(t)[i])
    ensures Alive(t[..k]) == Alive(t)[..i] && Alive(t[k + 1..]) == Alive(t)[i + 1..]
    ensures t == t[..k] + [t[k]] + t[k + 1..]
  {
    var s, rest := t[0], t[1..];
    SlotCons(s, rest);
    assert t == [s] + rest;
    if s.Live? && i == 0 {
      k := 0;
      assert Alive(t[..0]) == [];
    } else {
      var i' := if s.Live? then i - 1 else i;
      var k' := Locate(rest, i');
      k := k' + 1;
      LocateStep(s, rest, i, i', k');
    }
  }

  lemma LocateStep(s: Slot, rest: seq<Slot>, i: nat, i': nat, k': nat)
    requires i' == (if s.Live? then i - 1 else i) && i' < |Alive(rest)| && k' < |rest|
    requires rest[k'] == Live(Alive(rest)[i'])
    requires Alive(rest[..k']) == Alive(rest)[..i'] && Alive(rest[k' + 1..]) == Alive(rest)[i' + 1..]
    ensures var t := [s] + rest;
            && i < |Alive(t)| && t[k' + 1] == Live(Alive(t)[i])
            && Alive(t[..k' + 1]) == Alive(t)[..i] && Alive(t[k' + 2..]) == Alive(t)[i + 1..]
            && t == t[..k' + 1] + [t[k' + 1]] + t[k' + 2..]
  {
    hide *;
    var t := [s] + rest;
    SlotCons(s, rest);
    SlotCons(s, rest[..k']);
    assert t[..k' + 1] == [s] + rest[..k'];
    assert t[k' + 2..] == rest[k' + 1..];
  }

  /** Packets of a stretch without dropped slots, or with only passable dropped slots, stay passable. */
  lemma {:induction false} StretchIsPassable(d: Packet, t: seq<Slot>)
    requires !IsEdge(d)
    requires forall p | p in Alive(t) :: Passable(d, p)
    requires forall i | 0 <= i < |t| :: t[i].Dropped? ==> IsDroppableMotion(t[i].packet) && !IsDroppableMotion(d)
    ensures forall p | p in All(t) :: Passable(d, p)
  {
    if t == [] {
    } else {
      assert forall p | p in Alive(t[1..]) :: p in Alive(t);
      StretchIsPassable(d, t[1..]);
      if t[0].Live? {
        assert Alive(t)[0] == t[0].packet;
        assert t[0].packet in Alive(t);
      } else {
        DroppableIsPassable(d, t[0].packet);
      }
    }
  }

  /**
    Combining the live packets `i` and `j` of the queued part, at the earlier or at the
    later place, gives a trace of the shortened queue with the same history.
   */
  lemma MergeLive(done: seq<Slot>, t: seq<Slot>, i: nat, j: nat, atEarlier: bool) returns (u: seq<Slot>)
    requires DropsOldestMotion(t)
    requires i < j < |Alive(t)| && Batch(Alive(t)[i], Alive(t)[j]).Batched? && !IsEdge(Alive(t)[i])
    requires forall k | i < k < j :: Passable(Alive(t)[i], Alive(t)[k])
    ensures DropsOldestMotion(u) && SameHistory(done + t, done + u)
    ensures var ps := Alive(t);
            var m := Batch(ps[i], ps[j]).merged;
            Alive(u) == if atEarlier then ps[..i] + [m] + ps[i + 1..j] + ps[j + 1..]
                        else ps[..i] + ps[i + 1..j] + [m] + ps[j + 1..]
  {
    hide All, Alive, Lost, DropsOldestMotion, SameHistory, Batch, Passable, IsEdge;
    var ps := Alive(t);
    var d, s := ps[i], ps[j];
    var m := Batch(d, s).merged;
    var k := Locate(t, i);
    var tail := t[k + 1..];
    var l := Locate(tail, j - i - 1);
    var a, b, c := t[..k], tail[..l], tail[l + 1..];
    assert t == a + [Live(d)] + b + [Live(s)] + c;
    assert Alive(b) == ps[i + 1..j] && Alive(c) == ps[j + 1..];
    BatchedShape(d, s);
    MiddleIsPassable(t, a, d, b, s, c);
    u := if atEarlier then a + [Live(m)] + b + c else a + b + [Live(m)] + c;
    MergedTrace(done, a, d, b, s, c, m);
    MergedOrder(a, d, b, s, c, m);
  }

  lemma MiddleIsPassable(t: seq<Slot>, a: seq<Slot>, d: Packet, b: seq<Slot>, s: Packet, c: seq<Slot>)
    requires DropsOldestMotion(t) && t == a + [Live(d)] + b + [Live(s)] + c
    requires !IsEdge(d) && forall k | 0 <= k < |Alive(b)| :: Passable(d, Alive(b)[k])
    ensures forall p | p in All(b) :: Passable(d, p)
  {
    forall i | 0 <= i < |b| && b[i].Dropped?
      ensures IsDroppableMotion(b[i].packet) && !IsDroppableMotion(d)
    {
      assert t[|a|] == Live(d) && t[|a| + 1 + i] == b[i];
    }
    StretchIsPassable(d, b);
  }

  lemma MergedTrace(done: seq<Slot>, a: seq<Slot>, d: Packet, b: seq<Slot>, s: Packet, c: seq<Slot>, m: Packet)
    requires Batch(d, s) == Batched(m)
    requires !IsEdge(d) && forall p | p in All(b) :: Passable(d, p)
    ensures var t := a + [Live(d)] + b + [Live(s)] + c;
            && SameHistory(done + t, done + (a + [Live(m)] + b + c))
            && SameHistory(done + t, done + (a + b + [Live(m)] + c))
    ensures Alive(a + [Live(m)] + b + c) == Alive(a) + [m] + Alive(b) + Alive(c)
    ensures Alive(a + b + [Live(m)] + c) == Alive(a) + Alive(b) + [m] + Alive(c)
  {
    FiveParts(done, a, Live(d), b, [Live(s)], c);
    FiveParts(done, a, Live(m), b, [], c);
    OneSlot(Live(s));
    SixParts(done, a, b, Live(m), c);
    var all := All(done) + All(a);
    MergeAtEarlier(all, d, All(b), s, All(c));
    MergeAtLater(all, d, All(b), s, All(c));
    NoSlots(a, m, b, c, all);
  }

  lemma NoSlots(a: seq<Slot>, m: Packet, b: seq<Slot>, c: seq<Slot>, all: seq<Packet>)
    ensures a + [Live(m)] + b + [] + c == a + [Live(m)] + b + c
    ensures All([]) == [] && Alive([]) == [] && Lost([]) == []
    ensures all + [m] + All(b) + [] + All(c) == all + [m] + All(b) + All(c)
    ensures Alive(a) + [m] + Alive(b) + [] + Alive(c) == Alive(a) + [m] + Alive(b) + Alive(c)
  {
    EmptyTrace();
    hide *;
  }

  lemma EmptyTrace()
    ensures All([]) == Alive([]) == Lost([]) == []
  {
  }

  lemma FiveParts(done: seq<Slot>, a: seq<Slot>, d: Slot, b: seq<Slot>, s: seq<Slot>, c: seq<Slot>)
    requires d.Live?
    ensures All(done + (a + [d] + b + s + c)) == All(done) + All(a) + [d.packet] + All(b) + All(s) + All(c)
    ensures Lost(done + (a + [d] + b + s + c)) == Lost(done) + (Lost(a) + Lost(b) + Lost(s) + Lost(c))
    ensures Alive(a + [d] + b + s + c) == Alive(a) + [d.packet] + Alive(b) + Alive(s) + Alive(c)
  {
    hide *;
    OneSlot(d);
    TraceConcat(a, [d]);
    TraceConcat(a + [d], b);
    TraceConcat(a + [d] + b, s);
    TraceConcat(a + [d] + b + s, c);
    TraceConcat(done, a + [d] + b + s + c);
    assert Lost(a) + [] == Lost(a);
  }

  lemma SixParts(done: seq<Slot>, a: seq<Slot>, b: seq<Slot>, m: Slot, c: seq<Slot>)
    requires m.Live?
    ensures All(done + (a + b + [m] + c)) == All(done) + All(a) + All(b) + [m.packet] + All(c)
    ensures Lost(done + (a + b + [m] + c)) == Lost(done) + (Lost(a) + Lost(b) + Lost(c))
    ensures Alive(a + b + [m] + c) == Alive(a) + Alive(b) + [m.packet] + Alive(c)
  {
    hide *;
    OneSlot(m);
    TraceConcat(a, b);
    TraceConcat(a + b, [m]);
    TraceConcat(a + b + [m], c);
    TraceConcat(done, a + b + [m] + c);
    assert Lost(a) + Lost(b) + [] == Lost(a) + Lost(b);
  }

  lemma MergedOrder(a: seq<Slot>, d: Packet, b: seq<Slot>, s: Packet, c: seq<Slot>, m: Packet)
    requires Batch(d, s) == Batched(m)
    requires DropsOldestMotion(a + [Live(d)] + b + [Live(s)] + c)
    ensures DropsOldestMotion(a + [Live(m)] + b + c)
    ensures DropsOldestMotion(a + b + [Live(m)] + c)
  {
    BatchedShape(d, s);
    var t, u, v := a + [Live(d)] + b + [Live(s)] + c, a + [Live(m)] + b + c, a + b + [Live(m)] + c;
    var p, q := |a|, |a| + 1 + |b|;
    assert t[p] == Live(d) && t[q] == Live(s);
    assert forall i | 0 <= i < |u| :: i != p ==> u[i] == t[if i < q then i else i + 1];
    assert u[p] == Live(m);
    assert forall i | 0 <= i < |v| :: i != q - 1 ==> v[i] == t[if i < p then i else i + 1];
    assert v[q - 1] == Live(m);
  }

  /** Dropping the oldest droppable live packet: the trace remembers it in place. */
  lemma DropLive(done: seq<Slot>, t: seq<Slot>, i: nat) returns (u: seq<Slot>)
    requires DropsOldestMotion(t)
    requires i < |Alive(t)| && IsDroppableMotion(Alive(t)[i])
    requires forall k | 0 <= k < i :: !IsDroppableMotion(Alive(t)[k])
    ensures DropsOldestMotion(u)
    ensures All(done + u) == All(done + t)
    ensures Alive(u) == RemoveAt(Alive(t), i)
    ensures multiset(Lost(done + u)) == multiset(Lost(done + t)) + multiset{Alive(t)[i]}
  {
    hide All, Alive, Lost, DropsOldestMotion;
    var p := Alive(t)[i];
    var k := Locate(t, i);
    var a, c := t[..k], t[k + 1..];
    u := a + [Dropped(p)] + c;
    OneSlot(Live(p));
    OneSlot(Dropped(p));
    TraceConcat(a + [Live(p)], c);
    TraceConcat(a, [Live(p)]);
    TraceConcat(a + [Dropped(p)], c);
    TraceConcat(a, [Dropped(p)]);
    TraceConcat(done, t);
    TraceConcat(done, u);
    DroppedOrder(t, a, p, c);
    LostOne(Lost(done), Lost(a), p, Lost(c));
    assert Alive(a) + [] + Alive(c) == Alive(a) + Alive(c);
  }

  lemma LostOne(x: seq<Packet>, a: seq<Packet>, p: Packet, c: seq<Packet>)
    ensures multiset(x + (a + [p] + c)) == multiset(x + (a + [] + c)) + multiset{p}
  {
    assert a + [] == a;
  }

  lemma DroppedOrder(t: seq<Slot>, a: seq<Slot>, p: Packet, c: seq<Slot>)
    requires DropsOldestMotion(t) && t == a + [Live(p)] + c && IsDroppableMotion(p)
    requires forall q | q in Alive(a) :: !IsDroppableMotion(q)
    ensures DropsOldestMotion(a + [Dropped(p)] + c)
  {
    var u := a + [Dropped(p)] + c;
    assert t[|a|] == Live(p) && u[|a|] == Dropped(p);
    assert forall i | 0 <= i < |t| :: i != |a| ==> u[i] == t[i];
    forall i | 0 <= i < |a| && a[i].Live? ensures !IsDroppableMotion(a[i].packet) {
      LiveIsAlive(a, i);
    }
    assert forall i | 0 <= i < |a| :: t[i] == a[i];
  }

  lemma {:induction false} LiveIsAlive(t: seq<Slot>, i: nat)
    requires i < |t| && t[i].Live?
    ensures t[i].packet in Alive(t)
  {
    if i == 0 {
    } else {
      LiveIsAlive(t[1..], i - 1);
    }
  }

  /** A new live packet at the end. */
  lemma AppendLive(done: seq<Slot>, t: seq<Slot>, p: Packet)
    requires DropsOldestMotion(t)
    ensures DropsOldestMotion(t + [Live(p)])
    ensures All(done + (t + [Live(p)])) == All(done + t) + [p]
    ensures Alive(t + [Live(p)]) == Alive(t) + [p]
    ensures Lost(done + (t + [Live(p)])) == Lost(done + t)
  {
    hide All, Alive, Lost, IsDroppableMotion;
    OneSlot(Live(p));
    TraceConcat(t, [Live(p)]);
    TraceConcat(done + t, [Live(p)]);
    Assoc(done, t, [Live(p)]);
    NilLeft(Lost(done + t));
  }

  /** The forward merge of `pop` on the trace: `skipped` are the packets already passed over. */
  lemma {:induction false} DrainLive(done: seq<Slot>, t: seq<Slot>, d: Packet, skipped: seq<Packet>, es: seq<Entry>)
    returns (u: seq<Slot>)
    requires DropsOldestMotion(t)
    requires Alive(t) == [d] + skipped + PacketsOf(es)
    requires skipped != [] ==> !IsEdge(d)
    requires !IsEdge(d) ==> forall p | p in skipped :: Passable(d, p)
    ensures DropsOldestMotion(u) && SameHistory(done + t, done + u)
    ensures var r := MergeForward(d, es);
            Alive(u) == [r.packet] + skipped + PacketsOf(r.rest)
    decreases |es|
  {
    hide *;
    if es == [] || Batch(d, es[0].packet).TerminateBatch? {
      DrainStop(d, es);
      SameHistoryRefl(done + t);
      u := t;
    } else {
      var s, rest := es[0].packet, es[1..];
      var ps := PacketsOf(rest);
      assert PacketsOf(es) == [s] + ps;
      if Batch(d, s).NotBatchable? {
        NotBatchableIsPassable(d, s);
        assert Alive(t) == [d] + (skipped + [s]) + ps;
        u := DrainLive(done, t, d, skipped + [s], rest);
        DrainSkip(d, skipped, es);
      } else {
        var m := Batch(d, s).merged;
        BatchedShape(d, s);
        MergedIsPassable(d, skipped, s);
        MergedFront(d, m, skipped, s, ps, Alive(t));
        var v := MergeLive(done, t, 0, |skipped| + 1, true);
        u := DrainLive(done, v, m, skipped, rest);
        DrainMerge(d, es);
        SameHistoryTrans(done + t, done + v, done + u);
      }
    }
  }

  lemma SameHistoryRefl(t: seq<Slot>)
    ensures SameHistory(t, t)
  {
  }

  lemma DrainStop(d: Packet, es: seq<Entry>)
    requires es == [] || Batch(d, es[0].packet).TerminateBatch?
    ensures MergeForward(d, es).packet == d && MergeForward(d, es).rest == es
  {
  }

  lemma SameHistoryTrans(t: seq<Slot>, u: seq<Slot>, v: seq<Slot>)
    requires SameHistory(t, u) && SameHistory(u, v)
    ensures SameHistory(t, v)
  {
    forall ch | KeepsLatest(ch) ensures View(ch, All(t)) == View(ch, All(v)) {
      assert View(ch, All(t)) == View(ch, All(u)) == View(ch, All(v));
    }
  }

  lemma DrainMerge(d: Packet, es: seq<Entry>)
    requires es != [] && Batch(d, es[0].packet).Batched?
    ensures var r := MergeForward(Batch(d, es[0].packet).merged, es[1..]);
            MergeForward(d, es).packet == r.packet && MergeForward(d, es).rest == r.rest
  {
  }

  lemma DrainSkip(d: Packet, skipped: seq<Packet>, es: seq<Entry>)
    requires es != [] && Batch(d, es[0].packet).NotBatchable?
    ensures var r, q := MergeForward(d, es), MergeForward(d, es[1..]);
            && r.packet == q.packet
            && [q.packet] + (skipped + [es[0].packet]) + PacketsOf(q.rest) == [r.packet] + skipped + PacketsOf(r.rest)
  {
    var q := MergeForward(d, es[1..]);
    assert PacketsOf([es[0]] + q.rest) == [es[0].packet] + PacketsOf(q.rest);
  }

  lemma MergedFront(d: Packet, m: Packet, skipped: seq<Packet>, s: Packet, rest: seq<Packet>, ps: seq<Packet>)
    requires ps == [d] + skipped + ([s] + rest)
    ensures var j := |skipped| + 1;
            && j < |ps| && ps[0] == d && ps[j] == s
            && (forall k | 0 < k < j :: ps[k] == skipped[k - 1] && skipped[k - 1] in skipped)
            && ps[..0] + [m] + ps[1..j] + ps[j + 1..] == [m] + skipped + rest
  {
  }

  /** Delivering the oldest live packet moves the border between delivered and queued. */
  lemma DeliverFront(done: seq<Slot>, t: seq<Slot>) returns (before: seq<Slot>, after: seq<Slot>)
    requires DropsOldestMotion(t) && Alive(t) != []
    ensures before + after == done + t
    ensures DropsOldestMotion(after)
    ensures Alive(before) == Alive(done) + [Alive(t)[0]] && Alive(after) == Alive(t)[1..]
  {
    hide All, Alive, Lost;
    var k := Locate(t, 0);
    before, after := done + t[..k + 1], t[k + 1..];
    assert t[..k + 1] == t[..k] + [t[k]];
    OneSlot(t[k]);
    TraceConcat(t[..k], [t[k]]);
    TraceConcat(done, t[..k + 1]);
    assert before + after == done + t;
  }
}
