/**
  The bitrate controller's exact answers (src/adaptive_bitrate.h:65-83, 173-260): which
  target every window leads to, told by the windows before it, what each decision reports
  and what becomes of the peak and the buffer.
 */
module BitrateTargets {
  import opened AdaptiveBitrate
  import opened BitrateHistory
  import opened Arithmetic

  // ----- The starting envelope -----

  predicate IsClamped(x: nat, value: nat, low: nat, high: nat) {
    low <= x <= high && (low <= value <= high ==> x == value) && (value < low ==> x == low) && (value > high ==> x == high)
  }

  /**
    The limits are clamped, nothing but zero is adjusted when they are already in order, the
    stream starts at the initial target with its peak at the maximum and a buffer of one frame.
   */
  lemma MakeEnvelopeExactly(minimum: Uint32, initial: Uint32, maximum: Uint32, framerate: Uint32)
    ensures var e := MakeEnvelope(minimum, initial, maximum, framerate);
            var frames := if framerate == 0 then 1 else framerate;
            && e.maximum == (if maximum == 0 then 1 else maximum)
            && IsClamped(e.minimum, minimum, 1, e.maximum)
            && IsClamped(e.target, initial, e.minimum, e.maximum)
            && e.initial == e.target && e.peak == e.maximum
            && (e.vbv * frames <= e.target < (e.vbv + 1) * frames || (e.vbv == 1 && e.target < frames))
  {
    var e := MakeEnvelope(minimum, initial, maximum, framerate);
    DivBounds(e.target, Max(framerate, 1));
  }

  // ----- The history of judged windows -----

  /** A judged window: its classification, whether a burst event fell into it, and the target before and after. */
  datatype Judgement = Judgement(pressure: Pressure, burst: bool, before: nat, after: nat)

  /** The controller after the samples, its judged windows, and whether the open window has seen a burst event. */
  function Trace(c: Controller, samples: seq<Sample>): (Controller, seq<Judgement>, bool)
    decreases |samples|
  {
    if samples == [] || c.envelope.target == 0 then (c, [], false)
    else
      var last := samples[|samples| - 1];
      var (b, js, burst) := Trace(c, samples[..|samples| - 1]);
      if b.envelope.target == 0 then (b, js, burst)
      else if Completes(b, last) then
        var w := WindowOf(b, last);
        (Observe(b, last).0, js + [Judgement(w.pressure, burst || last.idrOrReconnect, w.before, w.after)], false)
      else (Observe(b, last).0, js, burst || last.idrOrReconnect)
  }

  /** Windows to wait after `js` before a clean one counts, when the next window has this burst flag. */
  function Wait(js: seq<Judgement>, burst: bool): nat {
    var left := if js == [] then 0 else Left(js[..|js| - 1], js[|js| - 1]);
    if burst && left < 2 then 2 else left
  }

  /** What is left to wait after one more window. */
  function Left(js: seq<Judgement>, j: Judgement): nat
    decreases |js|, 1
  {
    var left := if js == [] then 0 else Left(js[..|js| - 1], js[|js| - 1]);
    var wait := if j.burst && left < 2 then 2 else left;
    match j.pressure
    case Persistent => 2
    case Isolated => if wait == 0 then 1 else wait
    case PressureFree => if wait == 0 then 0 else wait - 1
  }

  /** Clean windows in a row that counted and raised nothing. */
  function Calm(js: seq<Judgement>): nat {
    if js == [] then 0
    else
      var n := |js| - 1;
      if js[n].pressure.PressureFree? && Wait(js[..n], js[n].burst) == 0 && js[n].after == js[n].before
      then Calm(js[..n]) + 1 else 0
  }

  /** A cut by a percentage, at least by one, with the 32-bit product, not below the minimum. */
  function CutTo(minimum: nat, before: nat, percentage: nat): int {
    var part := before * percentage % TWO_TO_32 / 100;
    var cut := before - (if part == 0 then 1 else part);
    if cut < minimum then minimum else cut
  }

  /** A raise by a twentieth, at least by one, not above the maximum. */
  function RaiseTo(maximum: nat, before: nat): nat {
    var raised := before + (if before < 20 then 1 else before / 20);
    if raised > maximum then maximum else raised
  }

  /** The target the windows so far call for. */
  function TargetAfter(js: seq<Judgement>, j: Judgement, minimum: nat, maximum: nat): int {
    match j.pressure
    case Persistent => CutTo(minimum, j.before, 20)
    case Isolated => CutTo(minimum, j.before, 10)
    case PressureFree =>
      if Wait(js, j.burst) == 0 && Calm(js) >= 1 && j.before < maximum then RaiseTo(maximum, j.before) else j.before
  }

  /** A window starts where the one before it ended, and ends where the windows before it call for. */
  predicate CalledFor(js: seq<Judgement>, i: nat, start: nat, minimum: nat, maximum: nat)
    requires i < |js|
  {
    && js[i].before == (if i == 0 then start else js[i - 1].after)
    && js[i].after == TargetAfter(js[..i], js[i], minimum, maximum)
  }

  predicate AsCalledFor(js: seq<Judgement>, start: nat, minimum: nat, maximum: nat) {
    forall i | 0 <= i < |js| :: CalledFor(js, i, start, minimum, maximum)
  }

  // ----- One judgement -----

  lemma CutExactly(e: Envelope, percentage: nat)
    requires Ordered(e) && percentage <= 20
    ensures ReducedTarget(e, percentage) == CutTo(e.minimum, e.target, percentage)
  {
    ReductionFits(e, percentage);
    hide Ordered, Percent;
  }

  /** Without wrapping, a cut takes exactly its percentage. */
  lemma CutTakesPercentage(minimum: nat, before: nat, percentage: nat)
    requires before * percentage < TWO_TO_32
    ensures CutTo(minimum, before, percentage)
         == (var cut := before - Max(Percent(before, percentage), 1); if cut < minimum then minimum else cut)
  {
  }

  /** The cut target is the full percentage below exactly while the product does not wrap, or the minimum catches both. */
  lemma FullCutExactly(e: Envelope, percentage: nat)
    requires Ordered(e) && percentage <= 20
    ensures ReducedTarget(e, percentage) == Max(e.minimum, e.target - Max(Percent(e.target, percentage), 1))
       <==> e.target * percentage < TWO_TO_32
            || e.target - Max(Wrap(e.target * percentage) / 100, 1) <= e.minimum
  {
    ReductionFits(e, percentage);
    ReductionExactly(e, percentage);
    hide Ordered, Percent;
  }

  lemma RaiseExactlyTo(e: Envelope)
    requires Safe(e) && e.target < e.maximum
    ensures RaisedTarget(e) == RaiseTo(e.maximum, e.target)
  {
  }

  /** What the counters must say for the windows so far. */
  predicate Counts(c: Controller, js: seq<Judgement>, burst: bool) {
    && c.cooldownWindows == Wait(js, burst)
    && (c.envelope.target < c.envelope.maximum ==> c.cleanWindows == Calm(js))
  }

  lemma WaitStep(js: seq<Judgement>, j: Judgement)
    ensures Wait(js + [j], false) ==
              (var wait := Wait(js, j.burst);
               if j.pressure.Persistent? then 2
               else if j.pressure.Isolated? then (if wait == 0 then 1 else wait)
               else if wait == 0 then 0 else wait - 1)
    ensures Calm(js + [j]) ==
              (if j.pressure.PressureFree? && Wait(js, j.burst) == 0 && j.after == j.before then Calm(js) + 1 else 0)
  {
    assert (js + [j])[..|js|] == js;
  }

  lemma BurstStep(js: seq<Judgement>, burst: bool, more: bool)
    ensures Wait(js, burst || more) == if more then Max(Wait(js, burst), 2) else Wait(js, burst)
  {
  }

  lemma JudgeAsCalledFor(c: Controller, p: Pressure, js: seq<Judgement>, burst: bool)
    requires Safe(c.envelope) && Counts(c, js, burst) && Patient(c)
    ensures var c' := Judge(c, p).0;
            var j := Judgement(p, burst, c.envelope.target, c'.envelope.target);
            && j.after == TargetAfter(js, j, c.envelope.minimum, c.envelope.maximum)
            && Counts(c', js + [j], false) && Patient(c')
  {
    if p.PressureFree? {
      FreeAsCalledFor(c, js, burst);
    } else {
      CutAsCalledFor(c, p, js, burst);
    }
  }

  lemma CutAsCalledFor(c: Controller, p: Pressure, js: seq<Judgement>, burst: bool)
    requires Safe(c.envelope) && Counts(c, js, burst) && !p.PressureFree?
    ensures var c' := Judge(c, p).0;
            var j := Judgement(p, burst, c.envelope.target, c'.envelope.target);
            && j.after == TargetAfter(js, j, c.envelope.minimum, c.envelope.maximum)
            && Counts(c', js + [j], false) && Patient(c')
  {
    hide Wait, Left, Calm, ReducedTarget, RaisedTarget, CutTo, RaiseTo, ScaledVbv;
    var c' := Judge(c, p).0;
    WaitStep(js, Judgement(p, burst, c.envelope.target, c'.envelope.target));
    CutExactly(c.envelope, 20);
    CutExactly(c.envelope, 10);
  }

  lemma FreeAsCalledFor(c: Controller, js: seq<Judgement>, burst: bool)
    requires Safe(c.envelope) && Counts(c, js, burst) && Patient(c)
    ensures var c' := Judge(c, PressureFree).0;
            var j := Judgement(PressureFree, burst, c.envelope.target, c'.envelope.target);
            && j.after == TargetAfter(js, j, c.envelope.minimum, c.envelope.maximum)
            && Counts(c', js + [j], false) && Patient(c')
  {
    hide Wait, Left, Calm, ReducedTarget, RaisedTarget, CutTo, RaiseTo, ScaledVbv;
    var c' := Judge(c, PressureFree).0;
    WaitStep(js, Judgement(PressureFree, burst, c.envelope.target, c'.envelope.target));
    if c.envelope.target < c.envelope.maximum {
      RaiseExactlyTo(c.envelope);
      RaiseBounds(c.envelope);
    }
  }

  // ----- Whole histories -----

  predicate Follows(c: Controller, js: seq<Judgement>, burst: bool, start: Envelope) {
    && Safe(c.envelope) && Patient(c) && Counts(c, js, burst)
    && c.envelope.minimum == start.minimum && c.envelope.maximum == start.maximum
    && AsCalledFor(js, start.target, start.minimum, start.maximum)
    && c.envelope.target == if js == [] then start.target else js[|js| - 1].after
  }

  lemma ExtendsCalledFor(js: seq<Judgement>, j: Judgement, start: nat, minimum: nat, maximum: nat)
    requires AsCalledFor(js, start, minimum, maximum)
    requires j.before == (if js == [] then start else js[|js| - 1].after)
    requires j.after == TargetAfter(js, j, minimum, maximum)
    ensures AsCalledFor(js + [j], start, minimum, maximum)
  {
    hide TargetAfter;
    var all := js + [j];
    forall i | 0 <= i < |js| ensures CalledFor(all, i, start, minimum, maximum) {
      assert CalledFor(js, i, start, minimum, maximum);
      assert all[..i] == js[..i] && all[i] == js[i] && (i > 0 ==> all[i - 1] == js[i - 1]);
    }
    assert all[..|js|] == js && all[|js|] == j && (js != [] ==> all[|js| - 1] == js[|js| - 1]);
    assert CalledFor(all, |js|, start, minimum, maximum);
  }

  lemma StepFollows(c: Controller, js: seq<Judgement>, burst: bool, start: Envelope, s: Sample)
    requires Follows(c, js, burst, start)
    ensures var c' := Observe(c, s).0;
            if Completes(c, s) then
              var w := WindowOf(c, s);
              Follows(c', js + [Judgement(w.pressure, burst || s.idrOrReconnect, w.before, w.after)], false, start)
            else Follows(c', js, burst || s.idrOrReconnect, start)
  {
    ObserveStep(c, s);
    BurstStep(js, burst, s.idrOrReconnect);
    var a := Accumulate(c, s);
    assert Counts(a, js, burst || s.idrOrReconnect) && Patient(a) && a.envelope == c.envelope;
    if Completes(c, s) {
      var r, w := ResetWindow(a), WindowOf(c, s);
      hide Observe, Completes, Accumulate, WindowOf, Classify, Judge, Wait, Calm, AsCalledFor, Ordered, TargetAfter;
      assert w.before == r.envelope.target && w.after == Judge(r, w.pressure).0.envelope.target;
      JudgeAsCalledFor(r, w.pressure, js, burst || s.idrOrReconnect);
      JudgeOrdered(r, w.pressure);
      ExtendsCalledFor(js, Judgement(w.pressure, burst || s.idrOrReconnect, w.before, w.after),
                       start.target, start.minimum, start.maximum);
    }
  }

  lemma {:induction false} TraceFollows(c: Controller, samples: seq<Sample>)
    requires Follows(c, [], false, c.envelope)
    ensures var (b, js, burst) := Trace(c, samples); Follows(b, js, burst, c.envelope)
    decreases |samples|
  {
    if samples == [] {
    } else {
      var n := |samples| - 1;
      TraceFollows(c, samples[..n]);
      var (b, js, burst) := Trace(c, samples[..n]);
      StepFollows(b, js, burst, c.envelope, samples[n]);
      hide Follows, Observe, Completes, WindowOf;
      assert b.envelope.target > 0 by { FollowsPositive(b, js, burst, c.envelope); }
      assert c.envelope.target > 0 by { FollowsPositive(c, [], false, c.envelope); }
    }
  }

  lemma FollowsPositive(c: Controller, js: seq<Judgement>, burst: bool, start: Envelope)
    requires Follows(c, js, burst, start)
    ensures c.envelope.target > 0
  {
  }

  /**
    For every history of samples, each window takes the target exactly where the windows
    before it call for: down by a fifth or a tenth under pressure, up by a twentieth after two
    counted clean windows, and nowhere else.
   */
  lemma HistoryDecides(minimum: Uint32, initial: Uint32, maximum: Uint32, framerate: Uint32, samples: seq<Sample>)
    requires maximum <= SAFE_MAXIMUM
    ensures var e := MakeEnvelope(minimum, initial, maximum, framerate);
            var (c, js, _) := Trace(Start(e), samples);
            && AsCalledFor(js, e.target, e.minimum, e.maximum)
            && c.envelope.target == if js == [] then e.target else js[|js| - 1].after
  {
    MakeEnvelopeOrdered(minimum, initial, maximum, framerate);
    var c := Start(MakeEnvelope(minimum, initial, maximum, framerate));
    hide MakeEnvelope, Trace, Ordered;
    TraceFollows(c, samples);
  }

  /** The judged windows are those of the run. */
  lemma {:induction false} TraceIsRun(c: Controller, samples: seq<Sample>)
    ensures var (b, js, _) := Trace(c, samples);
            var (b', ws) := Run(c, samples);
            b == b' && |js| == |ws| && forall i | 0 <= i < |js| :: ws[i] == Window(js[i].pressure, js[i].before, js[i].after)
    decreases |samples|
  {
    hide Observe, Completes, WindowOf;
    if samples == [] || c.envelope.target == 0 {
    } else {
      TraceIsRun(c, samples[..|samples| - 1]);
    }
  }

  // ----- Decisions, peak and buffer -----

  /** Every decision reports the state and target it leads to, and why. */
  lemma DecisionTells(c: Controller, s: Sample)
    requires c.envelope.target > 0
    ensures var (c', d) := Observe(c, s);
            && d.state == c'.state && d.target == c'.envelope.target
            && (d.changed <==> c'.envelope.target != c.envelope.target)
            && (d.reason == Collecting <==> !Completes(c, s))
            && (!Completes(c, s) ==> c'.state == c.state && c'.envelope == c.envelope)
            && (Completes(c, s) ==>
                  var w, cooling := WindowOf(c, s), Accumulate(c, s).cooldownWindows > 0;
                  && (d.reason == PersistentCongestion <==> w.pressure.Persistent?)
                  && (d.reason == IsolatedPressure <==> w.pressure.Isolated?)
                  && (d.reason == Cooldown <==> w.pressure.PressureFree? && cooling)
                  && (d.state == Congested <==> w.pressure.Persistent?)
                  && (d.state == Warning <==> w.pressure.Isolated?)
                  && (d.state == Recovering <==> w.pressure.PressureFree? && cooling)
                  && (d.state == Clean <==> w.pressure.PressureFree? && !cooling)
                  && (d.reason == CleanRecovery ==> c.envelope.target < c.envelope.maximum)
                  && (w.pressure.PressureFree? && d.changed ==> d.reason == CleanRecovery))
  {
    hide Classify, ReducedTarget, RaisedTarget, ScaledVbv;
  }

  /**
    A window that cuts or raises takes the peak along and scales the buffer with the target,
    rounded down but not below one; every other window leaves the envelope alone.
   */
  lemma PeakAndBufferFollow(c: Controller, s: Sample)
    requires Safe(c.envelope)
    ensures var e, e' := c.envelope, Observe(c, s).0.envelope;
            && e'.minimum == e.minimum && e'.maximum == e.maximum && e'.initial == e.initial
            && if Completes(c, s) && (!WindowOf(c, s).pressure.PressureFree? || e'.target != e.target) then
                 && e'.peak == e'.target
                 && (e'.vbv * e.target <= e.vbv * e'.target < (e'.vbv + 1) * e.target
                     || (e'.vbv == 1 && e.vbv * e'.target < e.target))
               else e' == e
  {
    ObserveStep(c, s);
    var r := ResetWindow(Accumulate(c, s));
    assert r.envelope == c.envelope;
    hide Observe, Accumulate, Completes, WindowOf, Classify;
    if Completes(c, s) {
      JudgedEnvelope(r, WindowOf(c, s).pressure);
    }
  }

  lemma JudgedEnvelope(c: Controller, p: Pressure)
    requires Safe(c.envelope)
    ensures var e, e' := c.envelope, Judge(c, p).0.envelope;
            && e'.minimum == e.minimum && e'.maximum == e.maximum && e'.initial == e.initial
            && if !p.PressureFree? || e'.target != e.target then
                 && e'.peak == e'.target
                 && (e'.vbv * e.target <= e.vbv * e'.target < (e'.vbv + 1) * e.target
                     || (e'.vbv == 1 && e.vbv * e'.target < e.target))
               else e' == e
  {
    JudgeOrdered(c, p);
    var e, e' := c.envelope, Judge(c, p).0.envelope;
    BufferScales(e.vbv, e'.target, e.target);
    if c.envelope.target < c.envelope.maximum {
      RaiseBounds(e);
    }
    hide ReducedTarget, RaisedTarget, ScaledVbv, Percent;
  }

  lemma BufferScales(vbv: Uint32, target: Uint32, previous: Uint32)
    requires 1 <= vbv <= previous && 1 <= target
    ensures var v := ScaledVbv(vbv, target, previous);
            || v * previous <= vbv * target < (v + 1) * previous
            || (v == 1 && vbv * target < previous)
  {
    ScaledVbvFits(vbv, target, previous);
    DivBounds(vbv * target, previous);
    if vbv * target / previous == 0 {
      FloorAtMost(vbv * target, previous, 0);
    }
  }
}
