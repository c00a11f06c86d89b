/** What the bitrate controller guarantees over whole histories of samples. */
module BitrateHistory {
  import opened AdaptiveBitrate
  import opened Arithmetic

  // ----- The envelope -----

  function Percent(t: nat, percentage: nat): nat {
    t * percentage / 100
  }

  /** Largest maximum below which no raise leaves 32 bits. */
  const SAFE_MAXIMUM := 4_090_445_044

  const TWO_TO_32 := 0x1_0000_0000

  predicate Ordered(e: Envelope) {
    && 1 <= e.minimum <= e.target <= e.maximum
    && e.target <= e.peak <= e.maximum
    && 1 <= e.vbv <= e.target
  }

  predicate Safe(e: Envelope) {
    Ordered(e) && e.maximum <= SAFE_MAXIMUM
  }

  lemma MakeEnvelopeOrdered(minimum: Uint32, initial: Uint32, maximum: Uint32, framerate: Uint32)
    ensures var e := MakeEnvelope(minimum, initial, maximum, framerate); Ordered(e) && e.maximum == Max(maximum, 1)
  {
    var e := MakeEnvelope(minimum, initial, maximum, framerate);
    DivideAtMost(e.initial, Max(framerate, 1));
  }

  lemma DivideAtMost(a: nat, b: nat)
    requires b >= 1
    ensures a / b <= a
  {
  }

  /** Scaling the buffer stays within the new target, and nothing is cut to 32 bits. */
  lemma ScaledVbvFits(vbv: Uint32, target: Uint32, previous: Uint32)
    requires 1 <= vbv <= previous && 1 <= target
    ensures vbv * target / previous <= target
    ensures Wrap(vbv * target / previous) == vbv * target / previous
    ensures 1 <= ScaledVbv(vbv, target, previous) <= target
  {
    MulAtMost(vbv, previous, target, target);
    assert previous * target < (target + 1) * previous;
    FloorAtMost(vbv * target, previous, target);
  }

  lemma PercentageFits(t: nat, percentage: nat)
    requires percentage <= 20
    ensures Percent(t, percentage) <= t
    ensures Percent(t, percentage) <= Percent(t, 20)
  {
    MulAtMost(t, t, percentage, 20);
    FloorAtMost(t * percentage, 100, t);
  }

  /** A cut subtracts no more than its percentage, and never wraps below zero; its product may wrap. */
  lemma ReductionFits(e: Envelope, percentage: nat)
    requires Ordered(e) && percentage <= 20
    ensures var reduction := Max(Wrap(e.target * percentage) / 100, 1);
            && 1 <= reduction <= Max(Percent(e.target, percentage), 1) <= e.target
            && Wrap(e.target - reduction) == e.target - reduction
  {
    PercentageFits(e.target, percentage);
    SubtractionFits(e.target, e.target * percentage);
  }

  lemma SubtractionFits(target: Uint32, product: nat)
    requires 1 <= target && product / 100 <= target
    ensures var reduction := Max(Wrap(product) / 100, 1);
            && 1 <= reduction <= Max(product / 100, 1) <= target
            && Wrap(target - reduction) == target - reduction
  {
    WrapAtMost(product);
  }

  lemma WrapAtMost(x: nat)
    ensures Wrap(x) <= x && (x < TWO_TO_32 <==> Wrap(x) == x)
    ensures x >= TWO_TO_32 ==> Wrap(x) <= x - TWO_TO_32
  {
  }

  /** What is subtracted is the full percentage exactly while the 32-bit product does not wrap, and less otherwise. */
  lemma ReductionExactly(e: Envelope, percentage: nat)
    requires Ordered(e)
    ensures var reduction, full := Max(Wrap(e.target * percentage) / 100, 1), Max(Percent(e.target, percentage), 1);
            (reduction == full <==> e.target * percentage < TWO_TO_32) && reduction <= full
  {
    WrapAtMost(e.target * percentage);
  }

  /** A raise goes up exactly while its 32-bit sum does not wrap. */
  lemma RaiseExactly(e: Envelope)
    requires Ordered(e) && e.target < e.maximum
    ensures e.target < RaisedTarget(e) <==> e.target + Max(e.target / 20, 1) < TWO_TO_32
    ensures e.maximum <= SAFE_MAXIMUM ==> e.target < RaisedTarget(e)
  {
  }

  /** Up to a maximum of 2^32 / 20 no 32-bit operation of a cut or a raise wraps at all. */
  lemma NothingWraps(e: Envelope, percentage: nat)
    requires Ordered(e) && e.maximum <= TWO_TO_32 / 20 && percentage <= 20
    ensures Wrap(e.target * percentage) == e.target * percentage
    ensures var reduction := Max(Percent(e.target, percentage), 1);
            reduction <= e.target && Wrap(e.target - reduction) == e.target - reduction
    ensures Wrap(e.target + Max(e.target / 20, 1)) == e.target + Max(e.target / 20, 1)
  {
    MulAtMost(e.target, TWO_TO_32 / 20, percentage, 20);
    WrapAtMost(e.target * percentage);
    ReductionFits(e, percentage);
    hide Percent;
  }

  lemma RetargetOrdered(e: Envelope, target: Uint32)
    requires Ordered(e) && e.minimum <= target <= e.maximum
    ensures Ordered(Retarget(e, target))
  {
    ScaledVbvFits(e.vbv, target, e.target);
  }

  /** A cut lowers the target by at most the percentage (at least 1), never below the minimum, and not at all only there. */
  lemma CutBounds(e: Envelope, percentage: nat)
    requires Ordered(e) && percentage <= 20
    ensures var t := ReducedTarget(e, percentage);
            && e.minimum <= t <= e.target
            && e.target - t <= Max(Percent(e.target, percentage), 1)
            && (t == e.target <==> e.target == e.minimum)
  {
    ReductionFits(e, percentage);
    hide Percent;
  }

  lemma RaiseBounds(e: Envelope)
    requires Safe(e) && e.target < e.maximum
    ensures var t := RaisedTarget(e);
            && e.target < t <= e.maximum
            && t - e.target <= Max(e.target / 20, 1)
  {
    RaiseExactly(e);
  }

  // ----- Histories -----

  /** A completed decision window. */
  datatype Window = Window(pressure: Pressure, before: nat, after: nat)

  predicate Raised(w: Window) {
    w.after > w.before
  }

  predicate Completes(c: Controller, s: Sample) {
    Accumulate(c, s).elapsedMs >= 2000
  }

  function WindowOf(c: Controller, s: Sample): Window
    requires c.envelope.target > 0
  {
    Window(Classify(Accumulate(c, s)), c.envelope.target, Observe(c, s).0.envelope.target)
  }

  /** The controller after the samples, and the windows they completed. */
  function Run(c: Controller, samples: seq<Sample>): (Controller, seq<Window>)
    decreases |samples|
  {
    if samples == [] || c.envelope.target == 0 then (c, [])
    else
      var last := samples[|samples| - 1];
      var (b, ws) := Run(c, samples[..|samples| - 1]);
      if b.envelope.target == 0 then (b, ws)
      else (Observe(b, last).0, if Completes(b, last) then ws + [WindowOf(b, last)] else ws)
  }

  /** What the counters say about the last windows. */
  predicate Linked(c: Controller, ws: seq<Window>) {
    var n := |ws|;
    && (c.cooldownWindows <= 1 && n >= 1 ==> !ws[n - 1].pressure.Persistent?)
    && (c.cooldownWindows == 0 && n >= 1 ==> ws[n - 1].pressure.PressureFree?)
    && (c.cooldownWindows == 0 && n >= 2 ==> !ws[n - 2].pressure.Persistent?)
    && (c.cleanWindows >= 1 ==> n >= 1 && QuietBefore(ws, n))
  }

  /** The windows before position `i` allow a raise there. */
  predicate QuietBefore(ws: seq<Window>, i: nat)
    requires i <= |ws|
  {
    && i >= 1 && ws[i - 1].pressure.PressureFree? && !Raised(ws[i - 1])
    && (i >= 2 ==> ws[i - 2].pressure.PressureFree?)
    && (i >= 3 ==> !ws[i - 3].pressure.Persistent?)
  }

  predicate SmallSteps(w: Window) {
    && (Raised(w) ==> w.pressure.PressureFree? && w.after - w.before <= Max(w.before / 20, 1))
    && (w.after < w.before ==> !w.pressure.PressureFree? && w.before - w.after <= Max(Percent(w.before, 20), 1))
  }

  /** No raise without quiet windows before it, and no big steps. */
  predicate NoHunting(ws: seq<Window>) {
    forall i | 0 <= i < |ws| :: SmallSteps(ws[i]) && (Raised(ws[i]) ==> QuietBefore(ws, i))
  }

  /** Only at the maximum does the controller count more than one clean window. */
  predicate Patient(c: Controller) {
    c.envelope.target < c.envelope.maximum ==> c.cleanWindows <= 1
  }

  predicate Good(c: Controller, ws: seq<Window>) {
    Safe(c.envelope) && Patient(c) && c.cooldownWindows <= 2 && c.elapsedMs < 2000 && Linked(c, ws) && NoHunting(ws)
  }

  lemma JudgeOrdered(c: Controller, p: Pressure)
    requires Ordered(c.envelope) && (p.PressureFree? ==> Safe(c.envelope))
    ensures var e := Judge(c, p).0.envelope;
            Ordered(e) && e.minimum == c.envelope.minimum && e.maximum == c.envelope.maximum
  {
    hide ReducedTarget, RaisedTarget, ScaledVbv;
    CutBounds(c.envelope, 20);
    CutBounds(c.envelope, 10);
    RetargetOrdered(c.envelope, ReducedTarget(c.envelope, 20));
    RetargetOrdered(c.envelope, ReducedTarget(c.envelope, 10));
    if p.PressureFree? && c.envelope.target < c.envelope.maximum {
      RaiseBounds(c.envelope);
      RetargetOrdered(c.envelope, RaisedTarget(c.envelope));
    }
  }

  lemma JudgeSteps(c: Controller, p: Pressure)
    requires Safe(c.envelope)
    ensures SmallSteps(Window(p, c.envelope.target, Judge(c, p).0.envelope.target))
  {
    hide ReducedTarget, RaisedTarget, ScaledVbv, Percent;
    CutBounds(c.envelope, 20);
    CutBounds(c.envelope, 10);
    TenOfTwenty(c.envelope.target);
    if c.envelope.target < c.envelope.maximum {
      RaiseBounds(c.envelope);
    }
  }

  lemma TenOfTwenty(t: nat)
    ensures Percent(t, 10) <= Percent(t, 20)
  {
  }

  lemma JudgeLinked(c: Controller, p: Pressure, ws: seq<Window>)
    requires Safe(c.envelope) && Patient(c) && c.cooldownWindows <= 2 && Linked(c, ws)
    ensures var (c', d) := Judge(c, p);
            var w := Window(p, c.envelope.target, c'.envelope.target);
            && Linked(c', ws + [w]) && Patient(c') && c'.cooldownWindows <= 2
            && (Raised(w) ==> QuietBefore(ws, |ws|))
            && c'.elapsedMs == c.elapsedMs
  {
    hide ReducedTarget, RaisedTarget, ScaledVbv, Percent;
    CutBounds(c.envelope, 20);
    CutBounds(c.envelope, 10);
    if c.envelope.target < c.envelope.maximum {
      RaiseBounds(c.envelope);
    }
  }

  lemma QuietExtends(ws: seq<Window>, w: Window, i: nat)
    requires i <= |ws|
    ensures QuietBefore(ws + [w], i) <==> QuietBefore(ws, i)
  {
  }

  lemma StepGood(c: Controller, ws: seq<Window>, s: Sample)
    requires Good(c, ws)
    ensures var c' := Observe(c, s).0;
            Good(c', if Completes(c, s) then ws + [WindowOf(c, s)] else ws)
  {
    var a := Accumulate(c, s);
    assert Linked(a, ws) && Patient(a) && a.cooldownWindows <= 2 && a.envelope == c.envelope;
    if Completes(c, s) {
      var r, p := ResetWindow(a), Classify(a);
      hide Judge, Classify, SmallSteps, Ordered;
      assert Linked(r, ws) && Patient(r);
      JudgeOrdered(r, p);
      JudgeSteps(r, p);
      JudgeLinked(r, p, ws);
      var w := WindowOf(c, s);
      forall i | 0 <= i < |ws + [w]|
        ensures SmallSteps((ws + [w])[i]) && (Raised((ws + [w])[i]) ==> QuietBefore(ws + [w], i))
      {
        QuietExtends(ws, w, i);
      }
    }
  }

  lemma {:induction false} RunGood(c: Controller, samples: seq<Sample>)
    requires Good(c, [])
    ensures Good(Run(c, samples).0, Run(c, samples).1)
    decreases |samples|
  {
    if samples == [] {
    } else {
      var init := samples[..|samples| - 1];
      RunGood(c, init);
      var (b, ws) := Run(c, init);
      StepGood(b, ws, samples[|samples| - 1]);
      hide Observe, WindowOf, Completes, Linked, NoHunting;
    }
  }

  /**
    For every history of samples from a made envelope: the envelope stays ordered, every
    raise is preceded by quiet windows (none pressured among the last two, none persistently
    congested among the last three, and no raise directly before), and steps stay small.
   */
  lemma BoundedAndNoHunting(
      minimum: Uint32, initial: Uint32, maximum: Uint32, framerate: Uint32, samples: seq<Sample>)
    requires maximum <= SAFE_MAXIMUM
    ensures var (c, ws) := Run(Start(MakeEnvelope(minimum, initial, maximum, framerate)), samples);
            Safe(c.envelope) && Patient(c) && NoHunting(ws)
  {
    MakeEnvelopeOrdered(minimum, initial, maximum, framerate);
    var c := Start(MakeEnvelope(minimum, initial, maximum, framerate));
    hide MakeEnvelope, Run, NoHunting, Ordered;
    assert NoHunting([]) by { EmptyHistory(); }
    RunGood(c, samples);
  }

  lemma EmptyHistory()
    ensures NoHunting([])
  {
  }

  /** Reading the theorem: the last pressured window before a raise lies at least three windows back, four if it was persistent. */
  lemma RaiseIsLate(ws: seq<Window>, i: nat, j: nat)
    requires NoHunting(ws) && j < i < |ws| && Raised(ws[i]) && !ws[j].pressure.PressureFree?
    ensures i - j >= if ws[j].pressure.Persistent? then 4 else 3
    ensures !Raised(ws[i - 1])
  {
    assert QuietBefore(ws, i);
  }

  // ----- What a window's classification means -----

  function SumElapsed(samples: seq<Sample>): nat {
    if samples == [] then 0
    else SumElapsed(samples[..|samples| - 1]) + Min(samples[|samples| - 1].elapsedMs, 2000)
  }

  function SumLost(samples: seq<Sample>): nat {
    if samples == [] then 0 else SumLost(samples[..|samples| - 1]) + samples[|samples| - 1].lostPackets
  }

  predicate FreshWindow(c: Controller) {
    c.elapsedMs == c.lostPackets == c.maximumRtt == c.maximumQueue == c.maximumOutq == 0
  }

  /** The aggregates of an unfinished window are the sum and the maxima of its samples. */
  predicate Aggregates(c: Controller, samples: seq<Sample>) {
    && c.elapsedMs == SumElapsed(samples)
    && c.lostPackets == SumLost(samples)
    && (forall s | s in samples :: s.rttMs <= c.maximumRtt && s.queueFrames <= c.maximumQueue && s.outqBytes <= c.maximumOutq)
    && (c.maximumRtt == 0 || exists s :: s in samples && s.rttMs == c.maximumRtt)
    && (c.maximumQueue == 0 || exists s :: s in samples && s.queueFrames == c.maximumQueue)
    && (c.maximumOutq == 0 || exists s :: s in samples && s.outqBytes == c.maximumOutq)
  }

  lemma AccumulateAggregates(c: Controller, samples: seq<Sample>, s: Sample)
    requires Aggregates(c, samples) && c.elapsedMs < 2000 && SumLost(samples + [s]) < 0x1_0000_0000
    ensures Aggregates(Accumulate(c, s), samples + [s])
  {
    var all := samples + [s];
    assert all[..|samples|] == samples;
    var a := Accumulate(c, s);
    assert s in all && forall x | x in samples :: x in all;
    hide SumElapsed, SumLost;
    if a.maximumRtt != 0 && a.maximumRtt != s.rttMs {
      var x :| x in samples && x.rttMs == c.maximumRtt;
      assert x in all;
    }
    if a.maximumQueue != 0 && a.maximumQueue != s.queueFrames {
      var x :| x in samples && x.queueFrames == c.maximumQueue;
      assert x in all;
    }
    if a.maximumOutq != 0 && a.maximumOutq != s.outqBytes {
      var x :| x in samples && x.outqBytes == c.maximumOutq;
      assert x in all;
    }
  }

  /** The classification, in terms of the samples of the window. */
  lemma ClassificationMeaning(c: Controller, samples: seq<Sample>)
    requires Aggregates(c, samples) && c.envelope.target > 0
    ensures Classify(c) == Persistent <==>
              || SumLost(samples) >= 4
              || exists s :: s in samples && (s.rttMs >= 200 || s.queueFrames >= 2 || s.outqBytes >= c.envelope.target * 125)
    ensures Classify(c) == PressureFree <==>
              && SumLost(samples) == 0
              && forall s | s in samples ::
                   s.rttMs < 120 && s.queueFrames < 2 && s.outqBytes < c.envelope.target * 125 / 2
  {
    hide SumElapsed, SumLost;
  }

  /** A stream starts with a fresh window, and every completed window leaves a fresh one. */
  lemma WindowsStartFresh(e: Envelope, c: Controller, s: Sample)
    requires c.envelope.target > 0
    ensures FreshWindow(Start(e))
    ensures Completes(c, s) ==> FreshWindow(Observe(c, s).0)
  {
    hide Classify, ReducedTarget, RaisedTarget, ScaledVbv;
  }

  /** Samples of one window: after all but the last the window is still open. */
  lemma {:induction false} WindowAggregates(c: Controller, samples: seq<Sample>)
    requires FreshWindow(c) && Ordered(c.envelope)
    requires SumLost(samples) < 0x1_0000_0000
    requires SumElapsed(samples) < 2000
    ensures var (b, ws) := Run(c, samples); ws == [] && Aggregates(b, samples) && b.envelope == c.envelope
    decreases |samples|
  {
    if samples == [] {
    } else {
      var n := |samples| - 1;
      var init, last := samples[..n], samples[n];
      assert samples == init + [last];
      WindowAggregates(c, init);
      var b := Run(c, init).0;
      AccumulateAggregates(b, init, last);
      hide Aggregates, SumLost, SumElapsed;
    }
  }

  /** A whole window is judged by the loss sum and the worst sample it contains. */
  lemma WindowJudgedBySamples(c: Controller, samples: seq<Sample>, last: Sample)
    requires FreshWindow(c) && Ordered(c.envelope)
    requires SumElapsed(samples) < 2000 <= SumElapsed(samples + [last])
    requires SumLost(samples + [last]) < 0x1_0000_0000
    ensures var all, target := samples + [last], c.envelope.target;
            var ws := Run(c, all).1;
            && |ws| == 1 && ws[0].before == target
            && (ws[0].pressure == Persistent <==>
                  || SumLost(all) >= 4
                  || exists s :: s in all && (s.rttMs >= 200 || s.queueFrames >= 2 || s.outqBytes >= target * 125))
            && (ws[0].pressure == PressureFree <==>
                  && SumLost(all) == 0
                  && forall s | s in all :: s.rttMs < 120 && s.queueFrames < 2 && s.outqBytes < target * 125 / 2)
  {
    var all := samples + [last];
    assert all[..|samples|] == samples && all[|samples|] == last;
    WindowAggregates(c, samples);
    var b := Run(c, samples).0;
    AccumulateAggregates(b, samples, last);
    ClassificationMeaning(Accumulate(b, last), all);
    hide Classify, SumElapsed, SumLost, Observe;
    assert Completes(b, last);
    assert Run(c, all).1 == [] + [WindowOf(b, last)];
  }

  // ----- The bound on the maximum is needed -----

  const CLEAN_WINDOW := Sample(2000, 0, 0, 0, 0, false)

  /** At the first target whose raise wraps, two clean windows bring the target down to zero. */
  lemma RaiseWrapsToZero(maximum: Uint32, minimum: Uint32, framerate: Uint32, samples: seq<Sample>)
    requires maximum > SAFE_MAXIMUM && minimum <= SAFE_MAXIMUM && samples == [CLEAN_WINDOW, CLEAN_WINDOW]
    ensures Run(Start(MakeEnvelope(minimum, SAFE_MAXIMUM, maximum, framerate)), samples).0.envelope.target == 0
  {
    var c := Start(MakeEnvelope(minimum, SAFE_MAXIMUM, maximum, framerate));
    MakeEnvelopeOrdered(minimum, SAFE_MAXIMUM, maximum, framerate);
    hide MakeEnvelope, Ordered;
    var c1 := Observe(c, CLEAN_WINDOW).0;
    assert c1.cleanWindows == 1 && c1.cooldownWindows == 0 && c1.envelope == c.envelope && FreshWindow(c1);
    var c2 := Observe(c1, CLEAN_WINDOW).0;
    assert RaisedTarget(c.envelope) == 0;
    hide Observe;
    assert samples[..1] == [CLEAN_WINDOW] && samples[..1][..0] == [];
    assert Run(c, []).0 == c && Run(c, samples[..1]).0 == c1;
  }

  /**
    The envelope stays ordered in every history of every stream with this maximum if and only
    if no raise below the maximum can wrap.
   */
  lemma OrderedExactly(maximum: Uint32)
    ensures (forall minimum: Uint32, initial: Uint32, framerate: Uint32, samples ::
               Ordered(Run(Start(MakeEnvelope(minimum, initial, maximum, framerate)), samples).0.envelope))
       <==> maximum <= SAFE_MAXIMUM
  {
    hide Run, MakeEnvelope;
    if maximum <= SAFE_MAXIMUM {
      forall minimum: Uint32, initial: Uint32, framerate: Uint32, samples
        ensures Ordered(Run(Start(MakeEnvelope(minimum, initial, maximum, framerate)), samples).0.envelope)
      {
        BoundedAndNoHunting(minimum, initial, maximum, framerate, samples);
      }
    } else {
      var samples := [CLEAN_WINDOW, CLEAN_WINDOW];
      RaiseWrapsToZero(maximum, 1, 60, samples);
      assert !Ordered(Run(Start(MakeEnvelope(1, SAFE_MAXIMUM, maximum, 60)), samples).0.envelope);
    }
  }

  // ----- Progress -----

  predicate AllJudged(ws: seq<Window>, p: Pressure) {
    forall i | 0 <= i < |ws| :: ws[i].pressure == p
  }

  /** One more sample of a history. */
  lemma RunStep(c: Controller, samples: seq<Sample>, n: nat)
    requires n == |samples| - 1 && c.envelope.target > 0 && Run(c, samples[..n]).0.envelope.target > 0
    ensures var (b, ws) := Run(c, samples[..n]);
            Run(c, samples) == (Observe(b, samples[n]).0, if Completes(b, samples[n]) then ws + [WindowOf(b, samples[n])] else ws)
  {
  }

  /** A sample judges the window when it completes it, and changes nothing that a judgement reads otherwise. */
  lemma ObserveStep(c: Controller, s: Sample)
    requires c.envelope.target > 0
    ensures if Completes(c, s) then
              Observe(c, s).0 == Judge(ResetWindow(Accumulate(c, s)), WindowOf(c, s).pressure).0
            else Observe(c, s).0 == Accumulate(c, s)
  {
    hide Judge, Classify;
  }

  /**
    While every window of a history is persistently congested, each one lowers the target,
    until it is the minimum.
   */
  lemma {:induction false} CongestionReachesMinimum(c: Controller, samples: seq<Sample>)
    requires Ordered(c.envelope) && AllJudged(Run(c, samples).1, Persistent)
    ensures var (b, ws) := Run(c, samples);
            && Ordered(b.envelope) && b.envelope.minimum == c.envelope.minimum
            && (b.envelope.target == c.envelope.minimum || b.envelope.target + |ws| <= c.envelope.target)
            && (|ws| >= c.envelope.target - c.envelope.minimum ==> b.envelope.target == c.envelope.minimum)
    decreases |samples|
  {
    if samples == [] {
    } else {
      var n := |samples| - 1;
      var (b, ws) := Run(c, samples[..n]);
      PrefixJudged(c, samples, n, Persistent);
      CongestionReachesMinimum(c, samples[..n]);
      RunStep(c, samples, n);
      ObserveStep(b, samples[n]);
      hide Observe, Run, WindowOf, Ordered, Completes, Accumulate, Judge, AllJudged;
      CongestedSample(b, samples[n]);
      assert Completes(b, samples[n]) ==> Run(c, samples).1[|ws|] == WindowOf(b, samples[n]);
      assert Completes(b, samples[n]) ==> WindowOf(b, samples[n]).pressure == Persistent by {
        LastJudged(Run(c, samples).1, Persistent);
      }
    }
  }

  lemma LastJudged(ws: seq<Window>, p: Pressure)
    requires AllJudged(ws, p)
    ensures ws != [] ==> ws[|ws| - 1].pressure == p
  {
  }

  /** The windows of a prefix come first. */
  lemma PrefixJudged(c: Controller, samples: seq<Sample>, n: nat, p: Pressure)
    requires n == |samples| - 1 && AllJudged(Run(c, samples).1, p)
    ensures AllJudged(Run(c, samples[..n]).1, p)
  {
    hide Observe, Completes, WindowOf;
    var ws, before := Run(c, samples).1, Run(c, samples[..n]).1;
    assert c.envelope.target == 0 ==> before == [];
    assert before <= ws;
  }

  lemma CongestedSample(c: Controller, s: Sample)
    requires Ordered(c.envelope)
    ensures var b := Observe(c, s).0;
            if Completes(c, s) && WindowOf(c, s).pressure == Persistent then
              && Ordered(b.envelope) && b.envelope.minimum == c.envelope.minimum
              && (b.envelope.target == c.envelope.minimum || b.envelope.target + 1 <= c.envelope.target)
              && b.envelope.target <= c.envelope.target
            else Completes(c, s) || b.envelope == c.envelope
  {
    ObserveStep(c, s);
    var r := ResetWindow(Accumulate(c, s));
    assert r.envelope == c.envelope;
    hide Observe, Completes, WindowOf, Accumulate, Classify;
    JudgeOrdered(r, Persistent);
    CutBounds(c.envelope, 20);
    hide ReducedTarget, ScaledVbv, Ordered, Percent;
  }

  /** Windows that unbroken clean input still needs to reach the maximum, at most. */
  function Distance(c: Controller): int {
    c.cooldownWindows + 2 * (c.envelope.maximum - c.envelope.target)
    - (if c.cooldownWindows == 0 && c.cleanWindows >= 1 then 1 else 0)
  }

  lemma CleanWindowProgress(c: Controller)
    requires Safe(c.envelope) && Patient(c)
    ensures var c' := Judge(c, PressureFree).0;
            if c.envelope.target == c.envelope.maximum then c'.envelope.target == c.envelope.maximum
            else Distance(c') < Distance(c) && Patient(c')
  {
    hide RaisedTarget, ScaledVbv, Percent;
    if c.envelope.target < c.envelope.maximum {
      RaiseBounds(c.envelope);
    }
  }

  /** No burst event installs a cooldown. */
  predicate NoBursts(samples: seq<Sample>) {
    forall s | s in samples :: !s.idrOrReconnect
  }

  /**
    While every window of a history is free of pressure and no burst event intervenes, the
    windows left until the maximum is reached run out: two per raise, after the cooldown.
   */
  lemma {:induction false} CleanInputReachesMaximum(c: Controller, samples: seq<Sample>)
    requires Safe(c.envelope) && Patient(c)
    requires AllJudged(Run(c, samples).1, PressureFree) && NoBursts(samples)
    ensures var (b, ws) := Run(c, samples);
            && Safe(b.envelope) && b.envelope.maximum == c.envelope.maximum
            && (b.envelope.target == c.envelope.maximum || (Patient(b) && Distance(b) + |ws| <= Distance(c)))
            && (|ws| >= c.cooldownWindows + 2 * (c.envelope.maximum - c.envelope.target) ==>
                  b.envelope.target == c.envelope.maximum)
    decreases |samples|
  {
    if samples == [] {
    } else {
      var n := |samples| - 1;
      var (b, ws) := Run(c, samples[..n]);
      assert samples[n] in samples && forall s | s in samples[..n] :: s in samples;
      PrefixJudged(c, samples, n, PressureFree);
      CleanInputReachesMaximum(c, samples[..n]);
      RunStep(c, samples, n);
      hide Observe, Run, WindowOf, Ordered, Completes, Accumulate, Judge, AllJudged, Patient;
      CleanSample(b, samples[n]);
      LastJudged(Run(c, samples).1, PressureFree);
    }
  }

  lemma CleanSample(c: Controller, s: Sample)
    requires Safe(c.envelope) && (c.envelope.target == c.envelope.maximum || Patient(c)) && !s.idrOrReconnect
    ensures var b := Observe(c, s).0;
            if Completes(c, s) && WindowOf(c, s).pressure == PressureFree then
              && Safe(b.envelope) && b.envelope.maximum == c.envelope.maximum
              && (if c.envelope.target == c.envelope.maximum then b.envelope.target == c.envelope.maximum
                  else Distance(b) < Distance(c) && Patient(b))
            else Completes(c, s) || (b.envelope == c.envelope && Distance(b) == Distance(c) && (Patient(b) <==> Patient(c)))
  {
    ObserveStep(c, s);
    var r := ResetWindow(Accumulate(c, s));
    assert r.envelope == c.envelope && r.cooldownWindows == c.cooldownWindows && r.cleanWindows == c.cleanWindows;
    hide Observe, Completes, WindowOf, Classify, Judge, Ordered;
    JudgeOrdered(r, PressureFree);
    assert Patient(r) by { assert c.envelope.target == c.envelope.maximum || Patient(c); }
    CleanWindowProgress(r);
  }
}
