/**
  The windowed bitrate controller (src/adaptive_bitrate.h:43-282). All fields are unsigned
  32-bit (the socket queue 64-bit); every operation that can wrap is written with its wrap.
 */
module AdaptiveBitrate {
  import opened Arithmetic

  type Uint32 = x: int | 0 <= x < 0x1_0000_0000
  type Uint64 = x: int | 0 <= x < 0x1_0000_0000_0000_0000

  function Wrap(x: int): Uint32 {
    x % 0x1_0000_0000
  }

  function Clamp(x: nat, low: nat, high: nat): nat
    requires low <= high
  {
    if x < low then low else if high < x then high else x
  }

  datatype Envelope = Envelope(
    minimum: Uint32, initial: Uint32, target: Uint32, maximum: Uint32, peak: Uint32, vbv: Uint32)

  function MakeEnvelope(minimum: Uint32, initial: Uint32, maximum: Uint32, framerate: Uint32): Envelope {
    var top: Uint32 := Max(maximum, 1);
    var bottom: Uint32 := Clamp(minimum, 1, top);
    var start: Uint32 := Clamp(initial, bottom, top);
    Envelope(bottom, start, start, top, top, Max(start / Max(framerate, 1), 1))
  }

  datatype Sample = Sample(
    elapsedMs: Uint32, lostPackets: Uint32, rttMs: Uint32, queueFrames: Uint32, outqBytes: Uint64, idrOrReconnect: bool)

  datatype CongestionState = Unknown | Clean | Warning | Congested | Recovering

  datatype Reason = Collecting | PersistentCongestion | IsolatedPressure | Cooldown | CleanHold | CleanRecovery

  datatype Decision = Decision(state: CongestionState, target: Uint32, changed: bool, reason: Reason)

  datatype Controller = Controller(
    envelope: Envelope,
    state: CongestionState,
    elapsedMs: Uint32,
    lostPackets: Uint32,
    maximumRtt: Uint32,
    maximumQueue: Uint32,
    maximumOutq: Uint64,
    cleanWindows: Uint32,
    cooldownWindows: Uint32)

  function Start(e: Envelope): Controller {
    Controller(e, Unknown, 0, 0, 0, 0, 0, 0, 0)
  }

  // ----- One observation -----

  /** The aggregates after one sample, before the window is judged. */
  function Accumulate(c: Controller, s: Sample): Controller {
    c.(elapsedMs := Wrap(c.elapsedMs + Min(s.elapsedMs, 2000)),
       lostPackets := Wrap(c.lostPackets + s.lostPackets),
       maximumRtt := Max(c.maximumRtt, s.rttMs),
       maximumQueue := Max(c.maximumQueue, s.queueFrames),
       maximumOutq := Max(c.maximumOutq, s.outqBytes),
       cooldownWindows := if s.idrOrReconnect then Max(c.cooldownWindows, 2) else c.cooldownWindows)
  }

  datatype Pressure = Persistent | Isolated | PressureFree

  function Classify(c: Controller): Pressure {
    var oneSecondBytes := c.envelope.target * 125;
    if c.lostPackets >= 4 || c.maximumRtt >= 200 || c.maximumQueue >= 2 || c.maximumOutq >= oneSecondBytes then Persistent
    else if c.lostPackets > 0 || c.maximumRtt >= 120 || c.maximumOutq >= oneSecondBytes / 2 then Isolated
    else PressureFree
  }

  function ResetWindow(c: Controller): Controller {
    c.(elapsedMs := 0, lostPackets := 0, maximumRtt := 0, maximumQueue := 0, maximumOutq := 0)
  }

  /** The buffer scaled with the target, in 64 bits and cut to 32. */
  function ScaledVbv(vbv: Uint32, target: Uint32, previous: Uint32): Uint32
    requires previous > 0
  {
    Max(Wrap(vbv * target / previous), 1)
  }

  function Retarget(e: Envelope, target: Uint32): Envelope
    requires e.target > 0
  {
    e.(target := target, peak := target, vbv := ScaledVbv(e.vbv, target, e.target))
  }

  function ReducedTarget(e: Envelope, percentage: nat): Uint32 {
    var reduction := Max(Wrap(e.target * percentage) / 100, 1);
    Max(e.minimum, Wrap(e.target - reduction))
  }

  function RaisedTarget(e: Envelope): Uint32 {
    Min(e.maximum, Wrap(e.target + Max(e.target / 20, 1)))
  }

  /** What happens at a window boundary, for a given classification. */
  function Judge(c: Controller, p: Pressure): (Controller, Decision)
    requires c.envelope.target > 0
  {
    var previous := c.envelope.target;
    match p
    case Persistent =>
      var e := Retarget(c.envelope, ReducedTarget(c.envelope, 20));
      (c.(envelope := e, state := Congested, cleanWindows := 0, cooldownWindows := 2),
       Decision(Congested, e.target, e.target != previous, PersistentCongestion))
    case Isolated =>
      var e := Retarget(c.envelope, ReducedTarget(c.envelope, 10));
      (c.(envelope := e, state := Warning, cleanWindows := 0, cooldownWindows := Max(c.cooldownWindows, 1)),
       Decision(Warning, e.target, e.target != previous, IsolatedPressure))
    case PressureFree =>
      if c.cooldownWindows > 0 then
        (c.(state := Recovering, cleanWindows := 0, cooldownWindows := c.cooldownWindows - 1),
         Decision(Recovering, previous, false, Cooldown))
      else
        var clean := Wrap(c.cleanWindows + 1);
        if clean < 2 || previous >= c.envelope.maximum then
          (c.(state := Clean, cleanWindows := clean), Decision(Clean, previous, false, CleanHold))
        else
          var e := Retarget(c.envelope, RaisedTarget(c.envelope));
          (c.(envelope := e, state := Clean, cleanWindows := 0),
           Decision(Clean, e.target, e.target != previous, CleanRecovery))
  }

  function Observe(c: Controller, s: Sample): (Controller, Decision)
    requires c.envelope.target > 0
  {
    var a := Accumulate(c, s);
    if a.elapsedMs < 2000 then (a, Decision(a.state, a.envelope.target, false, Collecting))
    else Judge(ResetWindow(a), Classify(a))
  }

  // ----- The class -----

  class BitrateController {
    var envelope: Envelope
    var state: CongestionState
    var elapsedMs: Uint32
    var lostPackets: Uint32
    var maximumRtt: Uint32
    var maximumQueue: Uint32
    var maximumOutq: Uint64
    var cleanWindows: Uint32
    var cooldownWindows: Uint32

    ghost function Value(): Controller
      reads this
    {
      Controller(envelope, state, elapsedMs, lostPackets, maximumRtt, maximumQueue, maximumOutq,
                 cleanWindows, cooldownWindows)
    }

    constructor (envelope: Envelope)
      ensures Value() == Start(envelope)
    {
      this.envelope := envelope;
      state := Unknown;
      elapsedMs, lostPackets, maximumRtt, maximumQueue, maximumOutq := 0, 0, 0, 0, 0;
      cleanWindows, cooldownWindows := 0, 0;
    }

    /** `reduce`: cut the target by a percentage while honoring the minimum. */
    method Reduce(percentage: nat) returns (changed: bool)
      requires envelope.target > 0
      modifies this`envelope
      ensures envelope == Retarget(old(envelope), ReducedTarget(old(envelope), percentage))
      ensures changed == (envelope.target != old(envelope).target)
    {
      var previous := envelope.target;
      var reduction := Max(Wrap(previous * percentage) / 100, 1);
      envelope := envelope.(target := Max(envelope.minimum, Wrap(previous - reduction)));
      envelope := envelope.(peak := envelope.target);
      envelope := envelope.(vbv := ScaledVbv(envelope.vbv, envelope.target, previous));
      changed := envelope.target != previous;
    }

    method ClearWindow()
      modifies this
      ensures Value() == ResetWindow(old(Value()))
    {
      elapsedMs, lostPackets, maximumRtt, maximumQueue, maximumOutq := 0, 0, 0, 0, 0;
    }

    method ObserveSample(s: Sample) returns (d: Decision)
      requires envelope.target > 0
      modifies this
      ensures Value() == Observe(old(Value()), s).0 && d == Observe(old(Value()), s).1
    {
      hide Classify, Retarget, ReducedTarget, RaisedTarget, Wrap;
      elapsedMs := Wrap(elapsedMs + Min(s.elapsedMs, 2000));
      lostPackets := Wrap(lostPackets + s.lostPackets);
      maximumRtt := Max(maximumRtt, s.rttMs);
      maximumQueue := Max(maximumQueue, s.queueFrames);
      maximumOutq := Max(maximumOutq, s.outqBytes);
      if s.idrOrReconnect {
        cooldownWindows := Max(cooldownWindows, 2);
      }
      if elapsedMs < 2000 {
        return Decision(state, envelope.target, false, Collecting);
      }
      var pressure := Classify(
        Controller(envelope, state, elapsedMs, lostPackets, maximumRtt, maximumQueue, maximumOutq,
                   cleanWindows, cooldownWindows));
      ClearWindow();
      if pressure.Persistent? {
        cleanWindows, cooldownWindows, state := 0, 2, Congested;
        var changed := Reduce(20);
        return Decision(Congested, envelope.target, changed, PersistentCongestion);
      }
      if pressure.Isolated? {
        cleanWindows, cooldownWindows, state := 0, Max(cooldownWindows, 1), Warning;
        var changed := Reduce(10);
        return Decision(Warning, envelope.target, changed, IsolatedPressure);
      }
      if cooldownWindows > 0 {
        cooldownWindows, cleanWindows, state := cooldownWindows - 1, 0, Recovering;
        return Decision(Recovering, envelope.target, false, Cooldown);
      }
      state := Clean;
      cleanWindows := Wrap(cleanWindows + 1);
      if cleanWindows < 2 || envelope.target >= envelope.maximum {
        return Decision(Clean, envelope.target, false, CleanHold);
      }
      cleanWindows := 0;
      var previous := envelope.target;
      envelope := Retarget(envelope, RaisedTarget(envelope));
      return Decision(Clean, envelope.target, envelope.target != previous, CleanRecovery);
    }
  }
}
