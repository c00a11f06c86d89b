/**
  The rational duplicate-frame pacer (src/frame_pacing.cpp:12-79). Times are nanoseconds on
  the steady clock.
 */
module FramePacing {
  import opened Arithmetic

  const NANOSECONDS_PER_SECOND := 1_000_000_000
  const INT64_MAX := 0x7FFF_FFFF_FFFF_FFFF

  type Uint32 = x: int | 0 <= x < 0x1_0000_0000

  datatype Rate = Rate(numerator: Uint32, denominator: Uint32) {
    predicate Valid() {
      numerator != 0 && denominator != 0
    }

    /** The period is Ticks / numerator nanoseconds. */
    function Ticks(): nat {
      NANOSECONDS_PER_SECOND * denominator
    }
  }

  datatype Pacer = Pacer(rate: Rate, epoch: int, nextIndex: nat)

  datatype PollResult = NotDue | Due(deadlineIndex: nat, missedDeadlines: nat, scheduledTime: int)

  function ClampNanoseconds(value: nat): nat {
    if value < INT64_MAX then value else INT64_MAX
  }

  /** The unclamped offset of a deadline from the epoch. */
  function Offset(rate: Rate, index: nat): nat
    requires rate.Valid()
  {
    index * rate.Ticks() / rate.numerator
  }

  function DeadlineFor(p: Pacer, index: nat): int
    requires p.rate.Valid()
  {
    p.epoch + ClampNanoseconds(Offset(p.rate, index))
  }

  /** `time_point {}` stands for zero. */
  function NextDeadline(p: Pacer): int {
    if !p.rate.Valid() then 0 else DeadlineFor(p, p.nextIndex)
  }

  /** Deadlines elapsed by `elapsed`, before the cast to 64 bits. */
  function Elapsed(rate: Rate, elapsed: nat): nat
    requires rate.Valid()
  {
    elapsed * rate.numerator / rate.Ticks()
  }

  function Poll(p: Pacer, now: int): (Pacer, PollResult) {
    if !p.rate.Valid() || now < NextDeadline(p) then (p, NotDue)
    else
      var selected := Max(p.nextIndex, Elapsed(p.rate, now - p.epoch) % TWO_TO_64);
      (p.(nextIndex := (selected + 1) % TWO_TO_64),
       Due(selected, selected - p.nextIndex, DeadlineFor(p, selected)))
  }

  function Reset(rate: Rate, epoch: int): Pacer {
    Pacer(rate, epoch, 1)
  }

  class DeadlinePacer {
    const rate: Rate
    var epoch: int
    var nextIndex: nat

    ghost function Value(): Pacer
      reads this
    {
      Pacer(rate, epoch, nextIndex)
    }

    constructor (rate: Rate)
      ensures Value() == Reset(rate, 0)
    {
      this.rate := rate;
      epoch := 0;
      nextIndex := 1;
    }

    method Restart(epoch: int)
      modifies this
      ensures Value() == Reset(rate, epoch)
    {
      this.epoch := epoch;
      nextIndex := 1;
    }

    /** `record_immediate_output`: the next duplicate is one full period away. */
    method RecordImmediateOutput(outputTime: int)
      modifies this
      ensures Value() == Reset(rate, outputTime)
    {
      Restart(outputTime);
    }

    method PollNow(now: int) returns (r: PollResult)
      modifies this`nextIndex
      ensures Value() == Poll(old(Value()), now).0 && r == Poll(old(Value()), now).1
    {
      var deadline := if rate.Valid() then DeadlineFor(Pacer(rate, epoch, nextIndex), nextIndex) else 0;
      if !rate.Valid() || now < deadline {
        return NotDue;
      }
      var elapsed := now - epoch;
      var elapsedDeadlines := Elapsed(rate, elapsed) % TWO_TO_64;
      var selected := Max(nextIndex, elapsedDeadlines);
      var missed := selected - nextIndex;
      nextIndex := (selected + 1) % TWO_TO_64;
      return Due(selected, missed, DeadlineFor(Pacer(rate, epoch, nextIndex), selected));
    }
  }

  // ----- The two floor divisions -----

  /** A deadline is at most `e` exactly when its exact time is less than `e + 1`. */
  lemma OffsetAtMost(rate: Rate, index: nat, e: nat)
    requires rate.Valid()
    ensures Offset(rate, index) <= e <==> index * rate.Ticks() < (e + 1) * rate.numerator
  {
    FloorAtMost(index * rate.Ticks(), rate.numerator, e);
  }

  /** `Elapsed` counts the deadlines whose exact time is at most `e`. */
  lemma ElapsedCounts(rate: Rate, e: nat, index: nat)
    requires rate.Valid()
    ensures index <= Elapsed(rate, e) <==> index * rate.Ticks() <= e * rate.numerator
  {
    FloorAtLeast(e * rate.numerator, rate.Ticks(), index);
  }

  /** The 128-bit products of `poll` and `deadline_for` cannot overflow. */
  lemma ProductsFit(rate: Rate, index: nat, elapsed: nat)
    requires index < TWO_TO_64 && elapsed <= INT64_MAX
    ensures index * NANOSECONDS_PER_SECOND * rate.denominator < 0x8000_0000_0000_0000_0000_0000_0000_0000
    ensures elapsed * rate.numerator < 0x8000_0000_0000_0000_0000_0000_0000_0000
    ensures rate.Ticks() < TWO_TO_64
  {
    var a := index * NANOSECONDS_PER_SECOND;
    assert a <= (TWO_TO_64 - 1) * NANOSECONDS_PER_SECOND;
    MulAtMost(a, (TWO_TO_64 - 1) * NANOSECONDS_PER_SECOND, rate.denominator, 0xFFFF_FFFF);
    MulAtMost(elapsed, INT64_MAX, rate.numerator, 0xFFFF_FFFF);
  }

  // ----- One poll -----

  /** The poll works below the clamp and below the 64-bit wrap. */
  predicate InRange(p: Pacer, now: int) {
    p.rate.Valid() && p.epoch <= now ==>
      var selected := Max(p.nextIndex, Elapsed(p.rate, now - p.epoch));
      selected + 1 < TWO_TO_64 && Offset(p.rate, selected + 1) < INT64_MAX
  }

  lemma OffsetMonotone(rate: Rate, i: nat, j: nat)
    requires rate.Valid() && i <= j
    ensures Offset(rate, i) <= Offset(rate, j)
  {
    OffsetAtMost(rate, j, Offset(rate, j));
    OffsetAtMost(rate, i, Offset(rate, j));
    assert i * rate.Ticks() <= j * rate.Ticks();
  }

  /**
    A due poll selects a deadline that has passed, and the next one is not before now; a
    poll that is not due changes nothing and the next deadline is still ahead.
   */
  lemma PollOnSchedule(p: Pacer, now: int)
    requires p.rate.Valid() && InRange(p, now)
    ensures var (p', r) := Poll(p, now);
            && now <= NextDeadline(p')
            && (r.Due? <==> NextDeadline(p) <= now)
            && (r.NotDue? ==> p' == p)
            && (r.Due? ==>
                  && r.scheduledTime == p.epoch + Offset(p.rate, r.deadlineIndex) <= now
                  && p.nextIndex <= r.deadlineIndex
                  && p'.nextIndex == r.deadlineIndex + 1 == p.nextIndex + r.missedDeadlines + 1
                  && p' == p.(nextIndex := p'.nextIndex))
  {
    hide Poll, Offset, Elapsed, InRange, NextDeadline;
    NotDueBefore(p, now);
    if NextDeadline(p) <= now {
      var selected := DuePoll(p, now);
      DueOnSchedule(p, now, selected);
    }
  }

  lemma NotDueBefore(p: Pacer, now: int)
    requires p.rate.Valid()
    ensures Poll(p, now).1.Due? <==> NextDeadline(p) <= now
    ensures Poll(p, now).1.NotDue? ==> Poll(p, now).0 == p && now < NextDeadline(p)
  {
    hide Offset, Elapsed;
  }

  /** What a due poll in range answers, without clamp and wrap. */
  lemma DuePoll(p: Pacer, now: int) returns (selected: nat)
    requires p.rate.Valid() && InRange(p, now) && NextDeadline(p) <= now
    ensures p.epoch <= now && selected == Max(p.nextIndex, Elapsed(p.rate, now - p.epoch))
    ensures Offset(p.rate, selected) < INT64_MAX && Offset(p.rate, selected + 1) < INT64_MAX
    ensures p.epoch + Offset(p.rate, p.nextIndex) <= now
    ensures Poll(p, now) ==
              (p.(nextIndex := selected + 1), Due(selected, selected - p.nextIndex, p.epoch + Offset(p.rate, selected)))
  {
    var k := Elapsed(p.rate, now - p.epoch);
    selected := Max(p.nextIndex, k);
    OffsetMonotone(p.rate, selected, selected + 1);
    OffsetMonotone(p.rate, p.nextIndex, selected);
    hide Offset, Elapsed;
    SmallRemainder(k, TWO_TO_64);
    SmallRemainder(selected + 1, TWO_TO_64);
  }

  lemma DueOnSchedule(p: Pacer, now: int, selected: nat)
    requires p.rate.Valid() && p.epoch <= now && p.epoch + Offset(p.rate, p.nextIndex) <= now
    requires selected == Max(p.nextIndex, Elapsed(p.rate, now - p.epoch)) && Offset(p.rate, selected + 1) < INT64_MAX
    ensures p.epoch + Offset(p.rate, selected) <= now <= NextDeadline(p.(nextIndex := selected + 1))
  {
    hide Offset, Elapsed;
    SelectedOnSchedule(p.rate, p.nextIndex, Elapsed(p.rate, now - p.epoch), selected, now - p.epoch);
  }

  /** The selected deadline has passed at `e`, and the next one has not. */
  lemma SelectedOnSchedule(rate: Rate, next: nat, k: nat, selected: nat, e: nat)
    requires rate.Valid() && k == Elapsed(rate, e) && selected == Max(next, k) && Offset(rate, next) <= e
    ensures Offset(rate, selected) <= e <= Offset(rate, selected + 1)
  {
    hide Offset, Elapsed;
    ElapsedCounts(rate, e, k);
    ElapsedCounts(rate, e, selected + 1);
    OffsetAtMost(rate, k, e);
    MulAtMost(e, e + 1, rate.numerator, rate.numerator);
    NextNotBefore(rate, selected + 1, e);
  }

  lemma NextNotBefore(rate: Rate, index: nat, e: nat)
    requires rate.Valid() && index * rate.Ticks() > e * rate.numerator
    ensures Offset(rate, index) >= e
  {
    if e > 0 {
      OffsetAtMost(rate, index, e - 1);
    }
  }

  // ----- Whole runs -----

  /** Poll at each of the given times. */
  function Polls(p: Pacer, times: seq<int>): (Pacer, seq<PollResult>)
    decreases |times|
  {
    if times == [] then (p, [])
    else
      var (p', r) := Poll(p, times[0]);
      var (q, rs) := Polls(p', times[1..]);
      (q, [r] + rs)
  }

  predicate AllInRange(p: Pacer, times: seq<int>)
    decreases |times|
  {
    times == [] || (InRange(p, times[0]) && AllInRange(Poll(p, times[0]).0, times[1..]))
  }

  function Outputs(rs: seq<PollResult>): nat {
    if rs == [] then 0 else (if rs[0].Due? then 1 else 0) + Outputs(rs[1..])
  }

  function Missed(rs: seq<PollResult>): nat {
    if rs == [] then 0 else (if rs[0].Due? then rs[0].missedDeadlines else 0) + Missed(rs[1..])
  }

  /** Due results carry strictly increasing indices, none below `least`. */
  predicate Increasing(rs: seq<PollResult>, least: nat) {
    rs == [] ||
    if rs[0].NotDue? then Increasing(rs[1..], least)
    else rs[0].deadlineIndex >= least && Increasing(rs[1..], rs[0].deadlineIndex + 1)
  }

  /** Every deadline is either output or counted as missed, exactly once, and never early. */
  lemma {:induction false} EveryDeadlineAccountedFor(p: Pacer, times: seq<int>)
    requires p.rate.Valid() && AllInRange(p, times)
    ensures var (q, rs) := Polls(p, times);
            && |rs| == |times|
            && q.nextIndex == p.nextIndex + Outputs(rs) + Missed(rs)
            && Increasing(rs, p.nextIndex)
            && forall i | 0 <= i < |rs| && rs[i].Due? ::
                 rs[i].scheduledTime == p.epoch + Offset(p.rate, rs[i].deadlineIndex) <= times[i]
    decreases |times|
  {
    hide Poll, InRange, Offset, NextDeadline;
    if times == [] {
    } else {
      PollOnSchedule(p, times[0]);
      var (p', r) := Poll(p, times[0]);
      EveryDeadlineAccountedFor(p', times[1..]);
      var rs := Polls(p', times[1..]).1;
      assert ([r] + rs)[1..] == rs;
      assert forall i | 1 <= i < |times| :: times[i] == times[1..][i - 1];
    }
  }

  lemma ScheduleFromReset(rate: Rate, epoch: int, times: seq<int>)
    requires rate.Valid() && AllInRange(Reset(rate, epoch), times)
    ensures var (q, rs) := Polls(Reset(rate, epoch), times);
            && Outputs(rs) + Missed(rs) == q.nextIndex - 1 && Increasing(rs, 1)
            && |rs| == |times|
            && forall i | 0 <= i < |rs| && rs[i].Due? ::
                 rs[i].scheduledTime == epoch + Offset(rate, rs[i].deadlineIndex) <= times[i]
  {
    hide AllInRange, Polls, Offset;
    EveryDeadlineAccountedFor(Reset(rate, epoch), times);
  }

  /** After a reset the first deadline is one period after the given epoch, to the nanosecond below. */
  lemma FirstDeadline(rate: Rate, epoch: int)
    requires rate.Valid() && Offset(rate, 1) < INT64_MAX
    ensures var p := Reset(rate, epoch);
            var d := NextDeadline(p) - epoch;
            d * rate.numerator <= 1_000_000_000 * rate.denominator < (d + 1) * rate.numerator
  {
    DivBounds(rate.Ticks(), rate.numerator);
  }

  /** A rate without frames or without seconds is never due and changes nothing. */
  lemma InvalidRateIsNeverDue(p: Pacer, now: int)
    requires p.rate.numerator == 0 || p.rate.denominator == 0
    ensures Poll(p, now) == (p, NotDue) && NextDeadline(p) == 0
  {
  }

  /** Deadlines beyond 64-bit nanoseconds stay at the greatest offset that fits. */
  lemma DeadlineIsClamped(p: Pacer, index: nat)
    requires p.rate.Valid()
    ensures DeadlineFor(p, index) == p.epoch + (if Offset(p.rate, index) < 0x8000_0000_0000_0000 then Offset(p.rate, index) else 0x7FFF_FFFF_FFFF_FFFF)
  {
  }

  // ----- No drift, bounded rate -----

  /** The distance of any two deadlines is within one nanosecond of that many exact periods. */
  lemma NoDrift(rate: Rate, k: nat, m: nat)
    requires rate.Valid()
    ensures var d := Offset(rate, k + m) - Offset(rate, k);
            m * rate.Ticks() - rate.numerator < d * rate.numerator < m * rate.Ticks() + rate.numerator
  {
    assert (k + m) * rate.Ticks() == k * rate.Ticks() + m * rate.Ticks();
    FloorDifference(k * rate.Ticks(), m * rate.Ticks(), rate.numerator);
  }

  lemma FloorDifference(x: nat, y: nat, n: nat)
    requires n > 0
    ensures var d := (x + y) / n - x / n;
            y - n < d * n < y + n
  {
    var a, b := x / n, (x + y) / n;
    DivBounds(x, n);
    DivBounds(x + y, n);
    assert (b - a) * n == b * n - a * n;
    assert (b + 1) * n == b * n + n && (a + 1) * n == a * n + n;
  }

  /** The last deadline handed out lies at most `e` after the epoch. */
  predicate HandedOutBy(p: Pacer, e: nat)
    requires p.rate.Valid()
  {
    p.nextIndex >= 1 && (p.nextIndex - 1) * p.rate.Ticks() < (e + 1) * p.rate.numerator
  }

  lemma {:induction false} RateStaysBounded(p: Pacer, times: seq<int>, e: nat)
    requires p.rate.Valid() && AllInRange(p, times) && HandedOutBy(p, e)
    requires forall i | 0 <= i < |times| :: times[i] <= p.epoch + e
    ensures Polls(p, times).0.rate == p.rate && HandedOutBy(Polls(p, times).0, e)
    decreases |times|
  {
    hide Poll, InRange, Offset, NextDeadline;
    if times == [] {
    } else {
      PollOnSchedule(p, times[0]);
      var (p', r) := Poll(p, times[0]);
      if r.Due? {
        OffsetAtMost(p.rate, r.deadlineIndex, e);
      }
      assert forall i | 0 <= i < |times| - 1 :: times[1..][i] == times[i + 1];
      RateStaysBounded(p', times[1..], e);
    }
  }

  /** In `e` nanoseconds, outputs and missed deadlines together number less than (e + 1) periods' worth. */
  lemma NeverFasterThanRate(rate: Rate, epoch: int, times: seq<int>, e: nat)
    requires rate.Valid() && AllInRange(Reset(rate, epoch), times)
    requires forall i | 0 <= i < |times| :: times[i] <= epoch + e
    ensures var rs := Polls(Reset(rate, epoch), times).1;
            && (Outputs(rs) + Missed(rs)) * rate.Ticks() < (e + 1) * rate.numerator
            && Outputs(rs) * rate.Ticks() < (e + 1) * rate.numerator
  {
    hide AllInRange, Polls, Outputs, Missed;
    ScheduleFromReset(rate, epoch, times);
    RateStaysBounded(Reset(rate, epoch), times, e);
    var rs := Polls(Reset(rate, epoch), times).1;
    MulAtMost(Outputs(rs), Outputs(rs) + Missed(rs), rate.Ticks(), rate.Ticks());
  }
}
