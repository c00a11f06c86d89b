/**
  Polls of the pacer at one instant (src/frame_pacing.cpp:42-78): how many can be due, for
  every rate.
 */
module PacingBursts {
  import opened Arithmetic
  import opened FramePacing

  /** The exact times of all deadlines are multiples of this many units of 1 / numerator nanoseconds. */
  function Unit(rate: Rate): nat
    requires rate.Valid()
  {
    Gcd(rate.numerator, rate.Ticks())
  }

  predicate AllAt(times: seq<int>, now: int) {
    forall i | 0 <= i < |times| :: times[i] == now
  }

  // ----- One poll at an instant already polled -----

  /** The exact time of the deadline is later than `e`, yet its floor is `e`. */
  predicate FloorTie(rate: Rate, index: nat, e: nat)
    requires rate.Valid()
  {
    Offset(rate, index) == e && index * rate.Ticks() > e * rate.numerator
  }

  lemma SameRate(p: Pacer, now: int)
    ensures Poll(p, now).0.rate == p.rate && Poll(p, now).0.epoch == p.epoch
  {
  }

  lemma DuePollSelects(p: Pacer, now: int)
    requires p.rate.Valid() && p.epoch <= now && InRange(p, now) && Poll(p, now).1.Due?
    ensures Poll(p, now).0.nextIndex == Max(p.nextIndex, Elapsed(p.rate, now - p.epoch)) + 1
  {
    hide Offset, Elapsed, Poll, InRange, NextDeadline;
    NotDueBefore(p, now);
    var selected := DuePoll(p, now);
  }

  /** After a due poll the exact time of the next deadline is still ahead. */
  lemma FirstPassesElapsed(p: Pacer, now: int)
    requires p.rate.Valid() && p.epoch <= now && InRange(p, now) && Poll(p, now).1.Due?
    ensures Poll(p, now).0.nextIndex * p.rate.Ticks() > (now - p.epoch) * p.rate.numerator
  {
    hide Poll, Offset, Elapsed, InRange, NextDeadline;
    DuePollSelects(p, now);
    ElapsedCounts(p.rate, now - p.epoch, Poll(p, now).0.nextIndex);
  }

  lemma SecondIsTie(p: Pacer, now: int)
    requires p.rate.Valid() && p.epoch <= now && InRange(p, now)
    requires p.nextIndex * p.rate.Ticks() > (now - p.epoch) * p.rate.numerator
    ensures Poll(p, now).1.Due? <==> FloorTie(p.rate, p.nextIndex, now - p.epoch)
  {
    NextNotBefore(p.rate, p.nextIndex, now - p.epoch);
    OffsetMonotone(p.rate, p.nextIndex, Max(p.nextIndex, Elapsed(p.rate, now - p.epoch)) + 1);
    hide Offset, Elapsed;
  }

  /** Past the elapsed deadlines a due poll hands out the very next one and misses nothing. */
  lemma SecondSelects(p: Pacer, now: int)
    requires p.rate.Valid() && p.epoch <= now && InRange(p, now) && Poll(p, now).1.Due?
    requires p.nextIndex * p.rate.Ticks() > (now - p.epoch) * p.rate.numerator
    ensures Poll(p, now).1.deadlineIndex == p.nextIndex && Poll(p, now).0 == p.(nextIndex := p.nextIndex + 1)
  {
    PollOnSchedule(p, now);
    ElapsedCounts(p.rate, now - p.epoch, p.nextIndex);
    hide Offset, InRange, NextDeadline;
  }

  lemma OneMore(p: Pacer)
    ensures (p.nextIndex + 1) * p.rate.Ticks() == p.nextIndex * p.rate.Ticks() + p.rate.Ticks()
  {
  }

  /** A deadline past `e` is past it by at least one unit. */
  lemma PastByUnit(rate: Rate, index: nat, e: nat)
    requires rate.Valid() && index * rate.Ticks() > e * rate.numerator
    ensures index * rate.Ticks() >= e * rate.numerator + Unit(rate)
  {
    var g := Unit(rate);
    var n, t := GcdFactors(rate.numerator, rate.Ticks());
    Regroup(index, t, g);
    Regroup(e, n, g);
    MultiplesApart(index * t, e * n, g);
  }

  lemma Regroup(a: nat, b: nat, c: nat)
    ensures a * (b * c) == a * b * c
  {
  }

  // ----- At most so many -----

  lemma OutputsOfFirst(p: Pacer, times: seq<int>)
    requires times != []
    ensures Outputs(Polls(p, times).1)
         == (if Poll(p, times[0]).1.Due? then 1 else 0) + Outputs(Polls(Poll(p, times[0]).0, times[1..]).1)
  {
    hide Poll;
    var (p', r) := Poll(p, times[0]);
    var rs := Polls(p', times[1..]).1;
    assert ([r] + rs)[1..] == rs;
  }

  /** A poll that is not due at some instant stays so at that instant. */
  lemma {:induction false} NotDueStays(p: Pacer, now: int, times: seq<int>)
    requires Poll(p, now).1.NotDue? && AllAt(times, now)
    ensures Outputs(Polls(p, times).1) == 0
    decreases |times|
  {
    if times == [] {
    } else {
      assert Poll(p, now).0 == p;
      OutputsOfFirst(p, times);
      hide Poll;
      NotDueStays(p, now, times[1..]);
    }
  }

  /** Outputs past the elapsed deadlines: the exact time of the last one is still below the next nanosecond. */
  lemma {:induction false} OutputsFit(p: Pacer, now: int, times: seq<int>)
    requires p.rate.Valid() && p.epoch <= now && AllInRange(p, times) && AllAt(times, now)
    requires p.nextIndex * p.rate.Ticks() > (now - p.epoch) * p.rate.numerator
    ensures var n := Outputs(Polls(p, times).1);
            n > 0 ==> (p.nextIndex + n - 1) * p.rate.Ticks() < (now - p.epoch + 1) * p.rate.numerator
    decreases |times|
  {
    hide Poll, InRange, Offset, Polls, Outputs;
    if times == [] {
      NoOutputs(p);
    } else if Poll(p, now).1.NotDue? {
      NotDueStays(p, now, times);
    } else {
      SecondSelects(p, now);
      SecondIsTie(p, now);
      OffsetAtMost(p.rate, p.nextIndex, now - p.epoch);
      OneMore(p);
      OutputsOfFirst(p, times);
      OutputsFit(Poll(p, now).0, now, times[1..]);
    }
  }

  lemma NoOutputs(p: Pacer)
    ensures Outputs(Polls(p, []).1) == 0
  {
  }

  /** `most` periods and a unit last at least a nanosecond: no more outputs at one instant than that. */
  lemma NoBursts(p: Pacer, now: int, times: seq<int>, most: nat)
    requires p.rate.Valid() && AllInRange(p, times) && AllAt(times, now)
    requires most >= 1 && p.rate.numerator <= (most - 1) * p.rate.Ticks() + Unit(p.rate)
    ensures Outputs(Polls(p, times).1) <= most
  {
    hide Poll, InRange, Offset, Polls, Outputs, Unit;
    if times == [] {
      NoOutputs(p);
    } else if Poll(p, now).1.NotDue? {
      NotDueStays(p, now, times);
    } else {
      EpochPassed(p, now);
      var e := now - p.epoch;
      var p1 := Poll(p, now).0;
      SameRate(p, now);
      FirstPassesElapsed(p, now);
      OutputsOfFirst(p, times);
      OutputsFit(p1, now, times[1..]);
      PastByUnit(p.rate, p1.nextIndex, e);
      var n := Outputs(Polls(p1, times[1..]).1);
      if n >= most {
        LastTooLate(p.rate, p1.nextIndex, n, most, e);
      }
    }
  }

  lemma EpochPassed(p: Pacer, now: int)
    requires p.rate.Valid() && Poll(p, now).1.Due?
    ensures p.epoch <= now
  {
  }

  lemma LastTooLate(rate: Rate, index: nat, n: nat, most: nat, e: nat)
    requires rate.Valid() && n >= most >= 1 && index * rate.Ticks() >= e * rate.numerator + Unit(rate)
    requires rate.numerator <= (most - 1) * rate.Ticks() + Unit(rate)
    ensures (index + n - 1) * rate.Ticks() >= (e + 1) * rate.numerator
  {
    hide Unit;
    MulAtMost(most - 1, n - 1, rate.Ticks(), rate.Ticks());
    assert (index + (n - 1)) * rate.Ticks() == index * rate.Ticks() + (n - 1) * rate.Ticks();
    assert (e + 1) * rate.numerator == e * rate.numerator + rate.numerator;
  }

  /**
    Where a period and a unit last at least a nanosecond, a poll that is due again at the
    same instant is due on a floor tie and misses nothing, and the poll after that is not due.
   */
  lemma AtMostTwoAtOnce(p: Pacer, now: int)
    requires p.rate.Valid() && p.rate.numerator <= p.rate.Ticks() + Unit(p.rate)
    requires AllInRange(p, [now, now, now])
    requires Poll(p, now).1.Due?
    ensures var (p1, r1) := Poll(p, now);
            var (p2, r2) := Poll(p1, now);
            && p.epoch <= now
            && (r2.Due? <==> FloorTie(p.rate, p1.nextIndex, now - p.epoch))
            && (r2.Due? ==> r2.missedDeadlines == 0 && r2.scheduledTime == now && Poll(p2, now).1.NotDue?)
  {
    EpochPassed(p, now);
    var (p1, r1) := Poll(p, now);
    var (p2, r2) := Poll(p1, now);
    ThreeInRange(p, now);
    FirstPassesElapsed(p, now);
    hide Offset, InRange, AllInRange, Unit;
    SecondIsTie(p1, now);
    if r2.Due? {
      PollOnSchedule(p1, now);
      SecondSelects(p1, now);
      ThirdNotDue(p, now);
    }
  }

  lemma ThirdNotDue(p: Pacer, now: int)
    requires p.rate.Valid() && p.rate.numerator <= p.rate.Ticks() + Unit(p.rate)
    requires AllInRange(p, [now, now, now])
    requires var p1 := Poll(p, now).0; Poll(p, now).1.Due? && Poll(p1, now).1.Due?
    ensures Poll(Poll(Poll(p, now).0, now).0, now).1.NotDue?
  {
    hide Poll, AllInRange, Unit;
    var times := [now, now, now];
    NoBursts(p, now, times, 2);
    var p1 := Poll(p, now).0;
    var p2 := Poll(p1, now).0;
    assert times[1..] == [now, now] && [now, now][1..] == [now];
    OutputsOfFirst(p, times);
    OutputsOfFirst(p1, [now, now]);
    OutputsOfFirst(p2, [now]);
  }

  lemma ThreeInRange(p: Pacer, now: int)
    requires AllInRange(p, [now, now, now])
    ensures InRange(p, now) && InRange(Poll(p, now).0, now) && InRange(Poll(Poll(p, now).0, now).0, now)
  {
    hide Poll, InRange;
    assert [now, now, now][1..] == [now, now] && [now, now][1..] == [now];
    var p1 := Poll(p, now).0;
    assert AllInRange(p1, [now, now]);
    assert AllInRange(Poll(p1, now).0, [now]);
  }

  // ----- No fewer -----

  /** Some deadline misses a whole nanosecond by exactly one unit. */
  lemma TightDeadline(rate: Rate) returns (i: nat, e: nat)
    requires rate.Valid()
    ensures i * rate.Ticks() == e * rate.numerator + Unit(rate) && 2 <= i <= rate.numerator + 1
  {
    var n, t := rate.numerator, rate.Ticks();
    var y, x := Bezout(n, t);
    var q := (x - 2) / n;
    i := 2 + (x - 2) % n;
    assert i == x + (-q) * n;
    TightBy(n, t, x, y, -q, Unit(rate));
    var f := -q * t - y;
    UnitAtMost(rate);
    MulAtMost(2, i, t, t);
    PositiveFactor(f, n);
    e := f;
  }

  lemma PositiveFactor(f: int, n: nat)
    requires f * n > 0
    ensures f > 0
  {
  }

  lemma TightBy(n: nat, t: nat, x: int, y: int, k: int, g: nat)
    requires y * n + x * t == g
    ensures (x + k * n) * t == (k * t - y) * n + g
  {
    assert (x + k * n) * t == x * t + k * n * t;
    assert (k * t - y) * n == k * t * n - y * n;
    assert k * n * t == k * t * n;
  }

  lemma UnitAtMost(rate: Rate)
    requires rate.Valid()
    ensures Unit(rate) <= rate.Ticks()
  {
    var x, y := GcdFactors(rate.numerator, rate.Ticks());
    if y >= 1 {
      MulAtMost(1, y, Unit(rate), Unit(rate));
    }
  }

  /** Consecutive deadlines from `index` on are all due at `e`, and no poll misses one. */
  lemma {:induction false} BurstFrom(p: Pacer, now: int, times: seq<int>)
    requires p.rate.Valid() && p.epoch <= now && AllAt(times, now)
    requires p.nextIndex * p.rate.Ticks() > (now - p.epoch) * p.rate.numerator
    requires times != [] ==> (p.nextIndex + |times| - 1) * p.rate.Ticks() < (now - p.epoch + 1) * p.rate.numerator
    requires SmallOffset(p.rate, p.nextIndex + |times|)
    ensures AllInRange(p, times) && Outputs(Polls(p, times).1) == |times|
    decreases |times|
  {
    hide Poll, InRange, Offset, Polls, Outputs, SmallOffset;
    if times == [] {
      NoOutputs(p);
    } else {
      StaysSmall(p.rate, p.nextIndex + 1, p.nextIndex + |times|);
      StaysDue(p.rate, p.nextIndex, p.nextIndex + |times| - 1, now - p.epoch);
      NextInRange(p, now);
      SecondSelects(p, now);
      OneMore(p);
      OutputsOfFirst(p, times);
      BurstFrom(Poll(p, now).0, now, times[1..]);
    }
  }

  predicate SmallOffset(rate: Rate, index: nat)
    requires rate.Valid()
  {
    index < TWO_TO_64 && Offset(rate, index) < INT64_MAX
  }

  lemma StaysSmall(rate: Rate, i: nat, j: nat)
    requires rate.Valid() && i <= j && SmallOffset(rate, j)
    ensures SmallOffset(rate, i)
  {
    OffsetMonotone(rate, i, j);
  }

  lemma StaysDue(rate: Rate, i: nat, j: nat, e: nat)
    requires i <= j && j * rate.Ticks() < (e + 1) * rate.numerator
    ensures i * rate.Ticks() < (e + 1) * rate.numerator
  {
    MulAtMost(i, j, rate.Ticks(), rate.Ticks());
  }

  /** The next deadline is due, in range. */
  lemma NextInRange(p: Pacer, now: int)
    requires p.rate.Valid() && p.epoch <= now && SmallOffset(p.rate, p.nextIndex + 1)
    requires p.nextIndex * p.rate.Ticks() > (now - p.epoch) * p.rate.numerator
    requires p.nextIndex * p.rate.Ticks() < (now - p.epoch + 1) * p.rate.numerator
    ensures InRange(p, now) && Poll(p, now).1.Due?
  {
    ElapsedCounts(p.rate, now - p.epoch, p.nextIndex);
    OffsetAtMost(p.rate, p.nextIndex, now - p.epoch);
    OffsetMonotone(p.rate, p.nextIndex, p.nextIndex + 1);
    hide Offset, Elapsed;
  }

  /** A rate for which `most` periods and a unit do not last a nanosecond yields one output more from a reset. */
  lemma BurstRun(rate: Rate, most: nat) returns (times: seq<int>, now: int)
    requires rate.Valid() && most >= 1 && rate.numerator > (most - 1) * rate.Ticks() + Unit(rate)
    ensures AllAt(times, now) && AllInRange(Reset(rate, 0), times)
    ensures |times| == most + 1 == Outputs(Polls(Reset(rate, 0), times).1)
  {
    hide Poll, Polls, InRange, AllInRange, Offset, Outputs, SmallOffset, Unit;
    var i, e := TightDeadline(rate);
    now := e;
    times := seq(most + 1, _ => e);
    EndsSmall(rate, i, most);
    TightRun(rate, i, e, most, times);
  }

  lemma TightRun(rate: Rate, i: nat, e: nat, most: nat, times: seq<int>)
    requires rate.Valid() && most >= 1 && rate.numerator > (most - 1) * rate.Ticks() + Unit(rate)
    requires i >= 2 && i * rate.Ticks() == e * rate.numerator + Unit(rate) && SmallOffset(rate, i + most)
    requires |times| == most + 1 && AllAt(times, e)
    ensures AllInRange(Reset(rate, 0), times) && Outputs(Polls(Reset(rate, 0), times).1) == most + 1
  {
    hide Poll, InRange, Offset, Polls, Outputs, SmallOffset, Unit;
    var p := Reset(rate, 0);
    StaysSmall(rate, i, i + most);
    FirstBurstPoll(rate, i, e);
    LastInTime(rate, i, e, most);
    BurstFrom(Poll(p, e).0, e, times[1..]);
    OutputsOfFirst(p, times);
  }

  lemma LastInTime(rate: Rate, i: nat, e: nat, most: nat)
    requires rate.Valid() && most >= 1 && rate.numerator > (most - 1) * rate.Ticks() + Unit(rate)
    requires i * rate.Ticks() == e * rate.numerator + Unit(rate)
    ensures e * rate.numerator < i * rate.Ticks()
    ensures (i + most - 1) * rate.Ticks() < (e + 1) * rate.numerator
  {
    assert (i + (most - 1)) * rate.Ticks() == i * rate.Ticks() + (most - 1) * rate.Ticks();
    assert (e + 1) * rate.numerator == e * rate.numerator + rate.numerator;
  }

  lemma EndsSmall(rate: Rate, i: nat, most: nat)
    requires rate.Valid() && most >= 1 && rate.numerator > (most - 1) * rate.Ticks() + Unit(rate)
    requires i <= rate.numerator + 1
    ensures SmallOffset(rate, i + most)
  {
    var t: nat, n: nat := rate.Ticks(), rate.numerator;
    MulAtMost(2, n, t, t);
    MulAtMost(most - 1, most - 1, 1, t);
    hide Unit, Offset;
    LastBelow(i, n, t, most);
    OffsetAtMost(rate, i + most, 2 * t);
  }

  lemma LastBelow(i: nat, n: nat, t: nat, most: nat)
    requires most >= 1 && i <= n + 1 && (most - 1) * t < n && 2 * t <= n * t
    ensures (i + most) * t < (2 * t + 1) * n
  {
    MulAtMost(i, n + 1, t, t);
    assert (i + most) * t == i * t + (most - 1) * t + t;
    assert (n + 1) * t == n * t + t;
    assert (2 * t + 1) * n == n * t + n * t + n;
  }

  /** The first poll at a tight deadline's nanosecond hands out the deadline before it. */
  lemma FirstBurstPoll(rate: Rate, i: nat, e: nat)
    requires rate.Valid() && i >= 2 && i * rate.Ticks() == e * rate.numerator + Unit(rate)
    requires SmallOffset(rate, i)
    ensures var p := Reset(rate, 0);
            InRange(p, e) && Poll(p, e).1.Due? && Poll(p, e).0 == p.(nextIndex := i)
  {
    var p := Reset(rate, 0);
    var t, n := rate.Ticks(), rate.numerator;
    UnitAtMost(rate);
    hide Unit;
    assert (i - 1) * t == i * t - t;
    MulAtMost(1, i - 1, t, t);
    assert (e + 1) * n == e * n + n;
    ElapsedCounts(rate, e, i - 1);
    ElapsedCounts(rate, e, i);
    OffsetAtMost(rate, 1, e);
    OffsetMonotone(rate, 1, i);
    hide Offset, Elapsed;
    assert InRange(p, e) && Poll(p, e).1.Due?;
    DuePollSelects(p, e);
    SameRate(p, e);
  }

  // ----- Main results -----

  /** Every pacer of the rate yields at most so many outputs at one instant. */
  ghost predicate NeverMoreAtOnce(rate: Rate, most: nat) {
    forall p: Pacer, now, times | p.rate == rate && AllAt(times, now) && AllInRange(p, times) ::
      Outputs(Polls(p, times).1) <= most
  }

  /** A pacer just reset does. */
  ghost predicate NeverMoreAfterReset(rate: Rate, most: nat) {
    forall epoch, now, times | AllAt(times, now) && AllInRange(Reset(rate, epoch), times) ::
      Outputs(Polls(Reset(rate, epoch), times).1) <= most
  }

  /**
    For every rate: polls at one instant yield at most `most` outputs if and only if a
    nanosecond is no longer than most - 1 periods and one unit. Bursts need no special
    state: a pacer just reset has them already.
   */
  lemma BurstsExactly(rate: Rate, most: nat)
    requires rate.Valid() && most >= 1
    ensures NeverMoreAtOnce(rate, most) <==> rate.numerator <= (most - 1) * rate.Ticks() + Unit(rate)
    ensures NeverMoreAfterReset(rate, most) <==> rate.numerator <= (most - 1) * rate.Ticks() + Unit(rate)
  {
    hide Unit, Poll, Polls, AllInRange, Outputs, AllAt;
    if rate.numerator <= (most - 1) * rate.Ticks() + Unit(rate) {
      forall p: Pacer, now, times | p.rate == rate && AllAt(times, now) && AllInRange(p, times)
        ensures Outputs(Polls(p, times).1) <= most
      {
        NoBursts(p, now, times, most);
      }
    } else {
      var times, now := BurstRun(rate, most);
      assert AllAt(times, now) && AllInRange(Reset(rate, 0), times);
    }
  }

  /** At most two outputs at once: exactly when a period and a unit last at least a nanosecond. */
  lemma TwoAtOnceExactly(rate: Rate)
    requires rate.Valid()
    ensures NeverMoreAtOnce(rate, 2) <==> rate.numerator <= rate.Ticks() + Unit(rate)
  {
    hide Unit, NeverMoreAtOnce;
    BurstsExactly(rate, 2);
  }

  /** Strictly one output at once: exactly when the period is a whole number of nanoseconds. */
  lemma OneAtOnceExactly(rate: Rate)
    requires rate.Valid()
    ensures NeverMoreAtOnce(rate, 1) <==> rate.Ticks() % rate.numerator == 0
  {
    hide NeverMoreAtOnce, NeverMoreAfterReset;
    BurstsExactly(rate, 1);
    UnitIsNumerator(rate);
  }

  lemma UnitIsNumerator(rate: Rate)
    requires rate.Valid()
    ensures rate.numerator <= Unit(rate) <==> rate.Ticks() % rate.numerator == 0
  {
    var a, b := rate.numerator, rate.Ticks();
    var g := Unit(rate);
    var n, t := GcdFactors(a, b);
    if b % a == 0 {
      var x, y := Bezout(a, b);
      var q := b / a;
      assert x * a + y * (q * a) == (x + y * q) * a;
      PositiveFactor(x + y * q, a);
      MulAtMost(1, x + y * q, a, a);
    } else if a <= g {
      if n >= 2 {
        MulAtMost(2, n, g, g);
      }
      WholeMultiple(t, g);
    }
  }

  lemma WholeMultiple(t: nat, g: nat)
    requires g > 0
    ensures t * g % g == 0
  {
    FloorAtLeast(t * g, g, t);
    DivBounds(t * g, g);
    if t * g / g >= t + 1 {
      MulAtMost(t + 1, t * g / g, g, g);
    }
  }

  /** At four frames a nanosecond up to four outputs share an instant; at 1.1 frames still only two. */
  lemma SubNanosecondBurst(four: Rate, slower: Rate)
    requires four == Rate(4_000_000_000, 1) && slower == Rate(1_100_000_000, 1)
    ensures NeverMoreAtOnce(four, 4) && !NeverMoreAtOnce(four, 3)
    ensures NeverMoreAtOnce(slower, 2) && !NeverMoreAtOnce(slower, 1)
  {
    hide NeverMoreAtOnce, NeverMoreAfterReset;
    assert Unit(four) == Gcd(1_000_000_000, 0);
    assert Unit(slower) == Gcd(1_000_000_000, 100_000_000) == Gcd(100_000_000, 0);
    BurstsExactly(four, 4);
    BurstsExactly(four, 3);
    BurstsExactly(slower, 2);
    BurstsExactly(slower, 1);
  }
}
