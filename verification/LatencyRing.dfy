/**
  The latency ring (src/latency_diagnostics.h:36-111): a fixed ring of recent samples with
  running totals, and a snapshot that sorts a copy of the window in place. Samples are in
  microseconds, statistics in milliseconds.
 */
module LatencyRing {
  import opened Arithmetic
  import opened Lists

  // ----- The full history as the reference -----

  /** The greatest sample, or zero. */
  function Greatest(s: seq<nat>): (m: nat)
    ensures forall x | x in s :: x <= m
    ensures m == 0 || m in s
  {
    if s == [] then 0
    else
      var m := Greatest(s[..|s| - 1]);
      var x := s[|s| - 1];
      assert s == s[..|s| - 1] + [x];
      if m < x then x else m
  }

  function ClampSample(signedMicroseconds: int): (r: nat)
    ensures r >= signedMicroseconds && (r == signedMicroseconds || r == 0)
  {
    if signedMicroseconds < 0 then 0 else signedMicroseconds
  }

  /** The last `n` elements, or all of them. */
  function LastOf(s: seq<nat>, n: nat): (w: seq<nat>)
    ensures |w| == if |s| < n then |s| else n
  {
    if |s| <= n then s else s[|s| - n..]
  }

  /** Insert behind all elements that are not greater. */
  function Insert(s: seq<nat>, x: nat): seq<nat> {
    if s == [] then [x]
    else if x < s[|s| - 1] then Insert(s[..|s| - 1], x) + [s[|s| - 1]]
    else s + [x]
  }

  function Sort(s: seq<nat>): seq<nat> {
    if s == [] then [] else Insert(Sort(s[..|s| - 1]), s[|s| - 1])
  }

  /** The position `percentile` reads in a sorted window of `n` samples. */
  function Rank(n: nat, numerator: nat): nat
    requires n > 0
  {
    var index := ((n - 1) * numerator + 99) / 100;
    if index < n - 1 then index else n - 1
  }

  function Percentile(sorted: seq<nat>, numerator: nat): nat {
    if sorted == [] then 0 else sorted[Rank(|sorted|, numerator)]
  }

  datatype Statistics = Statistics(
    count: nat, windowCount: nat, averageMs: real, p50Ms: real, p95Ms: real, p99Ms: real, maxMs: real)

  function Milliseconds(microseconds: nat): real {
    microseconds as real / 1000.0
  }

  /** What a snapshot should report for a history. */
  function StatisticsOf(history: seq<nat>, capacity: nat): Statistics {
    var sorted := Sort(LastOf(history, capacity));
    Statistics(
      |history|,
      |LastOf(history, capacity)|,
      if history == [] then 0.0 else (Sum(history) % TWO_TO_64) as real / |history| as real / 1000.0,
      Milliseconds(Percentile(sorted, 50)), Milliseconds(Percentile(sorted, 95)), Milliseconds(Percentile(sorted, 99)),
      Milliseconds(Greatest(history)))
  }

  // ----- The ring -----

  class FixedRing {
    const capacity: nat
    const samples: array<nat>
    var writeCount: nat
    var totalMicroseconds: nat
    var maximumMicroseconds: nat
    ghost var history: seq<nat>

    ghost predicate Valid()
      reads this, samples
    {
      && capacity > 0 && samples.Length == capacity
      && writeCount == |history| < TWO_TO_64
      && totalMicroseconds == Sum(history) % TWO_TO_64
      && maximumMicroseconds == Greatest(history)
      && forall i | 0 <= i < |history| && i >= |history| - capacity :: samples[i % capacity] == history[i]
    }

    constructor (capacity: nat)
      requires capacity > 0
      ensures Valid() && fresh(samples) && this.capacity == capacity && history == []
    {
      this.capacity := capacity;
      samples := new nat[capacity](_ => 0);
      writeCount, totalMicroseconds, maximumMicroseconds := 0, 0, 0;
      history := [];
    }

    method Reset()
      requires Valid()
      modifies this, samples
      ensures Valid() && history == []
    {
      writeCount := 0;
      totalMicroseconds := 0;
      maximumMicroseconds := 0;
      history := [];
      for i := 0 to capacity
        invariant writeCount == totalMicroseconds == maximumMicroseconds == 0 && history == []
      {
        samples[i] := 0;
      }
    }

    method Record(signedMicroseconds: int)
      requires Valid() && writeCount + 1 < TWO_TO_64
      modifies this, samples
      ensures Valid() && history == old(history) + [ClampSample(signedMicroseconds)]
    {
      hide Sum, Greatest;
      var microseconds := ClampSample(signedMicroseconds);
      var index := writeCount;
      writeCount := writeCount + 1;
      samples[index % capacity] := microseconds;
      totalMicroseconds := (totalMicroseconds + microseconds) % TWO_TO_64;
      if maximumMicroseconds < microseconds {
        maximumMicroseconds := microseconds;
      }
      history := history + [microseconds];
      SumAppend(old(history), microseconds);
      ModuloSum(Sum(old(history)), microseconds);
      forall i | 0 <= i < |history| && i >= |history| - capacity
        ensures samples[i % capacity] == history[i]
      {
        if i < index {
          DifferentSlots(i, index, capacity);
        }
      }
    }

    /** Copies the window, sorts the copy by insertion in place, and reads the percentiles. */
    method Snapshot() returns (statistics: Statistics)
      requires Valid()
      ensures statistics == StatisticsOf(history, capacity)
    {
      var count := writeCount;
      var windowCount := if count < capacity then count else capacity;
      var window := new nat[capacity](_ => 0);
      var first := if count > capacity then count - capacity else 0;
      for index := 0 to windowCount
        invariant forall k | 0 <= k < index :: window[k] == history[first + k]
      {
        window[index] := samples[(first + index) % capacity];
      }
      ghost var recent := LastOf(history, capacity);
      assert window[..windowCount] == recent;
      SortInPlace(window, windowCount);
      var sorted := window[..windowCount];
      var average := if count == 0 then 0.0 else totalMicroseconds as real / count as real / 1000.0;
      return Statistics(count, windowCount, average,
                        Milliseconds(Percentile(sorted, 50)), Milliseconds(Percentile(sorted, 95)),
                        Milliseconds(Percentile(sorted, 99)), Milliseconds(maximumMicroseconds));
    }
  }

  /** The insertion sort of `snapshot` on the first `n` elements. */
  method SortInPlace(window: array<nat>, n: nat)
    requires n <= window.Length
    modifies window
    ensures window[..n] == Sort(old(window[..n]))
    ensures window[n..] == old(window[n..])
  {
    if n == 0 {
      return;
    }
    ghost var all := window[..];
    OneSorted(all);
    var index := 1;
    while index < n
      invariant 1 <= index <= n
      invariant window[..index] == Sort(all[..index])
      invariant window[index..] == all[index..]
    {
      var value := window[index];
      assert value == all[index];
      SortStep(all, index);
      ghost var before := window[..];
      InsertAt(window, index);
      assert window[..index + 1] == Insert(before[..index], value);
      index := index + 1;
    }
    assert all[..n] == old(window[..n]);
  }

  /** The inner loop: shift greater elements right and put the value in the gap. */
  method InsertAt(window: array<nat>, index: nat)
    requires 0 < index < window.Length
    modifies window
    ensures window[..index + 1] == Insert(old(window[..index]), old(window[index]))
    ensures window[index + 1..] == old(window[index + 1..])
  {
    hide Insert;
    ghost var before := window[..];
    ghost var prefix := before[..index];
    var value := window[index];
    var insertion := index;
    InsertStart(prefix, value);
    while insertion > 0 && value < window[insertion - 1]
      invariant insertion <= index
      invariant forall k | 0 <= k < insertion :: window[k] == before[k]
      invariant forall k | insertion < k <= index :: window[k] == before[k - 1]
      invariant forall k | index < k < window.Length :: window[k] == before[k]
      invariant Insert(prefix, value) == Insert(prefix[..insertion], value) + prefix[insertion..]
    {
      InsertShift(prefix, insertion, value);
      window[insertion] := window[insertion - 1];
      insertion := insertion - 1;
    }
    window[insertion] := value;
    InsertHere(prefix[..insertion], value);
    Inserted(before, window[..], index, insertion, value);
  }

  lemma InsertStart(prefix: seq<nat>, value: nat)
    ensures Insert(prefix, value) == Insert(prefix[..|prefix|], value) + prefix[|prefix|..]
  {
    hide Insert;
    assert prefix[..|prefix|] == prefix && prefix[|prefix|..] == [];
  }

  /** The array after the loop and the last store, as slices. */
  lemma Inserted(before: seq<nat>, after: seq<nat>, index: nat, insertion: nat, value: nat)
    requires insertion <= index < |before| == |after| && after[insertion] == value
    requires forall k | 0 <= k < insertion :: after[k] == before[k]
    requires forall k | insertion < k <= index :: after[k] == before[k - 1]
    requires forall k | index < k < |after| :: after[k] == before[k]
    ensures after[..index + 1] == before[..index][..insertion] + [value] + before[..index][insertion..]
    ensures after[index + 1..] == before[index + 1..]
  {
  }

  lemma InsertShift(prefix: seq<nat>, i: nat, value: nat)
    requires 0 < i <= |prefix| && value < prefix[i - 1]
    ensures Insert(prefix[..i], value) + prefix[i..] == Insert(prefix[..i - 1], value) + prefix[i - 1..]
  {
    assert prefix[..i][..i - 1] == prefix[..i - 1];
    Assoc(Insert(prefix[..i - 1], value), [prefix[i - 1]], prefix[i..]);
    assert [prefix[i - 1]] + prefix[i..] == prefix[i - 1..];
  }

  lemma InsertHere(s: seq<nat>, x: nat)
    requires s == [] || s[|s| - 1] <= x
    ensures Insert(s, x) == s + [x]
  {
  }

  lemma OneSorted(all: seq<nat>)
    requires |all| > 0
    ensures Sort(all[..1]) == all[..1]
  {
    assert all[..1][..0] == [];
  }

  lemma SortStep(all: seq<nat>, index: nat)
    requires index < |all|
    ensures Sort(all[..index + 1]) == Insert(Sort(all[..index]), all[index])
  {
    assert all[..index + 1][..index] == all[..index];
  }

  lemma SumAppend(s: seq<nat>, x: nat)
    ensures Sum(s + [x]) == Sum(s) + x
    ensures Greatest(s + [x]) == if Greatest(s) < x then x else Greatest(s)
  {
    assert (s + [x])[..|s|] == s;
  }

  lemma DifferentSlots(i: nat, j: nat, capacity: nat)
    requires i < j < i + capacity
    ensures i % capacity != j % capacity
  {
    if i % capacity == j % capacity {
      var a, b := i / capacity, j / capacity;
      assert j - i == (b - a) * capacity;
      if b - a >= 1 {
        MulAtMost(1, b - a, capacity, capacity);
      } else {
        MulAtMost(0, a - b, capacity, capacity);
      }
    }
  }

  // ----- What sorting and the percentile rank mean -----

  predicate IsSorted(s: seq<nat>) {
    forall i, j | 0 <= i < j < |s| :: s[i] <= s[j]
  }

  function CountAtMost(s: seq<nat>, v: nat): nat {
    if s == [] then 0 else CountAtMost(s[..|s| - 1], v) + (if s[|s| - 1] <= v then 1 else 0)
  }

  function CountAtLeast(s: seq<nat>, v: nat): nat {
    if s == [] then 0 else CountAtLeast(s[..|s| - 1], v) + (if s[|s| - 1] >= v then 1 else 0)
  }

  lemma {:induction false} InsertKeeps(s: seq<nat>, x: nat)
    ensures |Insert(s, x)| == |s| + 1 && multiset(Insert(s, x)) == multiset(s) + multiset{x}
  {
    if s == [] {
    } else {
      var n := |s| - 1;
      assert s == s[..n] + [s[n]];
      if x < s[n] {
        InsertKeeps(s[..n], x);
      }
    }
  }

  lemma {:induction false} InsertSorted(s: seq<nat>, x: nat)
    requires IsSorted(s)
    ensures IsSorted(Insert(s, x))
  {
    if s == [] {
    } else {
      var n := |s| - 1;
      var init, last := s[..n], s[n];
      if x < last {
        InsertSorted(init, x);
        InsertKeeps(init, x);
        InsertedAtMost(init, x, last);
      }
    }
  }

  lemma {:induction false} InsertCounts(s: seq<nat>, x: nat, v: nat)
    ensures CountAtMost(Insert(s, x), v) == CountAtMost(s, v) + (if x <= v then 1 else 0)
    ensures CountAtLeast(Insert(s, x), v) == CountAtLeast(s, v) + (if x >= v then 1 else 0)
  {
    if s == [] {
      CountAppend([], x, v);
      assert [] + [x] == [x];
    } else if x < s[|s| - 1] {
      var n := |s| - 1;
      InsertCounts(s[..n], x, v);
      CountAppend(Insert(s[..n], x), s[n], v);
    } else {
      CountAppend(s, x, v);
    }
  }

  lemma CountAppend(s: seq<nat>, x: nat, v: nat)
    ensures CountAtMost(s + [x], v) == CountAtMost(s, v) + (if x <= v then 1 else 0)
    ensures CountAtLeast(s + [x], v) == CountAtLeast(s, v) + (if x >= v then 1 else 0)
  {
    assert (s + [x])[..|s|] == s;
  }

  lemma InsertedAtMost(s: seq<nat>, x: nat, bound: nat)
    requires multiset(Insert(s, x)) == multiset(s) + multiset{x}
    requires x <= bound && forall i | 0 <= i < |s| :: s[i] <= bound
    ensures forall i | 0 <= i < |Insert(s, x)| :: Insert(s, x)[i] <= bound
  {
    hide Insert;
    var r := Insert(s, x);
    forall i | 0 <= i < |r| ensures r[i] <= bound {
      assert r[i] in multiset(r);
      assert r[i] in multiset(s) || r[i] == x;
    }
  }

  /** Sorting keeps exactly the samples, puts them in order and keeps all rank counts. */
  lemma {:induction false} SortFacts(s: seq<nat>, v: nat)
    ensures IsSorted(Sort(s)) && |Sort(s)| == |s| && multiset(Sort(s)) == multiset(s)
    ensures CountAtMost(Sort(s), v) == CountAtMost(s, v) && CountAtLeast(Sort(s), v) == CountAtLeast(s, v)
  {
    if s == [] {
      assert Sort(s) == s;
    } else {
      hide Sort, Insert, CountAtMost, CountAtLeast, IsSorted;
      var n := |s| - 1;
      var init, x := s[..n], s[n];
      assert s == init + [x];
      SortFacts(init, v);
      SortLast(init, x);
      InsertSorted(Sort(init), x);
      InsertKeeps(Sort(init), x);
      InsertCounts(Sort(init), x, v);
      CountAppend(init, x, v);
    }
  }

  lemma SortLast(s: seq<nat>, x: nat)
    ensures Sort(s + [x]) == Insert(Sort(s), x)
  {
    assert (s + [x])[..|s|] == s;
  }

  lemma {:induction false} SortedCounts(s: seq<nat>, r: nat, v: nat)
    requires IsSorted(s) && r < |s| && v == s[r]
    ensures CountAtMost(s, v) >= r + 1 && CountAtLeast(s, v) >= |s| - r
  {
    var n := |s| - 1;
    if r < n {
      SortedCounts(s[..n], r, v);
    } else {
      AllAtMost(s, v);
    }
  }

  lemma {:induction false} AllAtMost(s: seq<nat>, v: nat)
    requires forall i | 0 <= i < |s| :: s[i] <= v
    ensures CountAtMost(s, v) == |s|
  {
    if s == [] {
    } else {
      AllAtMost(s[..|s| - 1], v);
    }
  }

  /** The rank is (n - 1) * numerator / 100 rounded up. */
  lemma RankIsCeiling(n: nat, numerator: nat)
    requires n > 0 && numerator <= 100
    ensures var r := Rank(n, numerator);
            r < n && (r - 1) * 100 < (n - 1) * numerator <= r * 100
  {
    var x := (n - 1) * numerator;
    MulAtMost(n - 1, n - 1, numerator, 100);
    DivBounds(x + 99, 100);
    var index := (x + 99) / 100;
    assert index <= n - 1;
  }

  lemma RankMonotone(n: nat, p: nat, q: nat)
    requires n > 0 && p <= q <= 100
    ensures Rank(n, p) <= Rank(n, q)
  {
    MulAtMost(n - 1, n - 1, p, q);
  }

  /**
    A percentile of a window is one of its samples, with at least rank + 1 samples not above
    it and at least the rest not below it.
   */
  lemma PercentileIsRank(w: seq<nat>, numerator: nat)
    requires w != [] && numerator <= 100
    ensures var v, r := Percentile(Sort(w), numerator), Rank(|w|, numerator);
            && v in w
            && (r - 1) * 100 < (|w| - 1) * numerator <= r * 100
            && CountAtMost(w, v) >= r + 1
            && CountAtLeast(w, v) >= |w| - r
  {
    hide Sort, CountAtMost, CountAtLeast, Rank;
    var s := Sort(w);
    SortFacts(w, 0);
    RankIsCeiling(|w|, numerator);
    var v := Percentile(s, numerator);
    SortFacts(w, v);
    SortedCounts(s, Rank(|w|, numerator), v);
    assert v in multiset(s);
  }

  lemma LastOfSubset(history: seq<nat>, capacity: nat)
    ensures forall x | x in LastOf(history, capacity) :: x in history
  {
  }

  /** The reported percentiles are ordered and never exceed the session maximum. */
  lemma PercentilesOrdered(history: seq<nat>, capacity: nat)
    requires history != [] && capacity > 0
    ensures var s := StatisticsOf(history, capacity); s.p50Ms <= s.p95Ms <= s.p99Ms <= s.maxMs
  {
    hide Sort, Rank, Greatest, Sum, LastOf;
    var w := LastOf(history, capacity);
    SortFacts(w, 0);
    RankIsCeiling(|w|, 50);
    RankIsCeiling(|w|, 95);
    RankIsCeiling(|w|, 99);
    RankMonotone(|w|, 50, 95);
    RankMonotone(|w|, 95, 99);
    PercentileIsRank(w, 99);
    LastOfSubset(history, capacity);
    assert Percentile(Sort(w), 99) <= Greatest(history);
  }

  // ----- The reported statistics, field by field -----

  /** The least whole number not below q percent of `n - 1`. */
  ghost predicate IsCeiling(r: nat, n: nat, q: nat) {
    n > 0 && (r - 1) * 100 < (n - 1) * q <= r * 100
  }

  /** A sample with at least r + 1 samples at or below and n - r at or above it, r being q percent of n - 1 rounded up. */
  ghost predicate IsPercentile(w: seq<nat>, q: nat, ms: real) {
    exists v, r: nat | v in w && IsCeiling(r, |w|, q) ::
      ms * 1000.0 == v as real && CountAtMost(w, v) >= r + 1 && CountAtLeast(w, v) >= |w| - r
  }

  lemma PercentileReported(w: seq<nat>, q: nat)
    requires w != [] && q <= 100
    ensures IsPercentile(w, q, Milliseconds(Percentile(Sort(w), q)))
  {
    PercentileIsRank(w, q);
    var v, r := Percentile(Sort(w), q), Rank(|w|, q);
    hide Percentile, Rank, Sort, CountAtMost, CountAtLeast;
    assert IsCeiling(r, |w|, q);
    assert Milliseconds(v) * 1000.0 == v as real;
  }

  /**
    For every history that is not empty: the counts, the average of all samples while their
    sum fits 64 bits, the three percentiles of the last samples, and the greatest sample of all.
   */
  lemma StatisticsExactly(history: seq<nat>, capacity: nat)
    requires history != [] && capacity > 0
    ensures var s := StatisticsOf(history, capacity);
            var n := if |history| < capacity then |history| else capacity;
            var w := history[|history| - n..];
            && s.count == |history| && s.windowCount == n
            && (Sum(history) < TWO_TO_64 ==> s.averageMs * s.count as real * 1000.0 == Sum(history) as real)
            && IsPercentile(w, 50, s.p50Ms) && IsPercentile(w, 95, s.p95Ms) && IsPercentile(w, 99, s.p99Ms)
            && (exists x | x in history :: s.maxMs * 1000.0 == x as real)
            && forall x | x in history :: s.maxMs * 1000.0 >= x as real
  {
    hide *;
    CountsReported(history, capacity);
    PercentilesReported(history, capacity);
    GreatestReported(history, capacity);
    if Sum(history) < TWO_TO_64 {
      AverageReported(history, capacity);
    }
  }

  lemma CountsReported(history: seq<nat>, capacity: nat)
    ensures var s := StatisticsOf(history, capacity);
            s.count == |history| && s.windowCount == if |history| < capacity then |history| else capacity
  {
    hide Sort, Rank, Sum, Percentile, Milliseconds, Greatest;
  }

  lemma PercentilesReported(history: seq<nat>, capacity: nat)
    requires history != [] && capacity > 0
    ensures var s := StatisticsOf(history, capacity);
            var n := if |history| < capacity then |history| else capacity;
            var w := history[|history| - n..];
            IsPercentile(w, 50, s.p50Ms) && IsPercentile(w, 95, s.p95Ms) && IsPercentile(w, 99, s.p99Ms)
  {
    hide Sort, Rank, Sum, Percentile, IsPercentile, Milliseconds, Greatest;
    var n := if |history| < capacity then |history| else capacity;
    var w := history[|history| - n..];
    assert LastOf(history, capacity) == w;
    PercentileReported(w, 50);
    PercentileReported(w, 95);
    PercentileReported(w, 99);
  }

  lemma AverageReported(history: seq<nat>, capacity: nat)
    requires history != [] && Sum(history) < TWO_TO_64
    ensures StatisticsOf(history, capacity).averageMs * |history| as real * 1000.0 == Sum(history) as real
  {
    hide Sort, Rank, Sum, Percentile, Milliseconds, Greatest;
    assert Sum(history) % TWO_TO_64 == Sum(history);
    AverageTimesCount(Sum(history), |history|);
  }

  lemma AverageTimesCount(sum: nat, count: nat)
    requires count > 0
    ensures sum as real / count as real / 1000.0 * count as real * 1000.0 == sum as real
  {
    var a := sum as real / count as real;
    assert a * count as real == sum as real;
    assert a / 1000.0 * count as real * 1000.0 == a * count as real;
  }

  lemma GreatestReported(history: seq<nat>, capacity: nat)
    requires history != []
    ensures var max := StatisticsOf(history, capacity).maxMs;
            && (exists x | x in history :: max * 1000.0 == x as real)
            && forall x | x in history :: max * 1000.0 >= x as real
  {
    hide Sort, Rank, Sum, Percentile, Greatest;
    var m := Greatest(history);
    if m == 0 {
      assert history[0] in history;
    }
    assert m in history && Milliseconds(m) * 1000.0 == m as real;
  }

  /** Nothing recorded reports nothing. */
  lemma NothingReported(capacity: nat)
    ensures StatisticsOf([], capacity) == Statistics(0, 0, 0.0, 0.0, 0.0, 0.0, 0.0)
  {
    assert Sort([]) == [];
  }
}
