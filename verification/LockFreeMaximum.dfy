/**
  Concurrent writers of the latency ring (src/latency_diagnostics.h:61-71): every atomic
  operation of `record` is one step, the steps of any number of writers interleave freely,
  and a weak compare-and-exchange may fail spuriously.
 */
module LockFreeMaximum {
  import opened Options
  import opened Arithmetic

  /** Where a writer stands; `index` is the slot number it was given. */
  datatype Pc =
    | Waiting
    | Indexed(index: nat)
    | Stored(index: nat)
    | Summed(index: nat)
    | Comparing(index: nat, seen: nat)
    | Done(index: nat)

  /** Writer `w` records `values[w]`. A slot is None until it is first written after the reset. */
  datatype State = State(
    values: seq<nat>, pcs: seq<Pc>, count: nat, total: nat, maximum: nat, slots: seq<Option<nat>>)

  datatype Step =
    | TakeIndex(w: nat)
    | StoreSample(w: nat)
    | AddTotal(w: nat)
    | LoadMaximum(w: nat)
    | Compare(w: nat, spurious: bool)

  function Start(values: seq<nat>, capacity: nat): State {
    State(values, seq(|values|, _ => Waiting), 0, 0, 0, seq(capacity, _ => None))
  }

  predicate Enabled(s: State, e: Step) {
    && e.w < |s.pcs| == |s.values| && |s.slots| > 0
    && match e
       case TakeIndex(w) => s.pcs[w].Waiting?
       case StoreSample(w) => s.pcs[w].Indexed?
       case AddTotal(w) => s.pcs[w].Stored?
       case LoadMaximum(w) => s.pcs[w].Summed?
       case Compare(w, _) => s.pcs[w].Comparing?
  }

  function Next(s: State, e: Step): State
    requires Enabled(s, e)
  {
    var w := e.w;
    var v := s.values[w];
    match e
    case TakeIndex(_) => s.(count := s.count + 1, pcs := s.pcs[w := Indexed(s.count)])
    case StoreSample(_) =>
      var i := s.pcs[w].index;
      s.(slots := s.slots[i % |s.slots| := Some(v)], pcs := s.pcs[w := Stored(i)])
    case AddTotal(_) => s.(total := (s.total + v) % TWO_TO_64, pcs := s.pcs[w := Summed(s.pcs[w].index)])
    case LoadMaximum(_) => s.(pcs := s.pcs[w := Comparing(s.pcs[w].index, s.maximum)])
    case Compare(_, spurious) =>
      var Comparing(i, seen) := s.pcs[w];
      if seen >= v then s.(pcs := s.pcs[w := Done(i)])
      else if seen == s.maximum && !spurious then s.(maximum := v, pcs := s.pcs[w := Done(i)])
      else s.(pcs := s.pcs[w := Comparing(i, s.maximum)])
  }

  predicate IsRun(s: State, steps: seq<Step>)
    decreases |steps|
  {
    steps == [] || (Enabled(s, steps[0]) && IsRun(Next(s, steps[0]), steps[1..]))
  }

  function After(s: State, steps: seq<Step>): State
    requires IsRun(s, steps)
    decreases |steps|
  {
    if steps == [] then s else After(Next(s, steps[0]), steps[1..])
  }

  // ----- What has been recorded so far -----

  /** The writer has stored its sample. */
  predicate HasStored(pc: Pc) {
    !pc.Waiting? && !pc.Indexed?
  }

  /** The writer has added its sample to the total. */
  predicate HasSummed(pc: Pc) {
    HasStored(pc) && !pc.Stored?
  }

  function StoredValues(values: seq<nat>, pcs: seq<Pc>): multiset<nat>
    requires |values| == |pcs|
  {
    if values == [] then multiset{}
    else
      var n := |values| - 1;
      StoredValues(values[..n], pcs[..n]) + (if HasStored(pcs[n]) then multiset{values[n]} else multiset{})
  }

  function SummedTotal(values: seq<nat>, pcs: seq<Pc>): nat
    requires |values| == |pcs|
  {
    if values == [] then 0
    else
      var n := |values| - 1;
      SummedTotal(values[..n], pcs[..n]) + (if HasSummed(pcs[n]) then values[n] else 0)
  }

  function SlotContents(slots: seq<Option<nat>>): multiset<nat> {
    if slots == [] then multiset{}
    else
      var n := |slots| - 1;
      SlotContents(slots[..n]) + (if slots[n].Some? then multiset{slots[n].value} else multiset{})
  }

  lemma {:induction false} StoredAfter(values: seq<nat>, pcs: seq<Pc>, w: nat, pc: Pc)
    requires |values| == |pcs| && w < |pcs|
    ensures HasStored(pc) == HasStored(pcs[w]) ==> StoredValues(values, pcs[w := pc]) == StoredValues(values, pcs)
    ensures HasStored(pc) && !HasStored(pcs[w]) ==>
              StoredValues(values, pcs[w := pc]) == StoredValues(values, pcs) + multiset{values[w]}
  {
    var n := |values| - 1;
    hide HasStored;
    if w < n {
      StoredAfter(values[..n], pcs[..n], w, pc);
      assert pcs[w := pc][..n] == pcs[..n][w := pc];
    } else {
      assert pcs[w := pc][..n] == pcs[..n];
    }
  }

  lemma {:induction false} SummedAfter(values: seq<nat>, pcs: seq<Pc>, w: nat, pc: Pc)
    requires |values| == |pcs| && w < |pcs|
    ensures HasSummed(pc) == HasSummed(pcs[w]) ==> SummedTotal(values, pcs[w := pc]) == SummedTotal(values, pcs)
    ensures HasSummed(pc) && !HasSummed(pcs[w]) ==>
              SummedTotal(values, pcs[w := pc]) == SummedTotal(values, pcs) + values[w]
  {
    var n := |values| - 1;
    hide HasSummed;
    if w < n {
      SummedAfter(values[..n], pcs[..n], w, pc);
      assert pcs[w := pc][..n] == pcs[..n][w := pc];
    } else {
      assert pcs[w := pc][..n] == pcs[..n];
    }
  }

  lemma {:induction false} SlotsAfter(slots: seq<Option<nat>>, i: nat, v: nat)
    requires i < |slots| && slots[i].None?
    ensures SlotContents(slots[i := Some(v)]) == SlotContents(slots) + multiset{v}
  {
    var n := |slots| - 1;
    if i < n {
      SlotsAfter(slots[..n], i, v);
      assert slots[i := Some(v)][..n] == slots[..n][i := Some(v)];
    } else {
      assert slots[i := Some(v)][..n] == slots[..n];
    }
  }

  // ----- The invariant -----

  /** Slot numbers are handed out once each. */
  predicate DistinctIndices(s: State) {
    && (forall w | 0 <= w < |s.pcs| && !s.pcs[w].Waiting? :: s.pcs[w].index < s.count)
    && forall v, w | 0 <= v < w < |s.pcs| && !s.pcs[v].Waiting? && !s.pcs[w].Waiting? :: s.pcs[v].index != s.pcs[w].index
  }

  /** The maximum is one of the recorded values (or zero) and covers every finished writer. */
  predicate MaximumAgrees(s: State)
    requires |s.pcs| == |s.values|
  {
    && (s.maximum == 0 || exists w :: 0 <= w < |s.values| && !s.pcs[w].Waiting? && s.values[w] == s.maximum)
    && (forall w | 0 <= w < |s.pcs| && s.pcs[w].Comparing? :: s.pcs[w].seen <= s.maximum)
    && forall w | 0 <= w < |s.pcs| && s.pcs[w].Done? :: s.values[w] <= s.maximum
  }

  predicate Inv(s: State) {
    && |s.pcs| == |s.values| && |s.slots| > 0
    && DistinctIndices(s) && MaximumAgrees(s)
    && s.total == SummedTotal(s.values, s.pcs) % TWO_TO_64
  }

  function Started(pcs: seq<Pc>): nat {
    if pcs == [] then 0
    else Started(pcs[..|pcs| - 1]) + (if pcs[|pcs| - 1].Waiting? then 0 else 1)
  }

  /** While the writers fit the ring, the slots hold exactly the stored values. */
  ghost predicate SlotsAgree(s: State)
    requires |s.pcs| == |s.values|
  {
    && s.count == Started(s.pcs)
    && SlotContents(s.slots) == StoredValues(s.values, s.pcs)
    && SlotsOwned(s)
  }

  /** Only writers that have stored fill slots. */
  ghost predicate SlotsOwned(s: State) {
    forall i | 0 <= i < |s.slots| && s.slots[i].Some? :: exists w :: StoredAt(s, w, i)
  }

  predicate StoredAt(s: State, w: int, i: nat) {
    0 <= w < |s.pcs| && HasStored(s.pcs[w]) && s.pcs[w].index == i
  }

  lemma {:induction false} StartedAfter(pcs: seq<Pc>, w: nat, pc: Pc)
    requires w < |pcs| && !pc.Waiting?
    ensures Started(pcs[w := pc]) == Started(pcs) + (if pcs[w].Waiting? then 1 else 0)
    ensures Started(pcs) <= |pcs| && (pcs[w].Waiting? ==> Started(pcs) < |pcs|)
  {
    var n := |pcs| - 1;
    StartedAtMost(pcs[..n]);
    if w < n {
      StartedAfter(pcs[..n], w, pc);
      assert pcs[w := pc][..n] == pcs[..n][w := pc];
    } else {
      assert pcs[w := pc][..n] == pcs[..n];
    }
  }

  lemma {:induction false} StartedAtMost(pcs: seq<Pc>)
    ensures Started(pcs) <= |pcs|
  {
    if pcs == [] {
    } else {
      StartedAtMost(pcs[..|pcs| - 1]);
    }
  }

  lemma StepKeepsIndices(s: State, e: Step)
    requires DistinctIndices(s) && Enabled(s, e)
    ensures DistinctIndices(Next(s, e))
  {
  }

  lemma StepKeepsMaximum(s: State, e: Step)
    requires |s.pcs| == |s.values| && MaximumAgrees(s) && Enabled(s, e)
    ensures |Next(s, e).pcs| == |Next(s, e).values| && MaximumAgrees(Next(s, e))
    ensures s.maximum <= Next(s, e).maximum
  {
    var s' := Next(s, e);
    if s'.maximum != s.maximum {
      assert s'.maximum == s.values[e.w] && !s'.pcs[e.w].Waiting?;
    } else if s.maximum != 0 {
      var w :| 0 <= w < |s.values| && !s.pcs[w].Waiting? && s.values[w] == s.maximum;
      assert !s'.pcs[w].Waiting?;
    }
  }

  /** Every step keeps the invariant, and the maximum never falls. */
  lemma StepKeepsInv(s: State, e: Step)
    requires Inv(s) && Enabled(s, e)
    ensures Inv(Next(s, e)) && s.maximum <= Next(s, e).maximum && Next(s, e).values == s.values
  {
    StepKeepsMaximum(s, e);
    StepKeepsIndices(s, e);
    var s' := Next(s, e);
    SummedAfter(s.values, s.pcs, e.w, s'.pcs[e.w]);
    ModuloSum(SummedTotal(s.values, s.pcs), s.values[e.w]);
    hide MaximumAgrees, DistinctIndices, SummedTotal, HasSummed;
  }

  lemma StepKeepsSlots(s: State, e: Step)
    requires Inv(s) && Enabled(s, e) && SlotsAgree(s) && |s.values| <= |s.slots|
    ensures SlotsAgree(Next(s, e)) && |Next(s, e).slots| == |s.slots|
  {
    hide MaximumAgrees, SummedTotal, SlotsOwned;
    var s', w := Next(s, e), e.w;
    StartedAfter(s.pcs, w, s'.pcs[w]);
    StoredAfter(s.values, s.pcs, w, s'.pcs[w]);
    StartedAtMost(s.pcs);
    hide Started, StoredValues, SlotContents, DistinctIndices;
    if e.StoreSample? {
      IndexFits(s, w);
      FreshSlot(s, w);
      SlotsAfter(s.slots, s.pcs[w].index, s.values[w]);
    }
    OwnersKept(s, e);
  }

  lemma IndexFits(s: State, w: nat)
    requires DistinctIndices(s) && w < |s.pcs| && s.pcs[w].Indexed? && s.count <= |s.slots|
    ensures var i := s.pcs[w].index; i < |s.slots| && i % |s.slots| == i
  {
  }

  /** The slot a writer is about to fill is still empty. */
  lemma FreshSlot(s: State, w: nat)
    requires DistinctIndices(s) && SlotsOwned(s)
    requires w < |s.pcs| && s.pcs[w].Indexed? && s.pcs[w].index < |s.slots|
    ensures s.slots[s.pcs[w].index].None?
  {
    var i := s.pcs[w].index;
    forall v ensures !StoredAt(s, v, i) {
    }
  }

  /** A step leaves the slot numbers of writers that have stored as they are. */
  lemma StoredStays(s: State, e: Step, w: int, i: nat)
    requires Enabled(s, e) && StoredAt(s, w, i)
    ensures StoredAt(Next(s, e), w, i)
  {
  }

  lemma SlotsChange(s: State, e: Step)
    requires Enabled(s, e)
    ensures if e.StoreSample? then
              && Next(s, e).slots == s.slots[s.pcs[e.w].index % |s.slots| := Some(s.values[e.w])]
              && StoredAt(Next(s, e), e.w, s.pcs[e.w].index)
            else Next(s, e).slots == s.slots
    ensures e.StoreSample? && s.pcs[e.w].index < |s.slots| ==>
              Next(s, e).slots == s.slots[s.pcs[e.w].index := Some(s.values[e.w])]
  {
    if e.StoreSample? && s.pcs[e.w].index < |s.slots| {
      SmallRemainder(s.pcs[e.w].index, |s.slots|);
    }
  }

  lemma OwnersKept(s: State, e: Step)
    requires Enabled(s, e) && SlotsOwned(s)
    requires e.StoreSample? ==> s.pcs[e.w].index < |s.slots|
    ensures SlotsOwned(Next(s, e))
  {
    hide Next, StoredAt, SlotsOwned;
    var s' := Next(s, e);
    SlotsChange(s, e);
    assert |s'.slots| == |s.slots|;
    OwnersStay(s, s', e);
  }

  lemma OwnersStay(s: State, s': State, e: Step)
    requires Enabled(s, e) && SlotsOwned(s) && s' == Next(s, e) && |s'.slots| == |s.slots|
    requires if e.StoreSample? then
               && s.pcs[e.w].index < |s.slots| && s'.slots == s.slots[s.pcs[e.w].index := Some(s.values[e.w])]
               && StoredAt(s', e.w, s.pcs[e.w].index)
             else s'.slots == s.slots
    ensures SlotsOwned(s')
  {
    hide Next, StoredAt;
    forall i | 0 <= i < |s'.slots| && s'.slots[i].Some? ensures exists w :: StoredAt(s', w, i) {
      if e.StoreSample? && i == s.pcs[e.w].index {
        assert StoredAt(s', e.w, i);
      } else {
        var w :| StoredAt(s, w, i);
        StoredStays(s, e, w, i);
      }
    }
  }

  // ----- Theorems over all interleavings -----

  lemma {:induction false} RunKeepsInv(s: State, steps: seq<Step>)
    requires Inv(s) && IsRun(s, steps)
    ensures Inv(After(s, steps)) && s.maximum <= After(s, steps).maximum && After(s, steps).values == s.values
    decreases |steps|
  {
    hide Inv, Next, Enabled;
    if steps == [] {
    } else {
      StepKeepsInv(s, steps[0]);
      RunKeepsInv(Next(s, steps[0]), steps[1..]);
    }
  }

  lemma {:induction false} RunKeepsSlots(s: State, steps: seq<Step>)
    requires Inv(s) && IsRun(s, steps) && SlotsAgree(s) && |s.values| <= |s.slots|
    ensures var t := After(s, steps); |t.pcs| == |t.values| && SlotsAgree(t) && |t.slots| == |s.slots|
    decreases |steps|
  {
    if steps == [] {
    } else {
      StepKeepsInv(s, steps[0]);
      StepKeepsSlots(s, steps[0]);
      hide Inv, Next, Enabled, SlotsAgree;
      RunKeepsSlots(Next(s, steps[0]), steps[1..]);
    }
  }

  predicate Quiescent(s: State) {
    forall w | 0 <= w < |s.pcs| :: s.pcs[w].Done?
  }

  predicate IsGreatest(values: seq<nat>, m: nat) {
    (forall v | v in values :: v <= m) && (m in values || (values == [] && m == 0))
  }

  lemma {:induction false} AllCounted(values: seq<nat>, pcs: seq<Pc>)
    requires |values| == |pcs| && forall w | 0 <= w < |pcs| :: pcs[w].Done?
    ensures SummedTotal(values, pcs) == Sum(values) && StoredValues(values, pcs) == multiset(values)
  {
    if values == [] {
    } else {
      var n := |values| - 1;
      AllCounted(values[..n], pcs[..n]);
      assert values == values[..n] + [values[n]];
    }
  }

  lemma {:induction false} NothingCounted(values: seq<nat>, pcs: seq<Pc>)
    requires |values| == |pcs| && forall w | 0 <= w < |pcs| :: pcs[w].Waiting?
    ensures SummedTotal(values, pcs) == 0 && StoredValues(values, pcs) == multiset{} && Started(pcs) == 0
  {
    if values == [] {
    } else {
      var n := |values| - 1;
      NothingCounted(values[..n], pcs[..n]);
    }
  }

  lemma {:induction false} EmptySlots(slots: seq<Option<nat>>)
    requires forall i | 0 <= i < |slots| :: slots[i].None?
    ensures SlotContents(slots) == multiset{}
  {
    if slots == [] {
    } else {
      EmptySlots(slots[..|slots| - 1]);
    }
  }

  lemma StartInv(values: seq<nat>, capacity: nat)
    requires capacity > 0
    ensures Inv(Start(values, capacity)) && SlotsAgree(Start(values, capacity))
  {
    var s := Start(values, capacity);
    NothingCounted(s.values, s.pcs);
    EmptySlots(s.slots);
    hide SummedTotal, StoredValues, SlotContents, Started;
  }

  /** At any moment the maximum is a value some writer has started to record, or zero. */
  lemma MaximumIsRecorded(values: seq<nat>, capacity: nat, steps: seq<Step>)
    requires capacity > 0 && IsRun(Start(values, capacity), steps)
    ensures var s := After(Start(values, capacity), steps);
            && |s.pcs| == |values|
            && (s.maximum == 0 || exists w :: 0 <= w < |values| && !s.pcs[w].Waiting? && values[w] == s.maximum)
  {
    StartInv(values, capacity);
    hide IsRun, After;
    RunKeepsInv(Start(values, capacity), steps);
  }

  /**
    When all writers are done, in whatever order their steps happened: the maximum is the
    greatest recorded value, the total is the sum modulo 2^64, and if the ring was large enough its slots
    hold exactly the recorded values.
   */
  lemma QuiescentRing(values: seq<nat>, capacity: nat, steps: seq<Step>)
    requires capacity > 0 && IsRun(Start(values, capacity), steps)
    requires Quiescent(After(Start(values, capacity), steps))
    ensures var s := After(Start(values, capacity), steps);
            && IsGreatest(values, s.maximum)
            && s.total == Sum(values) % TWO_TO_64
            && (|values| <= capacity ==> SlotContents(s.slots) == multiset(values))
  {
    StartInv(values, capacity);
    hide IsRun, After;
    var s := After(Start(values, capacity), steps);
    RunKeepsInv(Start(values, capacity), steps);
    AllCounted(s.values, s.pcs);
    GreatestOfDone(s);
    if |values| <= capacity {
      RunKeepsSlots(Start(values, capacity), steps);
    }
  }

  lemma GreatestOfDone(s: State)
    requires Inv(s) && Quiescent(s)
    ensures IsGreatest(s.values, s.maximum)
  {
    hide SummedTotal, DistinctIndices;
    if s.values != [] {
      assert s.pcs[0].Done?;
      assert s.values[0] <= s.maximum;
      if s.maximum == 0 {
        assert s.values[0] == 0;
      }
    }
  }
}
