/**
  Ownership of the queue by its single worker (src/input.cpp:2436-2480, 2508-2609):
  producers that still owe the thread pool a task, tasks pending in the pool, and workers
  between their calls into the queue, interleaved in any order with stop and resume.
 */
module WorkerProtocol {
  import opened Options
  import opened Packets
  import opened QueueSpec

  /**
    Running workers are counted by where they stand in `passthrough_next_message`: before
    pop, after popping a packet, after popping nothing, and after being told to go on.
   */
  datatype State = State(
    queue: Queue,
    waiting: multiset<Packet>,
    owed: nat,      // producers told to schedule the worker that have not done so yet
    pending: nat,   // worker tasks in the thread pool
    started: nat,
    injecting: nat,
    foundEmpty: nat,
    rescheduling: nat)

  datatype Step =
    | Push(packet: Packet, now: int)
    | Wake(packet: Packet, now: int)
    | ScheduleTask        // a producer pays what it owes
    | StartTask
    | PopPacket
    | FinishAfterInject
    | FinishAfterEmpty
    | PushTask            // a rescheduling worker pushes the next task and ends
    | Stop
    | Resume

  function Start(capacity: nat): State {
    State(Queue(if capacity < 1 then 1 else capacity, [], true, false), multiset{}, 0, 0, 0, 0, 0, 0)
  }

  predicate Enabled(s: State, e: Step) {
    match e
    case Push(_, _) => true
    case Wake(p, _) => p in s.waiting && MayWake(s.queue)
    case ScheduleTask => s.owed > 0
    case StartTask => s.pending > 0
    case PopPacket => s.started > 0
    case FinishAfterInject => s.injecting > 0
    case FinishAfterEmpty => s.foundEmpty > 0
    case PushTask => s.rescheduling > 0
    case Stop => true
    case Resume => true
  }

  function Owe(s: State, step: PushStep): nat {
    if step.Returned? && step.result.scheduleWorker then s.owed + 1 else s.owed
  }

  function Next(s: State, e: Step): State
    requires Enabled(s, e)
  {
    match e
    case Push(p, now) =>
      var (q, step) := QueueSpec.Push(s.queue, p, now);
      s.(queue := q, owed := Owe(s, step), waiting := if step.Waiting? then s.waiting + multiset{p} else s.waiting)
    case Wake(p, now) =>
      var (q, step) := FinishPush(s.queue, p, now);
      s.(queue := q, owed := Owe(s, step), waiting := s.waiting - multiset{p})
    case ScheduleTask => s.(owed := s.owed - 1, pending := s.pending + 1)
    case StartTask => s.(pending := s.pending - 1, started := s.started + 1)
    case PopPacket =>
      var (q, popped) := Pop(s.queue);
      if popped.None? then s.(queue := q, started := s.started - 1, foundEmpty := s.foundEmpty + 1)
      else s.(queue := q, started := s.started - 1, injecting := s.injecting + 1)
    case FinishAfterInject =>
      var (q, again) := WorkerFinished(s.queue);
      if again then s.(queue := q, injecting := s.injecting - 1, rescheduling := s.rescheduling + 1)
      else s.(queue := q, injecting := s.injecting - 1)
    case FinishAfterEmpty => s.(queue := WorkerFinished(s.queue).0, foundEmpty := s.foundEmpty - 1)
    case PushTask => s.(pending := s.pending + 1, rescheduling := s.rescheduling - 1)
    case Stop => s.(queue := QueueSpec.Stop(s.queue))
    case Resume => s.(queue := QueueSpec.Resume(s.queue))
  }

  predicate IsRun(s: State, steps: seq<Step>)
    decreases |steps|
  {
    steps == [] || (Enabled(s, steps[0]) && IsRun(Next(s, steps[0]), steps[1..]))
  }

  function After(s: State, steps: seq<Step>): State
    requires IsRun(s, steps)
    decreases |steps|
  {
    if steps == [] then s else After(Next(s, steps[0]), steps[1..])
  }

  /** Worker tasks owed, pending or running. */
  function Workers(s: State): nat {
    s.owed + s.pending + s.started + s.injecting + s.foundEmpty + s.rescheduling
  }

  // ----- At most one worker, in every run -----

  /** A worker exists only while the queue believes so. */
  predicate SoleOwner(s: State) {
    Workers(s) <= (if s.queue.workerScheduled then 1 else 0)
  }

  lemma WorkerFlag(q: Queue, p: Packet, now: int)
    ensures var r := QueueSpec.Push(q, p, now);
            && (r.1.Returned? && r.1.result.scheduleWorker <==> !q.workerScheduled && r.0.workerScheduled)
            && (q.workerScheduled ==> r.0.workerScheduled)
  {
    hide BackwardMatch, MakeRoom, Batch;
  }

  lemma StepKeepsSoleOwner(s: State, e: Step)
    requires SoleOwner(s) && Enabled(s, e)
    ensures SoleOwner(Next(s, e))
  {
    hide QueueSpec.Push, QueueSpec.Pop;
    match e
    case Push(p, now) => WorkerFlag(s.queue, p, now);
    case PopPacket => PopKeepsFlags(s.queue);
    case _ =>
  }

  lemma PopKeepsFlags(q: Queue)
    ensures var r := QueueSpec.Pop(q);
            && r.0.workerScheduled == q.workerScheduled && r.0.accepting == q.accepting
            && (r.1.None? <==> q.entries == []) && (r.1.None? ==> r.0 == q)
  {
    hide MergeForward;
  }

  /** In every interleaving at most one worker task is owed, pending or running. */
  lemma {:induction false} AtMostOneWorker(s: State, steps: seq<Step>)
    requires SoleOwner(s) && IsRun(s, steps)
    ensures SoleOwner(After(s, steps)) && Workers(After(s, steps)) <= 1
    decreases |steps|
  {
    if steps == [] {
    } else {
      StepKeepsSoleOwner(s, steps[0]);
      AtMostOneWorker(Next(s, steps[0]), steps[1..]);
    }
  }

  // ----- No lost wakeup unless resume overtakes a worker -----

  /** Input that may be delivered has a worker. */
  predicate Attended(s: State) {
    s.queue.accepting && s.queue.entries != [] ==> Workers(s) == 1
  }

  /** The worker's finishing call whose result is ignored would have asked it to go on. */
  predicate IgnoresWork(s: State, e: Step) {
    e.FinishAfterEmpty? && s.queue.accepting && s.queue.entries != []
  }

  /** Scheduled and no worker left to clear the flag. */
  predicate Abandoned(s: State) {
    s.queue.workerScheduled && Workers(s) == 0
  }

  /** A worker owns the queue exactly while the queue says one is scheduled. */
  predicate Owned(s: State) {
    Workers(s) == (if s.queue.workerScheduled then 1 else 0)
    && (s.queue.entries != [] ==> s.queue.workerScheduled && s.queue.accepting)
  }

  lemma PushSchedules(q: Queue, p: Packet, now: int)
    requires q.entries != [] ==> q.workerScheduled && q.accepting
    ensures var r := QueueSpec.Push(q, p, now).0; r.entries != [] ==> r.workerScheduled && r.accepting
  {
    hide BackwardMatch, MakeRoom, Batch;
  }

  /**
    From a state whose queue is owned, a step leads to a state that is not owned exactly
    when it is the finishing call whose result is ignored although work is waiting. Then the
    queue stays marked as scheduled with no worker.
   */
  lemma OnlyIgnoredWorkIsLost(s: State, e: Step)
    requires Owned(s) && Enabled(s, e)
    ensures Owned(Next(s, e)) <==> !IgnoresWork(s, e)
    ensures IgnoresWork(s, e) ==> Abandoned(Next(s, e)) && !Attended(Next(s, e))
  {
    hide QueueSpec.Push, QueueSpec.Pop;
    match e
    case Push(p, now) =>
      WorkerFlag(s.queue, p, now);
      PushSchedules(s.queue, p, now);
    case PopPacket => PopKeepsFlags(s.queue);
    case _ =>
  }

  /**
    When input is accepted again, no worker of before the stop is left but one that is
    injecting: its finishing call will be honoured.
   */
  predicate ResumesWhenIdle(s: State, steps: seq<Step>)
    requires IsRun(s, steps)
    decreases |steps|
  {
    steps == [] ||
    ((steps[0].Resume? && !s.queue.accepting ==> Workers(s) == s.injecting) && ResumesWhenIdle(Next(s, steps[0]), steps[1..]))
  }

  /** While input is accepted, a worker that has yet to pop will find something, and none found nothing. */
  predicate NeverEmptyHanded(s: State) {
    s.queue.accepting ==>
      && s.foundEmpty == 0
      && (s.owed > 0 || s.pending > 0 || s.started > 0 || s.rescheduling > 0 ==> s.queue.entries != [])
  }

  lemma PushKeepsEntries(q: Queue, p: Packet, now: int)
    ensures var r := QueueSpec.Push(q, p, now);
            && r.0.accepting == q.accepting
            && (q.entries != [] ==> r.0.entries != [])
            && (r.1.Returned? && r.1.result.scheduleWorker ==> r.0.entries != [])
  {
    hide BackwardMatch, Batch;
  }

  lemma StepKeepsNeverEmptyHanded(s: State, e: Step)
    requires Owned(s) && NeverEmptyHanded(s) && Enabled(s, e)
    requires e.Resume? && !s.queue.accepting ==> Workers(s) == s.injecting
    ensures NeverEmptyHanded(Next(s, e))
  {
    hide QueueSpec.Push, QueueSpec.Pop;
    match e
    case Push(p, now) => PushKeepsEntries(s.queue, p, now);
    case PopPacket => PopKeepsFlags(s.queue);
    case _ =>
  }

  /**
    If resume never overtakes a worker scheduled before the stop, except an injecting one, then in every reachable
    state accepted input has a worker, so a producer blocked on the full queue waits for a
    worker that can take its next step.
   */
  lemma {:induction false} NoLostWakeup(s: State, steps: seq<Step>)
    requires Owned(s) && NeverEmptyHanded(s) && IsRun(s, steps) && ResumesWhenIdle(s, steps)
    ensures Owned(After(s, steps)) && NeverEmptyHanded(After(s, steps)) && Attended(After(s, steps))
    decreases |steps|
  {
    if steps == [] {
    } else {
      StepKeepsNeverEmptyHanded(s, steps[0]);
      OnlyIgnoredWorkIsLost(s, steps[0]);
      NoLostWakeup(Next(s, steps[0]), steps[1..]);
    }
  }

  /** The steps that move a worker towards its next pop. */
  predicate IsWorkerStep(e: Step) {
    e.ScheduleTask? || e.StartTask? || e.PopPacket? || e.FinishAfterInject? || e.FinishAfterEmpty? || e.PushTask?
  }

  lemma BlockedProducerHasWorker(capacity: nat, steps: seq<Step>)
    requires IsRun(Start(capacity), steps) && ResumesWhenIdle(Start(capacity), steps)
    ensures var s := After(Start(capacity), steps);
            s.queue.accepting && |s.queue.entries| >= s.queue.capacity >= 1 ==>
              exists e :: IsWorkerStep(e) && Enabled(s, e)
  {
    NoLostWakeup(Start(capacity), steps);
    var s := After(Start(capacity), steps);
    if s.queue.accepting && |s.queue.entries| >= s.queue.capacity >= 1 {
      assert Workers(s) == 1;
      if s.owed > 0 {
        assert Enabled(s, ScheduleTask) && IsWorkerStep(ScheduleTask);
      } else if s.pending > 0 {
        assert Enabled(s, StartTask) && IsWorkerStep(StartTask);
      } else {
        var e := if s.started > 0 then PopPacket
          else if s.injecting > 0 then FinishAfterInject
          else if s.foundEmpty > 0 then FinishAfterEmpty
          else PushTask;
        assert Enabled(s, e) && IsWorkerStep(e);
      }
    }
  }

  // ----- The bad run, and why it does not heal -----

  /** Stop clears the queue under a scheduled worker, and resume comes before that worker is done. */
  function BadStep(p0: Packet, p1: Packet, k: nat): Step {
    if k == 0 then Push(p0, 0)
    else if k == 1 then ScheduleTask
    else if k == 2 then Stop
    else if k == 3 then StartTask
    else if k == 4 then PopPacket
    else if k == 5 then Resume
    else if k == 6 then Push(p1, 1)
    else FinishAfterEmpty
  }

  function BadRunFrom(p0: Packet, p1: Packet, k: nat): seq<Step>
    decreases 8 - k
  {
    if k >= 8 then [] else [BadStep(p0, p1, k)] + BadRunFrom(p0, p1, k + 1)
  }

  lemma RunNothing(s: State)
    ensures IsRun(s, []) && After(s, []) == s
  {
  }

  lemma RunOneStep(s: State, e: Step, rest: seq<Step>)
    requires Enabled(s, e)
    ensures IsRun(s, [e] + rest) <==> IsRun(Next(s, e), rest)
    ensures IsRun(s, [e] + rest) ==> After(s, [e] + rest) == After(Next(s, e), rest)
  {
    assert ([e] + rest)[1..] == rest;
    hide Next, Enabled;
  }

  lemma PushIntoEmpty(q: Queue, p: Packet, now: int)
    requires q.accepting && q.entries == [] && q.capacity >= 1
    ensures QueueSpec.Push(q, p, now) == Append(q, p, now, 0, 0)
  {
  }

  /** The states of the bad run. */
  function BadState(capacity: nat, p0: Packet, p1: Packet, k: nat): State {
    var s := Start(capacity);
    var n := s.queue.capacity;
    var first, second := [Entry(p0, 0)], [Entry(p1, 1)];
    if k == 0 then s
    else if k == 1 then s.(queue := Queue(n, first, true, true), owed := 1)
    else if k == 2 then s.(queue := Queue(n, first, true, true), pending := 1)
    else if k == 3 then s.(queue := Queue(n, [], false, true), pending := 1)
    else if k == 4 then s.(queue := Queue(n, [], false, true), started := 1)
    else if k == 5 then s.(queue := Queue(n, [], false, true), foundEmpty := 1)
    else if k == 6 then s.(queue := Queue(n, [], true, true), foundEmpty := 1)
    else if k == 7 then s.(queue := Queue(n, second, true, true), foundEmpty := 1)
    else s.(queue := Queue(n, second, true, true))
  }

  lemma BadStepTaken(capacity: nat, p0: Packet, p1: Packet, k: nat)
    requires k < 8
    ensures var s, e := BadState(capacity, p0, p1, k), BadStep(p0, p1, k);
            Enabled(s, e) && BadState(capacity, p0, p1, k + 1) == Next(s, e)
  {
    hide QueueSpec.Push, QueueSpec.Pop, MayWake;
    var s, e := BadState(capacity, p0, p1, k), BadStep(p0, p1, k);
    PopKeepsFlags(s.queue);
    if k == 0 {
      PushIntoEmpty(s.queue, p0, 0);
    } else if k == 6 {
      PushIntoEmpty(s.queue, p1, 1);
    } else {
      hide Append;
    }
  }

  lemma {:induction false} BadRunChain(capacity: nat, p0: Packet, p1: Packet, k: nat)
    requires k <= 8
    ensures var s, run := BadState(capacity, p0, p1, k), BadRunFrom(p0, p1, k);
            IsRun(s, run) && After(s, run) == BadState(capacity, p0, p1, 8)
    decreases 8 - k
  {
    hide Next, Enabled, BadState, BadStep, IsRun, After;
    if k == 8 {
      RunNothing(BadState(capacity, p0, p1, 8));
    } else {
      BadStepTaken(capacity, p0, p1, k);
      BadRunChain(capacity, p0, p1, k + 1);
      RunOneStep(BadState(capacity, p0, p1, k), BadStep(p0, p1, k), BadRunFrom(p0, p1, k + 1));
    }
  }

  /**
    Resume overtakes the worker scheduled before the stop: for any two packets the second
    one is accepted and stays in the queue with no worker.
   */
  lemma ResumeOvertakingLosesTheWorker(capacity: nat, p0: Packet, p1: Packet)
    ensures var s, run := Start(capacity), BadRunFrom(p0, p1, 0);
            IsRun(s, run) && After(s, run).queue.accepting && |After(s, run).queue.entries| == 1 && Abandoned(After(s, run))
  {
    BadRunChain(capacity, p0, p1, 0);
    hide IsRun, After, BadRunFrom;
  }

  lemma AbandonedStep(s: State, e: Step)
    requires Abandoned(s) && Enabled(s, e)
    ensures Abandoned(Next(s, e)) && !IsWorkerStep(e)
  {
    if e.Push? {
      WorkerFlag(s.queue, e.packet, e.now);
    }
    hide QueueSpec.Push;
  }

  /** Once abandoned, the queue never gets a worker again: nothing is ever popped, whatever happens next. */
  lemma {:induction false} AbandonedForever(s: State, steps: seq<Step>)
    requires Abandoned(s) && IsRun(s, steps)
    ensures Abandoned(After(s, steps))
    ensures forall i | 0 <= i < |steps| :: !IsWorkerStep(steps[i])
    decreases |steps|
  {
    if steps == [] {
    } else {
      var e := steps[0];
      AbandonedStep(s, e);
      hide Next, Enabled, Abandoned, IsWorkerStep;
      AbandonedForever(Next(s, e), steps[1..]);
      assert forall i | 0 < i < |steps| :: steps[i] == steps[1..][i - 1];
    }
  }

  // ----- Exactly which resumes are dangerous -----

  predicate IsStopFree(steps: seq<Step>) {
    forall e | e in steps :: !e.Stop?
  }

  /** Some continuation without a further stop ends with the queue abandoned. */
  ghost predicate MayLoseWorker(s: State) {
    exists steps :: IsRun(s, steps) && IsStopFree(steps) && Abandoned(After(s, steps))
  }

  lemma StepKeepsAccepting(s: State, e: Step)
    requires Enabled(s, e) && s.queue.accepting && !e.Stop?
    ensures Next(s, e).queue.accepting
  {
    hide QueueSpec.Push, QueueSpec.Pop;
    match e
    case Push(p, now) => PushKeepsEntries(s.queue, p, now);
    case PopPacket => PopKeepsFlags(s.queue);
    case _ =>
  }

  lemma {:induction false} StopFreeResumesWhenIdle(s: State, steps: seq<Step>)
    requires s.queue.accepting && IsRun(s, steps) && IsStopFree(steps)
    ensures ResumesWhenIdle(s, steps)
    decreases |steps|
  {
    if steps == [] {
    } else {
      assert steps[0] in steps && forall e | e in steps[1..] :: e in steps;
      StepKeepsAccepting(s, steps[0]);
      hide Next, Enabled;
      StopFreeResumesWhenIdle(Next(s, steps[0]), steps[1..]);
    }
  }

  /** One step before a run that loses the worker. */
  lemma LosesAfter(s: State, e: Step)
    requires Enabled(s, e) && !e.Stop? && MayLoseWorker(Next(s, e))
    ensures MayLoseWorker(s)
  {
    var rest :| IsRun(Next(s, e), rest) && IsStopFree(rest) && Abandoned(After(Next(s, e), rest));
    RunOneStep(s, e, rest);
    hide Next, Enabled, Abandoned, IsRun, After;
    var steps := [e] + rest;
    assert IsRun(s, steps) && IsStopFree(steps) && Abandoned(After(s, steps));
  }

  lemma LosesNow(s: State)
    requires Abandoned(s)
    ensures MayLoseWorker(s)
  {
    RunNothing(s);
    var steps: seq<Step> := [];
    assert IsStopFree(steps);
  }

  /** An accepting, empty queue whose worker has not popped yet. */
  predicate OnTheWay(s: State) {
    && s.queue.accepting && s.queue.entries == [] && s.queue.workerScheduled && s.queue.capacity >= 1
    && Workers(s) == 1 && s.injecting == 0
  }

  lemma FoundEmptyLoses(s: State, p: Packet)
    requires OnTheWay(s) && s.foundEmpty == 1
    ensures MayLoseWorker(s)
  {
    var s1 := Next(s, Push(p, 0));
    PushIntoEmpty(s.queue, p, 0);
    assert Abandoned(Next(s1, FinishAfterEmpty));
    LosesNow(Next(s1, FinishAfterEmpty));
    LosesAfter(s1, FinishAfterEmpty);
    LosesAfter(s, Push(p, 0));
  }

  /** A worker that is on its way finds the empty queue, and then ignores what arrives. */
  lemma OnTheWayLoses(s: State, p: Packet)
    requires OnTheWay(s)
    ensures MayLoseWorker(s)
    decreases 4 * s.rescheduling + 3 * s.owed + 2 * s.pending + s.started
  {
    if s.foundEmpty == 1 {
      FoundEmptyLoses(s, p);
    } else {
      var e := if s.rescheduling == 1 then PushTask
        else if s.owed == 1 then ScheduleTask
        else if s.pending == 1 then StartTask
        else PopPacket;
      hide MayLoseWorker, QueueSpec.Push;
      OnTheWayLoses(Next(s, e), p);
      LosesAfter(s, e);
    }
  }

  /**
    For a resume after a stop: some continuation without another stop loses the worker if and
    only if one is owed, pending or running that is not injecting.
   */
  lemma ResumeLosesExactly(s: State, p: Packet)
    requires Owned(s) && !s.queue.accepting && s.queue.capacity >= 1
    ensures MayLoseWorker(Next(s, Resume)) <==> Workers(s) != s.injecting
  {
    var r := Next(s, Resume);
    hide QueueSpec.Push, QueueSpec.Pop;
    if Workers(s) != s.injecting {
      OnTheWayLoses(r, p);
    } else if MayLoseWorker(r) {
      var steps :| IsRun(r, steps) && IsStopFree(steps) && Abandoned(After(r, steps));
      hide IsRun, After, ResumesWhenIdle;
      StopFreeResumesWhenIdle(r, steps);
      NoLostWakeup(r, steps);
      assert false;
    }
  }
}
