/**
  The operations of the bounded packet queue (src/input.cpp:2374-2480) as functions on
  queue values. The class in PacketQueue.dfy is proved to compute exactly these.
 */
module QueueSpec {
  import opened Options
  import opened Packets

  datatype Entry = Entry(packet: Packet, receivedAt: int)

  datatype Queue = Queue(capacity: nat, entries: seq<Entry>, accepting: bool, workerScheduled: bool)

  predicate Bounded(q: Queue) {
    1 <= q.capacity && |q.entries| <= q.capacity
  }

  datatype EnqueueResult = EnqueueResult(accepted: bool, scheduleWorker: bool, coalesced: nat, dropped: nat)

  const REJECTED := EnqueueResult(false, false, 0, 0)

  /** A producer either returns or is left waiting for space. */
  datatype PushStep = Waiting | Returned(result: EnqueueResult)

  datatype QueuedPacket = QueuedPacket(packet: Packet, receivedAt: int, coalesced: nat)

  function PacketsOf(es: seq<Entry>): (ps: seq<Packet>)
    ensures |ps| == |es| && forall i | 0 <= i < |es| :: ps[i] == es[i].packet
  {
    seq(|es|, i requires 0 <= i < |es| => es[i].packet)
  }

  // ----- Searching for a partner -----

  /** The scan of `push` from the back over the first `end` entries. */
  function BackwardMatch(es: seq<Entry>, p: Packet, end: nat): (r: Option<nat>)
    requires end <= |es|
    ensures r.Some? ==> r.value < end && Batch(es[r.value].packet, p).Batched?
    ensures r.Some? ==> forall i | r.value < i < end :: Batch(es[i].packet, p) == NotBatchable
  {
    if end == 0 then None
    else match Batch(es[end - 1].packet, p)
      case Batched(_) => Some(end - 1)
      case TerminateBatch => None
      case NotBatchable => BackwardMatch(es, p, end - 1)
  }

  /** The scan of the overflow loop for a later entry that `d` can be combined with. */
  function ForwardMatch(d: Packet, es: seq<Entry>, start: nat): (r: Option<nat>)
    requires start <= |es|
    ensures r.Some? ==> start <= r.value < |es| && Batch(d, es[r.value].packet).Batched?
    ensures r.Some? ==> forall i | start <= i < r.value :: Batch(d, es[i].packet) == NotBatchable
    decreases |es| - start
  {
    if start == |es| then None
    else match Batch(d, es[start].packet)
      case Batched(_) => Some(start)
      case TerminateBatch => None
      case NotBatchable => ForwardMatch(d, es, start + 1)
  }

  /** The oldest entry with a partner, and that partner. */
  function OldestPair(es: seq<Entry>, start: nat): (r: Option<(nat, nat)>)
    requires start <= |es|
    ensures r.Some? ==> start <= r.value.0 < r.value.1 < |es|
    ensures r.Some? ==> ForwardMatch(es[r.value.0].packet, es, r.value.0 + 1) == Some(r.value.1)
    decreases |es| - start
  {
    if start == |es| then None
    else match ForwardMatch(es[start].packet, es, start + 1)
      case Some(j) => Some((start, j))
      case None => OldestPair(es, start + 1)
  }

  function OldestDroppable(es: seq<Entry>, start: nat): (r: Option<nat>)
    requires start <= |es|
    ensures r.Some? ==> start <= r.value < |es| && IsDroppableMotion(es[r.value].packet)
    ensures forall i | start <= i < (if r.Some? then r.value else |es|) :: !IsDroppableMotion(es[i].packet)
    decreases |es| - start
  {
    if start == |es| then None
    else if IsDroppableMotion(es[start].packet) then Some(start)
    else OldestDroppable(es, start + 1)
  }

  function Min(a: int, b: int): int {
    if a <= b then a else b
  }

  function RemoveAt<T>(s: seq<T>, i: nat): seq<T>
    requires i < |s|
  {
    s[..i] + s[i + 1..]
  }

  /** Entry `i` is combined into entry `j` and leaves the list. */
  function CombineInto(es: seq<Entry>, i: nat, j: nat): seq<Entry>
    requires i < j < |es| && Batch(es[i].packet, es[j].packet).Batched?
  {
    RemoveAt(es[j := Entry(Batch(es[i].packet, es[j].packet).merged, Min(es[i].receivedAt, es[j].receivedAt))], i)
  }

  // ----- Operations on queue values -----

  function Append(q: Queue, packet: Packet, now: int, coalesced: nat, dropped: nat): (r: (Queue, PushStep))
    ensures r.0.capacity == q.capacity
  {
    (q.(entries := q.entries + [Entry(packet, now)], workerScheduled := true),
     Returned(EnqueueResult(true, !q.workerScheduled, coalesced, dropped)))
  }

  datatype Room = Room(entries: seq<Entry>, coalesced: nat, dropped: nat) | NoRoom

  /** One round of the overflow loop: combine the oldest pair, else drop the oldest droppable motion. */
  function MakeRoom(es: seq<Entry>): (r: Room)
    ensures r.Room? ==> |r.entries| == |es| - 1 && r.coalesced + r.dropped == 1
  {
    match OldestPair(es, 0)
    case Some(p) => Room(CombineInto(es, p.0, p.1), 1, 0)
    case None =>
      match OldestDroppable(es, 0)
      case Some(i) => Room(RemoveAt(es, i), 0, 1)
      case None => NoRoom
  }

  function Push(q: Queue, packet: Packet, now: int): (r: (Queue, PushStep))
    ensures r.0.capacity == q.capacity
  {
    var es := q.entries;
    if !q.accepting then (q, Returned(REJECTED))
    else match BackwardMatch(es, packet, |es|)
      case Some(i) =>
        (q.(entries := es[i := es[i].(packet := Batch(es[i].packet, packet).merged)]),
         Returned(EnqueueResult(true, false, 1, 0)))
      case None =>
        if |es| < q.capacity then Append(q, packet, now, 0, 0)
        else match MakeRoom(es)
          case Room(shorter, c, d) => Append(q.(entries := shorter), packet, now, c, d)
          case NoRoom => (q, Waiting)
  }

  /** What a waiting producer waits for. */
  predicate MayWake(q: Queue) {
    !q.accepting || |q.entries| < q.capacity
  }

  /** A producer that waited does not scan for a partner again. */
  function FinishPush(q: Queue, packet: Packet, now: int): (r: (Queue, PushStep))
    requires MayWake(q)
    ensures r.0.capacity == q.capacity
  {
    if !q.accepting then (q, Returned(REJECTED)) else Append(q, packet, now, 0, 0)
  }

  datatype Drain = Drain(packet: Packet, rest: seq<Entry>, coalesced: nat)

  /** The forward merge of `pop`: every compatible later packet is combined into `d`. */
  function MergeForward(d: Packet, es: seq<Entry>): Drain
    decreases |es|
  {
    if es == [] then Drain(d, [], 0)
    else match Batch(d, es[0].packet)
      case Batched(m) => var r := MergeForward(m, es[1..]); r.(coalesced := r.coalesced + 1)
      case TerminateBatch => Drain(d, es, 0)
      case NotBatchable => var r := MergeForward(d, es[1..]); r.(rest := [es[0]] + r.rest)
  }

  function Pop(q: Queue): (r: (Queue, Option<QueuedPacket>))
    ensures r.0.capacity == q.capacity
  {
    if q.entries == [] then (q, None)
    else
      var r := MergeForward(q.entries[0].packet, q.entries[1..]);
      (q.(entries := r.rest), Some(QueuedPacket(r.packet, q.entries[0].receivedAt, r.coalesced)))
  }

  function WorkerFinished(q: Queue): (Queue, bool) {
    if !q.accepting || q.entries == [] then (q.(workerScheduled := false), false) else (q, true)
  }

  function Stop(q: Queue): Queue {
    q.(accepting := false, entries := [])
  }

  function Resume(q: Queue): Queue {
    q.(accepting := true)
  }
}
