/**
  The bounded packet queue (src/input.cpp:2348-2485): a class whose methods run the
  original loops on their own fields, each proved against its function in QueueSpec.
 */
module PacketQueue {
  import opened Options
  import opened Packets
  import opened QueueSpec

  class BoundedPacketQueue {
    const capacity: nat
    var packets: seq<Entry>
    var accepting: bool
    var workerScheduled: bool

    ghost function Value(): Queue
      reads this
    {
      Queue(capacity, packets, accepting, workerScheduled)
    }

    ghost predicate Valid()
      reads this
    {
      Bounded(Value())
    }

    constructor (requested: nat)
      ensures Valid()
      ensures Value() == Queue(if requested < 1 then 1 else requested, [], true, false)
    {
      capacity := if requested < 1 then 1 else requested;
      packets := [];
      accepting := true;
      workerScheduled := false;
    }

    method PushBack(packet: Packet, now: int) returns (scheduleWorker: bool)
      requires |packets| < capacity
      modifies this
      ensures Valid()
      ensures Value() == Append(old(Value()), packet, now, 0, 0).0
      ensures scheduleWorker == !old(workerScheduled)
    {
      packets := packets + [Entry(packet, now)];
      scheduleWorker := !workerScheduled;
      if !workerScheduled {
        workerScheduled := true;
      }
    }

    /** The backward scan of `push`: combines `packet` with a queued one if the rules allow. */
    method Coalesce(packet: Packet) returns (coalesced: bool)
      requires Valid()
      modifies this`packets
      ensures Valid()
      ensures var es := old(packets);
              match BackwardMatch(es, packet, |es|)
              case None => !coalesced && packets == es
              case Some(i) => coalesced && packets == es[i := es[i].(packet := Batch(es[i].packet, packet).merged)]
    {
      hide Batch;
      var position: nat := |packets|;
      while position > 0
        invariant position <= |packets| && packets == old(packets)
        invariant BackwardMatch(packets, packet, |packets|) == BackwardMatch(packets, packet, position)
      {
        position := position - 1;
        match Batch(packets[position].packet, packet) {
          case Batched(merged) =>
            packets := packets[position := packets[position].(packet := merged)];
            return true;
          case TerminateBatch =>
            return false;
          case NotBatchable =>
        }
      }
      return false;
    }

    /** The forward compaction of the overflow loop: combines the oldest pair, if there is one. */
    method Compact() returns (madeRoom: bool)
      requires Valid()
      modifies this`packets
      ensures var es := old(packets);
              match OldestPair(es, 0)
              case None => !madeRoom && packets == es
              case Some(p) => madeRoom && packets == CombineInto(es, p.0, p.1)
      ensures madeRoom ==> |packets| == |old(packets)| - 1
    {
      hide Batch, CombineInto, RemoveAt, Min;
      var position := 0;
      while position < |packets|
        invariant position <= |packets| && packets == old(packets)
        invariant OldestPair(packets, 0) == OldestPair(packets, position)
      {
        var later := position + 1;
        var combined := packets[position].packet;
        var scanning := true;
        while scanning && later < |packets|
          invariant position < later <= |packets| && packets == old(packets)
          invariant ForwardMatch(combined, packets, position + 1)
                 == if scanning then ForwardMatch(combined, packets, later) else None
          decreases scanning, |packets| - later
        {
          match Batch(combined, packets[later].packet) {
            case Batched(merged) =>
              CombinedInPlace(packets, position, later);
              packets := packets[later := Entry(merged, Min(packets[position].receivedAt, packets[later].receivedAt))];
              packets := packets[..position] + packets[position + 1..];
              return true;
            case TerminateBatch =>
              scanning := false;
            case NotBatchable =>
              later := later + 1;
          }
        }
        position := position + 1;
      }
      return false;
    }

    /** Drop the oldest motion packet that carries no edge, if there is one. */
    method DropStaleMotion() returns (madeRoom: bool)
      requires Valid()
      modifies this`packets
      ensures var es := old(packets);
              match OldestDroppable(es, 0)
              case None => !madeRoom && packets == es
              case Some(i) => madeRoom && packets == RemoveAt(es, i)
      ensures madeRoom ==> |packets| == |old(packets)| - 1
    {
      var position := 0;
      while position < |packets|
        invariant position <= |packets| && packets == old(packets)
        invariant OldestDroppable(packets, 0) == OldestDroppable(packets, position)
      {
        if IsDroppableMotion(packets[position].packet) {
          packets := packets[..position] + packets[position + 1..];
          return true;
        }
        position := position + 1;
      }
      return false;
    }

    method Push(packet: Packet, now: int) returns (step: PushStep)
      requires Valid()
      modifies this
      ensures Valid()
      ensures (Value(), step) == QueueSpec.Push(old(Value()), packet, now)
    {
      hide Batch, BackwardMatch, OldestPair, OldestDroppable;
      if !accepting {
        return Returned(REJECTED);
      }
      var batched := Coalesce(packet);
      if batched {
        return Returned(EnqueueResult(true, false, 1, 0));
      }
      var coalesced, dropped := 0, 0;
      ghost var es := packets;
      while |packets| >= capacity
        invariant Valid() && accepting && workerScheduled == old(workerScheduled)
        invariant |packets| >= capacity ==> packets == es && coalesced == dropped == 0
        invariant |packets| < capacity ==>
                    if |es| < capacity then packets == es && coalesced == dropped == 0
                    else MakeRoom(es) == Room(packets, coalesced, dropped)
      {
        var madeRoom := Compact();
        if madeRoom {
          coalesced := coalesced + 1;
        } else {
          madeRoom := DropStaleMotion();
          if !madeRoom {
            return Waiting;
          }
          dropped := dropped + 1;
        }
      }
      ghost var roomy := Value();
      assert QueueSpec.Push(old(Value()), packet, now) == Append(roomy, packet, now, coalesced, dropped);
      var scheduleWorker := PushBack(packet, now);
      step := Returned(EnqueueResult(true, scheduleWorker, coalesced, dropped));
    }

    /** The rest of `push` after the condition a producer waited for has come true. */
    method FinishPush(packet: Packet, now: int) returns (step: PushStep)
      requires Valid() && MayWake(Value())
      modifies this
      ensures Valid()
      ensures (Value(), step) == QueueSpec.FinishPush(old(Value()), packet, now)
    {
      if !accepting {
        return Returned(REJECTED);
      }
      var scheduleWorker := PushBack(packet, now);
      return Returned(EnqueueResult(true, scheduleWorker, 0, 0));
    }

    method Pop() returns (popped: Option<QueuedPacket>)
      requires Valid()
      modifies this`packets
      ensures Valid()
      ensures (Value(), popped) == QueueSpec.Pop(old(Value()))
    {
      hide Batch;
      if packets == [] {
        return None;
      }
      var receivedAt := packets[0].receivedAt;
      var entry := packets[0].packet;
      packets := packets[1..];
      var coalesced, position := 0, 0;
      ghost var goal := MergeForward(entry, packets);
      ghost var kept, rest := [], packets;
      var scanning := true;
      while scanning && position < |packets|
        invariant packets == kept + rest && position == |kept| && |packets| < |old(packets)|
        invariant scanning ==>
                    var r := MergeForward(entry, rest);
                    goal == Drain(r.packet, kept + r.rest, coalesced + r.coalesced)
        invariant !scanning ==> goal == Drain(entry, packets, coalesced)
        decreases scanning, |rest|
      {
        match Batch(entry, packets[position].packet) {
          case Batched(merged) =>
            entry := merged;
            packets := packets[..position] + packets[position + 1..];
            coalesced := coalesced + 1;
            rest := rest[1..];
          case TerminateBatch =>
            scanning := false;
          case NotBatchable =>
            kept, rest := kept + [rest[0]], rest[1..];
            position := position + 1;
            assert forall t :: kept + t == kept[..position - 1] + ([kept[position - 1]] + t);
        }
      }
      assert scanning ==> rest == [] && kept + rest == kept;
      return Some(QueuedPacket(entry, receivedAt, coalesced));
    }

    method WorkerFinished() returns (again: bool)
      requires Valid()
      modifies this`workerScheduled
      ensures Valid()
      ensures (Value(), again) == QueueSpec.WorkerFinished(old(Value()))
    {
      if !accepting || packets == [] {
        workerScheduled := false;
        return false;
      }
      return true;
    }

    method Stop()
      requires Valid()
      modifies this
      ensures Valid() && Value() == QueueSpec.Stop(old(Value()))
    {
      accepting := false;
      packets := [];
    }

    method Resume()
      requires Valid()
      modifies this`accepting
      ensures Valid() && Value() == QueueSpec.Resume(old(Value()))
    {
      accepting := true;
    }
  }

  /** Writing the combination over the later entry and erasing the earlier one. */
  lemma CombinedInPlace(es: seq<Entry>, i: nat, j: nat)
    requires i < j < |es| && Batch(es[i].packet, es[j].packet).Batched?
    ensures var merged := Entry(Batch(es[i].packet, es[j].packet).merged, Min(es[i].receivedAt, es[j].receivedAt));
            && es[j := merged][..i] + es[j := merged][i + 1..] == CombineInto(es, i, j)
            && |CombineInto(es, i, j)| == |es| - 1
  {
    hide Batch;
  }
}
