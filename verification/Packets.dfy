/**
  Decoded client input packets and the rules that decide which of them may be
  combined (src/input.cpp:1964-2240). A packet here has already passed the size
  checks of the protocol decoder, so it is a value of a datatype and not bytes.
 */
module Packets {

  /** The signed 16-bit amounts that relative motion and scroll packets carry. */
  type Int16 = x: int | -0x8000 <= x < 0x8000

  predicate FitsInt16(x: int) {
    -0x8000 <= x < 0x8000
  }

  /** Touch and pen event types: the two batchable ones, and every other code. */
  datatype TouchEvent = Hover | Move | Transition(code: nat)

  /** Fields that no batching rule inspects are kept together as `detail`. */
  datatype Packet =
    | RelativeMouse(dx: Int16, dy: Int16)
    | AbsoluteMouse(x: int, y: int, width: int, height: int)
    | Scroll(amount1: Int16, amount2: int)
    | HScroll(amount: Int16)
    | Controller(number: int, mask: int, buttons: int, buttons2: int, detail: int)
    | Touch(event: TouchEvent, pointer: int, detail: int)
    | Pen(event: TouchEvent, penButtons: int, tool: int, detail: int)
    | ControllerTouch(number: int, event: TouchEvent, pointer: int, detail: int)
    | ControllerMotion(number: int, sensor: int, detail: int)
    | Discrete(magic: int, payload: int)  // keys, buttons, text, arrival, battery, unknown types

  datatype BatchResult = Batched(merged: Packet) | NotBatchable | TerminateBatch

  /** `batch_packets` and the nine typed `batch` overloads: combine a later packet into an earlier one. */
  function Batch(dest: Packet, src: Packet): BatchResult {
    match (dest, src)
    case (RelativeMouse(dx, dy), RelativeMouse(sx, sy)) =>
      if !FitsInt16(dx + sx) || !FitsInt16(dy + sy) then TerminateBatch
      else Batched(RelativeMouse(dx + sx, dy + sy))
    case (AbsoluteMouse(_, _, w, h), AbsoluteMouse(_, _, sw, sh)) =>
      if w != sw || h != sh then TerminateBatch else Batched(src)
    case (Scroll(a, _), Scroll(b, _)) =>
      if !FitsInt16(a + b) then TerminateBatch else Batched(Scroll(a + b, a + b))
    case (HScroll(a), HScroll(b)) =>
      if !FitsInt16(a + b) then TerminateBatch else Batched(HScroll(a + b))
    case (Controller(dn, dm, db, db2, _), Controller(sn, sm, sb, sb2, _)) =>
      if dm != sm then TerminateBatch
      else if dn != sn then NotBatchable
      else if db != sb || db2 != sb2 then TerminateBatch
      else Batched(src)
    case (Touch(de, dp, _), Touch(se, sp, _)) =>
      if de.Transition? || se.Transition? then TerminateBatch
      else if dp != sp then NotBatchable
      else if de != se then TerminateBatch
      else Batched(src)
    case (Pen(de, db, dt, _), Pen(se, sb, st, _)) =>
      if de.Transition? || de != se || db != sb || dt != st then TerminateBatch
      else Batched(src)
    case (ControllerTouch(dn, de, dp, _), ControllerTouch(sn, se, sp, _)) =>
      if de.Transition? then TerminateBatch
      else if dn != sn then NotBatchable
      else if se.Transition? then TerminateBatch
      else if dp != sp then NotBatchable
      else if de != se then TerminateBatch
      else Batched(src)
    case (ControllerMotion(dn, ds, _), ControllerMotion(sn, ss, _)) =>
      if dn != sn || ds != ss then NotBatchable else Batched(src)
    case _ => TerminateBatch
  }

  /** `is_intrinsically_droppable_motion`. */
  predicate IsDroppableMotion(p: Packet) {
    match p
    case RelativeMouse(_, _) => true
    case AbsoluteMouse(_, _, _, _) => true
    case Touch(e, _, _) => !e.Transition?
    case ControllerTouch(_, e, _, _) => !e.Transition?
    case ControllerMotion(_, _, _) => true
    case _ => false
  }

  /** An edge is a packet that is never combined with any other. */
  predicate IsEdge(p: Packet) {
    match p
    case Touch(e, _, _) => e.Transition?
    case Pen(e, _, _, _) => e.Transition?
    case ControllerTouch(_, e, _, _) => e.Transition?
    case Discrete(_, _) => true
    case _ => false
  }

  /** What an application can follow through the queue independently of the rest. */
  datatype Channel =
    | Relative
    | Absolute
    | VerticalScroll
    | HorizontalScroll
    | Pad(number: int)
    | Finger(pointer: int)
    | Stylus
    | PadFinger(number: int, pointer: int)
    | Sensor(number: int, sensor: int)

  function ChannelOf(p: Packet): Channel
    requires !p.Discrete?
  {
    match p
    case RelativeMouse(_, _) => Relative
    case AbsoluteMouse(_, _, _, _) => Absolute
    case Scroll(_, _) => VerticalScroll
    case HScroll(_) => HorizontalScroll
    case Controller(n, _, _, _, _) => Pad(n)
    case Touch(_, id, _) => Finger(id)
    case Pen(_, _, _, _) => Stylus
    case ControllerTouch(n, _, id, _) => PadFinger(n, id)
    case ControllerMotion(n, s, _) => Sensor(n, s)
  }

  /** Channels whose batching keeps the latest packet instead of a sum. */
  predicate KeepsLatest(ch: Channel) {
    !ch.Relative? && !ch.VerticalScroll? && !ch.HorizontalScroll?
  }

  /**
    A channel observes its own packets and every edge. The one exception is what the
    batching rules allow: a pad's finger motion may pass touch edges of another pad.
   */
  predicate Observes(ch: Channel, p: Packet) {
    if IsEdge(p) then !(ch.PadFinger? && p.ControllerTouch? && p.number != ch.number)
    else ChannelOf(p) == ch
  }

  /** `b` continues what `a` said: only the newer position, state or reading matters. */
  predicate Continues(a: Packet, b: Packet) {
    || (a.AbsoluteMouse? && b.AbsoluteMouse? && a.width == b.width && a.height == b.height)
    || (a.Controller? && b.Controller? && a.number == b.number && a.mask == b.mask
        && a.buttons == b.buttons && a.buttons2 == b.buttons2)
    || (a.Touch? && b.Touch? && a.event == b.event && !a.event.Transition? && a.pointer == b.pointer)
    || (a.Pen? && b.Pen? && a.event == b.event && !a.event.Transition? && a.penButtons == b.penButtons && a.tool == b.tool)
    || (a.ControllerTouch? && b.ControllerTouch? && a.number == b.number && a.pointer == b.pointer
        && a.event == b.event && !a.event.Transition?)
    || (a.ControllerMotion? && b.ControllerMotion? && a.number == b.number && a.sensor == b.sensor)
  }

  /** Both move or scroll by an amount, and the two amounts together still fit a packet. */
  predicate Adds(a: Packet, b: Packet) {
    || (a.RelativeMouse? && b.RelativeMouse? && -32768 <= a.dx + b.dx <= 32767 && -32768 <= a.dy + b.dy <= 32767)
    || (a.Scroll? && b.Scroll? && -32768 <= a.amount1 + b.amount1 <= 32767)
    || (a.HScroll? && b.HScroll? && -32768 <= a.amount + b.amount <= 32767)
  }

  predicate IsSumOf(m: Packet, a: Packet, b: Packet)
    requires Adds(a, b)
  {
    || (a.RelativeMouse? && m.RelativeMouse? && m.dx == a.dx + b.dx && m.dy == a.dy + b.dy)
    || (a.Scroll? && m.Scroll? && m.amount1 == m.amount2 == a.amount1 + b.amount1)
    || (a.HScroll? && m.HScroll? && m.amount == a.amount + b.amount)
  }

  /** `b` is about another pad, pointer or sensor than `a` and changes nothing that `a` depends on. */
  predicate Bypasses(a: Packet, b: Packet) {
    || (a.Controller? && b.Controller? && a.number != b.number && a.mask == b.mask)
    || (a.Touch? && b.Touch? && a.pointer != b.pointer && !a.event.Transition? && !b.event.Transition?)
    || (a.ControllerTouch? && b.ControllerTouch? && !a.event.Transition?
        && (a.number != b.number || (a.pointer != b.pointer && !b.event.Transition?)))
    || (a.ControllerMotion? && b.ControllerMotion? && (a.number != b.number || a.sensor != b.sensor))
  }

  predicate IsMouseMotion(p: Packet) {
    p.RelativeMouse? || p.AbsoluteMouse?
  }

  /** Moving `d` past `p` cannot be noticed: by any channel, by the set of pads, or by the cursor. */
  predicate Passable(d: Packet, p: Packet)
    requires !IsEdge(d)
  {
    && !Observes(ChannelOf(d), p)
    && (d.Controller? && p.Controller? ==> d.mask == p.mask)
    && !(IsMouseMotion(d) && IsMouseMotion(p))
  }

  // Facts about the rules.

  /**
    The rules, exactly: what continues replaces, amounts that fit are added, what is about
    another thing is passed over, and everything else is a barrier.
   */
  lemma BatchExactly(d: Packet, s: Packet)
    ensures Batch(d, s).Batched? <==> Continues(d, s) || Adds(d, s)
    ensures Continues(d, s) ==> Batch(d, s) == Batched(s)
    ensures Adds(d, s) ==> IsSumOf(Batch(d, s).merged, d, s)
    ensures Batch(d, s).NotBatchable? <==> Bypasses(d, s)
    ensures Batch(d, s).TerminateBatch? <==> !Continues(d, s) && !Adds(d, s) && !Bypasses(d, s)
  {
  }

  /** A packet is an edge exactly when no packet can ever be combined with it, on either side. */
  lemma EdgesNeverCombine(p: Packet)
    ensures IsEdge(p) <==> forall q :: !Batch(p, q).Batched? && !Batch(q, p).Batched?
  {
    if !IsEdge(p) {
      var q := match p
        case RelativeMouse(_, _) => RelativeMouse(0, 0)
        case Scroll(_, _) => Scroll(0, 0)
        case HScroll(_) => HScroll(0)
        case _ => p;
      assert Batch(p, q).Batched?;
    }
  }

  lemma NotBatchableIsPassable(d: Packet, b: Packet)
    requires Batch(d, b) == NotBatchable
    ensures !IsEdge(d) && Passable(d, b)
  {
  }

  lemma SkippedByScanIsPassable(d: Packet, b: Packet, s: Packet)
    requires Batch(d, s).Batched? && Batch(b, s) == NotBatchable
    ensures !IsEdge(d) && Passable(d, b)
  {
  }

  lemma DroppableIsPassable(d: Packet, x: Packet)
    requires !IsEdge(d) && !IsDroppableMotion(d) && IsDroppableMotion(x)
    ensures Passable(d, x)
  {
  }

  /** Only non-edges combine, the channel is kept, and the result is droppable exactly when both parts are. */
  lemma BatchedShape(d: Packet, s: Packet)
    requires Batch(d, s).Batched?
    ensures var m := Batch(d, s).merged;
            && !IsEdge(d) && !IsEdge(s) && !IsEdge(m)
            && ChannelOf(d) == ChannelOf(s) == ChannelOf(m)
            && IsDroppableMotion(d) == IsDroppableMotion(s) == IsDroppableMotion(m)
            && (KeepsLatest(ChannelOf(d)) ==> m == s && Continues(d, s))
            && (d.Controller? ==> s.Controller? && m.Controller? && d.mask == s.mask == m.mask)
  {
  }

  /** Within latest-wins channels continuation does not depend on which of two continuing packets is asked. */
  lemma ContinuesCongruence(x: Packet, d: Packet, s: Packet)
    requires Continues(d, s)
    ensures Continues(x, d) <==> Continues(x, s)
    ensures Continues(d, x) <==> Continues(s, x)
  {
  }
}
