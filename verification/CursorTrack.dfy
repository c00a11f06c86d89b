/**
  Where the mouse cursor is when something else happens: relative motion adds to the
  position, absolute motion sets it, and every edge (a click, a key, a touch) finds it
  somewhere.
 */
module CursorTrack {
  import opened Options
  import opened Lists
  import opened Packets

  datatype Anchor = Anchor(x: int, y: int, width: int, height: int)

  /** The last absolute position, if there was one, and the relative motion since. */
  datatype Position = Position(anchor: Option<Anchor>, dx: int, dy: int)

  const HOME := Position(None, 0, 0)

  function Moved(at: Position, p: Packet): Position {
    match p
    case RelativeMouse(dx, dy) => Position(at.anchor, at.dx + dx, at.dy + dy)
    case AbsoluteMouse(x, y, width, height) => Position(Some(Anchor(x, y, width, height)), 0, 0)
    case _ => at
  }

  function CursorAfter(ps: seq<Packet>, at: Position): Position {
    if ps == [] then at else CursorAfter(ps[1..], Moved(at, ps[0]))
  }

  /** The cursor's position at every edge, in order. */
  function Clicks(ps: seq<Packet>, at: Position): seq<Position> {
    if ps == [] then [] else ClickIn(ps[0], at) + Clicks(ps[1..], Moved(at, ps[0]))
  }

  function ClickIn(p: Packet, at: Position): seq<Position> {
    if IsEdge(p) then [at] else []
  }

  /** Every edge finds the cursor at the same place in both streams, and so does whatever comes next. */
  predicate SameCursor(ps: seq<Packet>, qs: seq<Packet>) {
    CursorAfter(ps, HOME) == CursorAfter(qs, HOME) && Clicks(ps, HOME) == Clicks(qs, HOME)
  }

  lemma TrackCons(p: Packet, ps: seq<Packet>, at: Position)
    ensures CursorAfter([p] + ps, at) == CursorAfter(ps, Moved(at, p))
    ensures Clicks([p] + ps, at) == ClickIn(p, at) + Clicks(ps, Moved(at, p))
  {
    TailOfCons(p, ps);
    hide Moved, ClickIn;
  }

  lemma OneTrack(p: Packet, at: Position)
    ensures CursorAfter([p], at) == Moved(at, p) && Clicks([p], at) == ClickIn(p, at)
    ensures CursorAfter([], at) == at && Clicks([], at) == []
  {
    hide Moved, ClickIn;
    assert [p][1..] == [];
  }

  lemma {:induction false} TrackConcat(a: seq<Packet>, b: seq<Packet>, at: Position)
    ensures CursorAfter(a + b, at) == CursorAfter(b, CursorAfter(a, at))
    ensures Clicks(a + b, at) == Clicks(a, at) + Clicks(b, CursorAfter(a, at))
    decreases |a|
  {
    if a == [] {
      OneTrack(RelativeMouse(0, 0), at);
      NilLeft(b);
      NilLeft(Clicks(b, at));
    } else {
      hide *;
      var p, r := a[0], a[1..];
      var next := Moved(at, p);
      HeadTail(a);
      TrackConcat(r, b, next);
      TrackCons(p, r, at);
      TrackCons(p, r + b, at);
      Assoc([p], r, b);
      Assoc(ClickIn(p, at), Clicks(r, next), Clicks(b, CursorAfter(r, next)));
    }
  }

  /** A stretch without edges or mouse motion leaves the cursor alone. */
  lemma {:induction false} StillStretch(b: seq<Packet>, at: Position)
    requires forall p | p in b :: !IsMouseMotion(p) && !IsEdge(p)
    ensures CursorAfter(b, at) == at && Clicks(b, at) == []
    decreases |b|
  {
    if b == [] {
    } else {
      assert b[0] in b && forall p | p in b[1..] :: p in b;
      StillStretch(b[1..], at);
    }
  }

  /** A packet that neither moves nor finds the cursor. */
  predicate Indifferent(p: Packet) {
    !IsMouseMotion(p) && !IsEdge(p)
  }

  lemma IndifferentTrack(p: Packet, at: Position)
    requires Indifferent(p)
    ensures Moved(at, p) == at && ClickIn(p, at) == []
  {
  }

  /** What a merge does to the stretch it happens in, at both places it may leave the result. */
  lemma MergedStretch(d: Packet, b: seq<Packet>, s: Packet, at: Position)
    requires Batch(d, s).Batched? && !IsEdge(d) && forall p | p in b :: Passable(d, p)
    ensures var m := Batch(d, s).merged;
            && CursorAfter([d] + b + [s], at) == CursorAfter([m] + b, at) == CursorAfter(b + [m], at)
            && Clicks([d] + b + [s], at) == Clicks([m] + b, at) == Clicks(b + [m], at)
  {
    var m := Batch(d, s).merged;
    BatchedShape(d, s);
    if IsMouseMotion(d) {
      forall p | p in b ensures !IsMouseMotion(p) && !IsEdge(p) {
        assert Passable(d, p);
      }
      MouseStretch(d, b, s, at);
    } else {
      assert !IsMouseMotion(s) && !IsMouseMotion(m) by { SameKind(d, s); }
      OtherStretch(d, b, s, m, at);
    }
  }

  lemma SameKind(d: Packet, s: Packet)
    requires Batch(d, s).Batched?
    ensures IsMouseMotion(d) == IsMouseMotion(s) == IsMouseMotion(Batch(d, s).merged)
  {
  }

  /** Two mouse motions in a row move the cursor as their combination does. */
  lemma MovedTwice(d: Packet, s: Packet, at: Position)
    requires Batch(d, s).Batched? && IsMouseMotion(d)
    ensures Moved(Moved(at, d), s) == Moved(at, Batch(d, s).merged)
    ensures ClickIn(d, at) == ClickIn(s, at) == ClickIn(Batch(d, s).merged, at) == []
  {
  }

  lemma MouseStretch(d: Packet, b: seq<Packet>, s: Packet, at: Position)
    requires Batch(d, s).Batched? && IsMouseMotion(d) && forall p | p in b :: !IsMouseMotion(p) && !IsEdge(p)
    ensures var m := Batch(d, s).merged;
            && CursorAfter([d] + b + [s], at) == CursorAfter([m] + b, at) == CursorAfter(b + [m], at) == Moved(at, m)
            && Clicks([d] + b + [s], at) == Clicks([m] + b, at) == Clicks(b + [m], at) == []
  {
    hide Moved, CursorAfter, Clicks, ClickIn, Batch, IsMouseMotion, IsEdge;
    var m := Batch(d, s).merged;
    SameKind(d, s);
    MovedTwice(d, s, at);
    MovedTwice(d, s, Moved(at, d));
    StretchThen(d, b, at);
    ThenStretch(b, m, at);
    StretchThen(m, b, at);
    TrackConcat([d] + b, [s], at);
    OneTrack(s, Moved(at, d));
  }

  lemma StretchThen(d: Packet, b: seq<Packet>, at: Position)
    requires forall p | p in b :: !IsMouseMotion(p) && !IsEdge(p)
    ensures CursorAfter([d] + b, at) == Moved(at, d) && Clicks([d] + b, at) == ClickIn(d, at)
  {
    TrackCons(d, b, at);
    StillStretch(b, Moved(at, d));
    hide *;
    NilLeft(ClickIn(d, at));
  }

  lemma ThenStretch(b: seq<Packet>, m: Packet, at: Position)
    requires forall p | p in b :: !IsMouseMotion(p) && !IsEdge(p)
    ensures CursorAfter(b + [m], at) == Moved(at, m) && Clicks(b + [m], at) == ClickIn(m, at)
  {
    TrackConcat(b, [m], at);
    StillStretch(b, at);
    OneTrack(m, at);
    hide *;
    NilLeft(ClickIn(m, at));
  }

  lemma OtherStretch(d: Packet, b: seq<Packet>, s: Packet, m: Packet, at: Position)
    requires Indifferent(d) && Indifferent(s) && Indifferent(m)
    ensures CursorAfter([d] + b + [s], at) == CursorAfter([m] + b, at) == CursorAfter(b + [m], at) == CursorAfter(b, at)
    ensures Clicks([d] + b + [s], at) == Clicks([m] + b, at) == Clicks(b + [m], at) == Clicks(b, at)
  {
    hide *;
    IndifferentTrack(d, at);
    IndifferentTrack(m, at);
    var next := CursorAfter(b, at);
    IndifferentTrack(s, next);
    IndifferentTrack(m, next);
    TrackCons(d, b, at);
    TrackCons(m, b, at);
    TrackConcat([d] + b, [s], at);
    TrackConcat(b, [m], at);
    OneTrack(s, next);
    OneTrack(m, next);
    NilLeft(Clicks(b, at));
  }

  /** Merging is not noticed by the cursor. */
  lemma MergeCursor(a: seq<Packet>, d: Packet, b: seq<Packet>, s: Packet, c: seq<Packet>)
    requires Batch(d, s).Batched? && !IsEdge(d) && forall p | p in b :: Passable(d, p)
    ensures var m := Batch(d, s).merged;
            && SameCursor(a + [d] + b + [s] + c, a + [m] + b + c)
            && SameCursor(a + [d] + b + [s] + c, a + b + [m] + c)
  {
    var m := Batch(d, s).merged;
    MergedStretch(d, b, s, CursorAfter(a, HOME));
    hide *;
    Surrounded(a, [d] + b + [s], [m] + b, c);
    Surrounded(a, [d] + b + [s], b + [m], c);
    Bracketed(a, d, b, s, c, m);
  }

  lemma Bracketed<T>(a: seq<T>, d: T, b: seq<T>, s: T, c: seq<T>, m: T)
    ensures a + ([d] + b + [s]) + c == a + [d] + b + [s] + c
    ensures a + ([m] + b) + c == a + [m] + b + c && a + (b + [m]) + c == a + b + [m] + c
  {
  }

  lemma Surrounded(a: seq<Packet>, x: seq<Packet>, y: seq<Packet>, c: seq<Packet>)
    requires var at := CursorAfter(a, HOME);
             CursorAfter(x, at) == CursorAfter(y, at) && Clicks(x, at) == Clicks(y, at)
    ensures SameCursor(a + x + c, a + y + c)
  {
    hide CursorAfter, Clicks;
    TrackConcat(a, x, HOME);
    TrackConcat(a, y, HOME);
    TrackConcat(a + x, c, HOME);
    TrackConcat(a + y, c, HOME);
  }

  lemma AppendCursor(ps: seq<Packet>, qs: seq<Packet>, p: Packet)
    requires SameCursor(ps, qs)
    ensures SameCursor(ps + [p], qs + [p])
  {
    hide CursorAfter, Clicks;
    TrackConcat(ps, [p], HOME);
    TrackConcat(qs, [p], HOME);
  }
}
