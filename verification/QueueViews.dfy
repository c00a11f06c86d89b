/**
  What an application can observe in a stream of packets, and why combining
  packets by the batching rules cannot be observed. All views are defined on the
  plain list of packets, with no reference to the queue.
 */
module QueueViews {
  import opened Lists
  import opened Packets
  import opened CursorTrack

  // ----- The four observations -----

  /** The edges, in order. */
  function Edges(ps: seq<Packet>): seq<Packet> {
    if ps == [] then [] else EdgeIn(ps[0]) + Edges(ps[1..])
  }

  function EdgeIn(p: Packet): seq<Packet> {
    if IsEdge(p) then [p] else []
  }

  /** The packets a channel observes. */
  function Observed(ch: Channel, ps: seq<Packet>): seq<Packet> {
    if ps == [] then [] else ObservedIn(ch, ps[0]) + Observed(ch, ps[1..])
  }

  function ObservedIn(ch: Channel, p: Packet): seq<Packet> {
    if Observes(ch, p) then [p] else []
  }

  /** Of every maximal block of packets that continue each other, only the last one. */
  function Collapse(ps: seq<Packet>): seq<Packet> {
    if |ps| < 2 then ps
    else if Continues(ps[0], ps[1]) then Collapse(ps[1..])
    else [ps[0]] + Collapse(ps[1..])
  }

  function View(ch: Channel, ps: seq<Packet>): seq<Packet> {
    Collapse(Observed(ch, ps))
  }

  /** Accumulated relative motion and scroll amounts. */
  datatype Amount = Amount(dx: int, dy: int, vertical: int, horizontal: int) {
    function Plus(other: Amount): Amount {
      Amount(dx + other.dx, dy + other.dy, vertical + other.vertical, horizontal + other.horizontal)
    }
  }

  const NOTHING := Amount(0, 0, 0, 0)

  function AmountOf(p: Packet): Amount {
    match p
    case RelativeMouse(x, y) => Amount(x, y, 0, 0)
    case Scroll(a, _) => Amount(0, 0, a, 0)
    case HScroll(a) => Amount(0, 0, 0, a)
    case _ => NOTHING
  }

  /** The amount accumulated in each stretch between two consecutive edges (and before the first, after the last). */
  function SegmentSums(ps: seq<Packet>): (sums: seq<Amount>)
    ensures sums != []
  {
    if ps == [] then [NOTHING] else CountIn(ps[0], SegmentSums(ps[1..]))
  }

  function CountIn(p: Packet, sums: seq<Amount>): (r: seq<Amount>)
    requires sums != []
    ensures r != []
  {
    if IsEdge(p) then [NOTHING] + sums else AddToFirst(AmountOf(p), sums)
  }

  function AddToFirst(x: Amount, sums: seq<Amount>): (r: seq<Amount>)
    requires sums != []
    ensures |r| == |sums|
  {
    [x.Plus(sums[0])] + sums[1..]
  }

  /** The sets of connected pads that controller packets announce, in order. */
  function Masks(ps: seq<Packet>): seq<int> {
    if ps == [] then [] else MaskIn(ps[0]) + Masks(ps[1..])
  }

  function MaskIn(p: Packet): seq<int> {
    if p.Controller? then [p.mask] else []
  }

  /** Remove consecutive repeats. */
  function Dedup<T(==)>(s: seq<T>): seq<T> {
    if |s| < 2 then s
    else if s[0] == s[1] then Dedup(s[1..])
    else [s[0]] + Dedup(s[1..])
  }

  /**
    Two streams with the same edges, the same sums between edges, the same changes of
    connected pads, the same view of every latest-wins channel and the same cursor track.
   */
  ghost predicate SameViews(ps: seq<Packet>, qs: seq<Packet>) {
    && Edges(ps) == Edges(qs)
    && SegmentSums(ps) == SegmentSums(qs)
    && Dedup(Masks(ps)) == Dedup(Masks(qs))
    && SameCursor(ps, qs)
    && forall ch | KeepsLatest(ch) :: View(ch, ps) == View(ch, qs)
  }

  // ----- Distribution over concatenation -----

  lemma ViewsCons(ch: Channel, p: Packet, ps: seq<Packet>)
    ensures Edges([p] + ps) == EdgeIn(p) + Edges(ps)
    ensures Observed(ch, [p] + ps) == ObservedIn(ch, p) + Observed(ch, ps)
    ensures Masks([p] + ps) == MaskIn(p) + Masks(ps)
  {
    TailOfCons(p, ps);
    hide EdgeIn, ObservedIn, MaskIn;
  }

  lemma SumsCons(p: Packet, ps: seq<Packet>)
    ensures SegmentSums([p] + ps) == CountIn(p, SegmentSums(ps))
  {
    TailOfCons(p, ps);
    hide CountIn;
  }

  lemma NoPacket(ch: Channel)
    ensures Edges([]) == [] && Masks([]) == [] && Observed(ch, []) == []
  {
  }

  lemma OnePacket(ch: Channel, p: Packet)
    ensures Edges([p]) == EdgeIn(p) && Observed(ch, [p]) == ObservedIn(ch, p) && Masks([p]) == MaskIn(p)
  {
    hide *;
    ViewsCons(ch, p, []);
    NoPacket(ch);
    NilLeft([p]);
    NilLeft(EdgeIn(p));
    NilLeft(ObservedIn(ch, p));
    NilLeft(MaskIn(p));
  }

  lemma {:induction false} ViewsConcat(ch: Channel, a: seq<Packet>, b: seq<Packet>)
    ensures Edges(a + b) == Edges(a) + Edges(b)
    ensures Observed(ch, a + b) == Observed(ch, a) + Observed(ch, b)
    ensures Masks(a + b) == Masks(a) + Masks(b)
  {
    hide *;
    if a == [] {
      NoPacket(ch);
      NilLeft(b);
      NilLeft(Edges(b));
      NilLeft(Observed(ch, b));
      NilLeft(Masks(b));
    } else {
      var p, r := a[0], a[1..];
      ViewsConcat(ch, r, b);
      ViewsCons(ch, p, r);
      ViewsCons(ch, p, r + b);
      HeadTail(a);
      Assoc([p], r, b);
      Assoc(EdgeIn(p), Edges(r), Edges(b));
      Assoc(ObservedIn(ch, p), Observed(ch, r), Observed(ch, b));
      Assoc(MaskIn(p), Masks(r), Masks(b));
    }
  }

  /** Nothing observed remains of a stretch that a channel does not observe. */
  lemma {:induction false} NothingObserved(ch: Channel, b: seq<Packet>)
    requires forall p | p in b :: !Observes(ch, p)
    ensures Observed(ch, b) == []
  {
    if b == [] {
    } else {
      NothingObserved(ch, b[1..]);
    }
  }

  // ----- Collapsing blocks -----

  lemma {:induction false} CollapseDropsContinued(x: seq<Packet>, d: Packet, s: Packet, y: seq<Packet>)
    requires Continues(d, s)
    ensures Collapse(x + [d, s] + y) == Collapse(x + [s] + y)
  {
    var l, r := x + [d, s] + y, x + [s] + y;
    if x == [] {
      assert l[1..] == r;
    } else {
      CollapseDropsContinued(x[1..], d, s, y);
      assert l[1..] == x[1..] + [d, s] + y && r[1..] == x[1..] + [s] + y;
      if |x| == 1 {
        ContinuesCongruence(x[0], d, s);
      }
    }
  }

  /** The first packet of a collapsed list continues the same packets as the first of the list. */
  lemma {:induction false} CollapseHead(ps: seq<Packet>, x: Packet)
    requires ps != []
    ensures Collapse(ps) != []
    ensures Continues(x, ps[0]) <==> Continues(x, Collapse(ps)[0])
  {
    if |ps| >= 2 && Continues(ps[0], ps[1]) {
      ContinuesCongruence(x, ps[0], ps[1]);
      CollapseHead(ps[1..], x);
    }
  }

  /** Appending one packet needs only the collapsed list. */
  lemma {:induction false} CollapseAppend(ps: seq<Packet>, p: Packet)
    ensures Collapse(ps + [p]) == Collapse(Collapse(ps) + [p])
  {
    if |ps| >= 2 {
      assert (ps + [p])[1..] == ps[1..] + [p];
      CollapseAppend(ps[1..], p);
      if !Continues(ps[0], ps[1]) {
        CollapseHead(ps[1..], ps[0]);
        var c := Collapse(ps);
        assert (c + [p])[1..] == Collapse(ps[1..]) + [p];
      }
    }
  }

  lemma {:induction false} DedupDropsRepeat<T>(x: seq<T>, m: T, y: seq<T>)
    ensures Dedup(x + [m, m] + y) == Dedup(x + [m] + y)
  {
    var l, r := x + [m, m] + y, x + [m] + y;
    if x == [] {
      assert l[1..] == r;
    } else {
      DedupDropsRepeat(x[1..], m, y);
      assert l[1..] == x[1..] + [m, m] + y && r[1..] == x[1..] + [m] + y;
    }
  }

  lemma {:induction false} DedupHead<T>(s: seq<T>)
    requires s != []
    ensures Dedup(s) != [] && Dedup(s)[0] == s[0]
  {
    if |s| >= 2 && s[0] == s[1] {
      DedupHead(s[1..]);
    }
  }

  lemma {:induction false} DedupAppend<T>(s: seq<T>, m: T)
    ensures Dedup(s + [m]) == Dedup(Dedup(s) + [m])
  {
    if |s| >= 2 {
      assert (s + [m])[1..] == s[1..] + [m];
      DedupAppend(s[1..], m);
      DedupHead(s[1..]);
      if s[0] != s[1] {
        var c := Dedup(s);
        assert (c + [m])[1..] == Dedup(s[1..]) + [m];
      }
    }
  }

  /** In a stretch of equal masks one more repeat, at either end, makes no difference. */
  lemma {:induction false} DedupUniform<T>(x: seq<T>, m: T, b: seq<T>, y: seq<T>)
    requires forall i | 0 <= i < |b| :: b[i] == m
    ensures Dedup(x + [m] + b + [m] + y) == Dedup(x + [m] + y)
    ensures Dedup(x + [m] + b + y) == Dedup(x + [m] + y)
    ensures Dedup(x + b + [m] + y) == Dedup(x + [m] + y)
  {
    if b == [] {
      DedupDropsRepeat(x, m, y);
      assert x + [m] + b + [m] + y == x + [m, m] + y;
      assert x + [m] + b == x + [m];
      assert x + b == x;
    } else {
      hide *;
      var t := b[1..];
      DedupUniform(x, m, t, y);
      DedupUniformStep(x, m, t, y);
      assert b == [m] + t;
      Regroup(x, m, t, y);
    }
  }

  lemma Regroup<T>(x: seq<T>, m: T, t: seq<T>, y: seq<T>)
    ensures x + [m] + ([m] + t) + [m] + y == x + [m, m] + (t + [m] + y)
    ensures x + [m] + ([m] + t) + y == x + [m, m] + (t + y)
    ensures x + ([m] + t) + [m] + y == x + [m] + t + [m] + y
  {
  }

  lemma DedupUniformStep<T>(x: seq<T>, m: T, t: seq<T>, y: seq<T>)
    ensures Dedup(x + [m, m] + (t + [m] + y)) == Dedup(x + [m] + t + [m] + y)
    ensures Dedup(x + [m, m] + (t + y)) == Dedup(x + [m] + t + y)
  {
    hide *;
    DedupDropsRepeat(x, m, t + [m] + y);
    DedupDropsRepeat(x, m, t + y);
    Assoc(x + [m], t, y);
    Assoc(x + [m], t + [m], y);
    Assoc(x + [m], t, [m]);
  }

  // ----- Sums between edges -----

  lemma {:induction false} SumsPrefix(a: seq<Packet>, b: seq<Packet>, c: seq<Packet>)
    requires SegmentSums(b) == SegmentSums(c)
    ensures SegmentSums(a + b) == SegmentSums(a + c)
  {
    if a == [] {
      assert a + b == b && a + c == c;
    } else {
      assert (a + b)[1..] == a[1..] + b && (a + c)[1..] == a[1..] + c;
      SumsPrefix(a[1..], b, c);
    }
  }

  lemma CountCommutes(d: Packet, x: Packet, sums: seq<Amount>)
    requires sums != []
    requires !IsEdge(d) && (AmountOf(d) == NOTHING || !IsEdge(x))
    ensures CountIn(d, CountIn(x, sums)) == CountIn(x, CountIn(d, sums))
  {
    if AmountOf(d) == NOTHING {
      AddNothing(sums);
      AddNothing(CountIn(x, sums));
    } else {
      AddTwice(AmountOf(d), AmountOf(x), sums);
      AddTwice(AmountOf(x), AmountOf(d), sums);
    }
  }

  lemma AddNothing(sums: seq<Amount>)
    requires sums != []
    ensures AddToFirst(NOTHING, sums) == sums
  {
    assert NOTHING.Plus(sums[0]) == sums[0];
  }

  lemma AddTwice(x: Amount, y: Amount, sums: seq<Amount>)
    requires sums != []
    ensures AddToFirst(x, AddToFirst(y, sums)) == AddToFirst(x.Plus(y), sums)
    ensures x.Plus(y) == y.Plus(x)
  {
    assert AddToFirst(y, sums)[1..] == sums[1..];
  }

  /** A packet's amount may be counted anywhere before the next edge; a packet without amount, anywhere. */
  lemma {:induction false} SumsMove(d: Packet, b: seq<Packet>, c: seq<Packet>)
    requires !IsEdge(d)
    requires AmountOf(d) == NOTHING || forall i | 0 <= i < |b| :: !IsEdge(b[i])
    ensures SegmentSums([d] + (b + c)) == SegmentSums(b + [d] + c)
  {
    hide *;
    if b == [] {
      assert b + c == c && b + [d] + c == [d] + c;
    } else {
      var x, t := b[0], b[1..];
      SumsMove(d, t, c);
      SumsMoveStep(d, x, t, c);
      assert b + c == [x] + (t + c);
      assert b + [d] + c == [x] + (t + [d] + c);
    }
  }

  lemma SumsMoveStep(d: Packet, x: Packet, t: seq<Packet>, c: seq<Packet>)
    requires !IsEdge(d)
    requires AmountOf(d) == NOTHING || !IsEdge(x)
    requires SegmentSums([d] + (t + c)) == SegmentSums(t + [d] + c)
    ensures SegmentSums([d] + ([x] + (t + c))) == SegmentSums([x] + (t + [d] + c))
  {
    SumsCons(d, t + c);
    SumsCons(x, t + c);
    SumsCons(d, [x] + (t + c));
    SumsCons(x, t + [d] + c);
    CountCommutes(d, x, SegmentSums(t + c));
  }

  /** Count one more packet at the end. */
  function CountAtEnd(sums: seq<Amount>, p: Packet): (r: seq<Amount>)
    requires sums != []
    ensures r != []
  {
    if IsEdge(p) then sums + [NOTHING]
    else sums[..|sums| - 1] + [sums[|sums| - 1].Plus(AmountOf(p))]
  }

  lemma AddLater(x: Packet, sums: seq<Amount>, p: Packet)
    requires sums != []
    ensures CountIn(x, CountAtEnd(sums, p)) == CountAtEnd(CountIn(x, sums), p)
  {
    hide AmountOf, IsEdge, SegmentSums;
    if !IsEdge(x) {
      AddFirstLater(AmountOf(x), sums, p);
    } else if IsEdge(p) {
      Assoc([NOTHING], sums, [NOTHING]);
    } else {
      var n := |sums| - 1;
      var r := [NOTHING] + sums;
      assert r[..n + 1] == [NOTHING] + sums[..n] && r[n + 1] == sums[n];
      Assoc([NOTHING], sums[..n], [sums[n].Plus(AmountOf(p))]);
    }
  }

  lemma AddFirstLater(x: Amount, sums: seq<Amount>, p: Packet)
    requires sums != []
    ensures AddToFirst(x, CountAtEnd(sums, p)) == CountAtEnd(AddToFirst(x, sums), p)
  {
    hide AmountOf, IsEdge, SegmentSums;
    var y := AmountOf(p);
    assert x.Plus(sums[0].Plus(y)) == x.Plus(sums[0]).Plus(y);
  }

  lemma {:induction false} SumsAppend(ps: seq<Packet>, p: Packet)
    ensures SegmentSums(ps + [p]) == CountAtEnd(SegmentSums(ps), p)
  {
    if ps == [] {
      assert ps + [p] == [p] + [];
      SumsCons(p, []);
    } else {
      assert ps + [p] == [ps[0]] + (ps[1..] + [p]);
      SumsCons(ps[0], ps[1..] + [p]);
      SumsAppend(ps[1..], p);
      AddLater(ps[0], SegmentSums(ps[1..]), p);
    }
  }

  lemma BatchAddsAmounts(d: Packet, s: Packet)
    requires Batch(d, s).Batched?
    ensures AmountOf(Batch(d, s).merged) == AmountOf(d).Plus(AmountOf(s))
  {
    BatchedShape(d, s);
    if d.RelativeMouse? {
    } else if d.Scroll? {
    } else if d.HScroll? {
    } else {
      assert AmountOf(d) == NOTHING && AmountOf(s) == NOTHING && Batch(d, s).merged == s;
    }
  }

  // ----- Combining two packets -----

  /** The combined packet may stand where the earlier packet stood. */
  lemma MergeAtEarlier(a: seq<Packet>, d: Packet, b: seq<Packet>, s: Packet, c: seq<Packet>)
    requires Batch(d, s).Batched?
    requires !IsEdge(d) && forall p | p in b :: Passable(d, p)
    ensures SameViews(a + [d] + b + [s] + c, a + [Batch(d, s).merged] + b + c)
  {
    var m := Batch(d, s).merged;
    var before, after := a + [d] + b + [s] + c, a + [m] + b + c;
    BatchedShape(d, s);
    MergeEdges(a, d, b, s, c, m);
    MergeSums(a, d, b, s, c);
    MergeMasks(a, d, b, s, c, m);
    MergeCursor(a, d, b, s, c);
    hide SameCursor;
    forall ch | KeepsLatest(ch) ensures View(ch, before) == View(ch, after) {
      MergeView(ch, a, d, b, s, c);
    }
  }

  /** The combined packet may equally stand where the later packet stood. */
  lemma MergeAtLater(a: seq<Packet>, d: Packet, b: seq<Packet>, s: Packet, c: seq<Packet>)
    requires Batch(d, s).Batched?
    requires !IsEdge(d) && forall p | p in b :: Passable(d, p)
    ensures SameViews(a + [d] + b + [s] + c, a + b + [Batch(d, s).merged] + c)
  {
    var m := Batch(d, s).merged;
    var before, after := a + [d] + b + [s] + c, a + b + [m] + c;
    BatchedShape(d, s);
    MergeEdges(a, d, b, s, c, m);
    MergeSums(a, d, b, s, c);
    MergeMasks(a, d, b, s, c, m);
    MergeCursor(a, d, b, s, c);
    hide SameCursor;
    forall ch | KeepsLatest(ch) ensures View(ch, before) == View(ch, after) {
      MergeView(ch, a, d, b, s, c);
    }
  }

  lemma MergeEdges(a: seq<Packet>, d: Packet, b: seq<Packet>, s: Packet, c: seq<Packet>, m: Packet)
    requires !IsEdge(d) && !IsEdge(s) && !IsEdge(m)
    ensures Edges(a + [d] + b + [s] + c) == Edges(a + [m] + b + c) == Edges(a + b + [m] + c)
  {
    OnePacket(Relative, d);
    OnePacket(Relative, s);
    OnePacket(Relative, m);
    NoPacket(Relative);
    assert EdgeIn(d) == EdgeIn(s) == EdgeIn(m) == [];
    hide *;
    ViewsFive(Relative, a, [d], b, [s], c);
    ViewsFive(Relative, a, [m], b, [], c);
    ViewsFive(Relative, a, [], b, [m], c);
    Five(a, [m], b, c);
  }

  lemma ViewsFive(ch: Channel, a: seq<Packet>, d: seq<Packet>, b: seq<Packet>, s: seq<Packet>, c: seq<Packet>)
    ensures Edges(a + d + b + s + c) == Edges(a) + Edges(d) + Edges(b) + Edges(s) + Edges(c)
    ensures Observed(ch, a + d + b + s + c)
         == Observed(ch, a) + Observed(ch, d) + Observed(ch, b) + Observed(ch, s) + Observed(ch, c)
    ensures Masks(a + d + b + s + c) == Masks(a) + Masks(d) + Masks(b) + Masks(s) + Masks(c)
  {
    hide *;
    ViewsConcat(ch, a, d);
    ViewsConcat(ch, a + d, b);
    ViewsConcat(ch, a + d + b, s);
    ViewsConcat(ch, a + d + b + s, c);
  }

  /** Motion and scroll packets are never moved past an edge. */
  lemma AmountStops(d: Packet, b: seq<Packet>)
    requires !IsEdge(d) && forall p | p in b :: Passable(d, p)
    ensures AmountOf(d) == NOTHING || forall i | 0 <= i < |b| :: !IsEdge(b[i])
  {
    if AmountOf(d) != NOTHING {
      forall i | 0 <= i < |b| ensures !IsEdge(b[i]) {
        assert b[i] in b;
      }
    }
  }

  lemma MergedIsPassable(d: Packet, b: seq<Packet>, s: Packet)
    requires Batch(d, s).Batched?
    requires !IsEdge(d) && forall p | p in b :: Passable(d, p)
    ensures var m := Batch(d, s).merged;
            !IsEdge(m) && forall p | p in b :: Passable(m, p)
  {
    BatchedShape(d, s);
  }

  lemma MergeSums(a: seq<Packet>, d: Packet, b: seq<Packet>, s: Packet, c: seq<Packet>)
    requires Batch(d, s).Batched?
    requires !IsEdge(d) && forall p | p in b :: Passable(d, p)
    ensures var m := Batch(d, s).merged;
            SegmentSums(a + [d] + b + [s] + c) == SegmentSums(a + [m] + b + c) == SegmentSums(a + b + [m] + c)
  {
    hide *;
    var m := Batch(d, s).merged;
    BatchedShape(d, s);
    BatchAddsAmounts(d, s);
    MergedIsPassable(d, b, s);
    AmountStops(d, b);
    AmountStops(m, b);
    MergeSumsMiddle(d, b, s, c, m);
    SumsPrefix(a, [d] + (b + ([s] + c)), [m] + (b + c));
    SumsPrefix(a, [m] + (b + c), b + [m] + c);
    assert a + [d] + b + [s] + c == a + ([d] + (b + ([s] + c)));
    assert a + [m] + b + c == a + ([m] + (b + c));
    assert a + b + [m] + c == a + (b + [m] + c);
  }

  lemma MergeSumsMiddle(d: Packet, b: seq<Packet>, s: Packet, c: seq<Packet>, m: Packet)
    requires !IsEdge(d) && !IsEdge(s) && !IsEdge(m)
    requires AmountOf(m) == AmountOf(d).Plus(AmountOf(s))
    requires AmountOf(d) == NOTHING || forall i | 0 <= i < |b| :: !IsEdge(b[i])
    requires AmountOf(m) == NOTHING || forall i | 0 <= i < |b| :: !IsEdge(b[i])
    ensures SegmentSums([d] + (b + ([s] + c))) == SegmentSums([m] + (b + c)) == SegmentSums(b + [m] + c)
  {
    hide *;
    SumsMove(d, b, [s] + c);
    SumsMove(m, b, c);
    SumsPair(d, s, m, c);
    SumsPrefix(b, [d] + ([s] + c), [m] + c);
    assert b + [d] + ([s] + c) == b + ([d] + ([s] + c));
    assert b + [m] + c == b + ([m] + c);
  }

  lemma SumsPair(d: Packet, s: Packet, m: Packet, c: seq<Packet>)
    requires !IsEdge(d) && !IsEdge(s) && !IsEdge(m)
    requires AmountOf(m) == AmountOf(d).Plus(AmountOf(s))
    ensures SegmentSums([d] + ([s] + c)) == SegmentSums([m] + c)
  {
    hide *;
    SumsCons(d, [s] + c);
    SumsCons(s, c);
    SumsCons(m, c);
    CountPair(d, s, m, SegmentSums(c));
  }

  lemma CountPair(d: Packet, s: Packet, m: Packet, sums: seq<Amount>)
    requires sums != []
    requires !IsEdge(d) && !IsEdge(s) && !IsEdge(m)
    requires AmountOf(m) == AmountOf(d).Plus(AmountOf(s))
    ensures CountIn(d, CountIn(s, sums)) == CountIn(m, sums)
  {
    hide AmountOf, IsEdge, AddToFirst;
    AddTwice(AmountOf(d), AmountOf(s), sums);
  }

  lemma MergeMasks(a: seq<Packet>, d: Packet, b: seq<Packet>, s: Packet, c: seq<Packet>, m: Packet)
    requires Batch(d, s) == Batched(m)
    requires !IsEdge(d) && forall p | p in b :: Passable(d, p)
    ensures Dedup(Masks(a + [d] + b + [s] + c)) == Dedup(Masks(a + [m] + b + c)) == Dedup(Masks(a + b + [m] + c))
  {
    BatchedShape(d, s);
    OnePacket(Relative, d);
    OnePacket(Relative, s);
    OnePacket(Relative, m);
    if d.Controller? {
      UniformMasks(d.mask, b);
    }
    hide *;
    ViewsFive(Relative, a, [d], b, [s], c);
    ViewsFive(Relative, a, [m], b, [], c);
    ViewsFive(Relative, a, [], b, [m], c);
    NoPacket(Relative);
    Five(a, [m], b, c);
    var ma, mb, mc := Masks(a), Masks(b), Masks(c);
    if d.Controller? {
      DedupUniform(ma, d.mask, mb, mc);
      Five(ma, [d.mask], mb, mc);
    } else {
      Five(ma, [], mb, mc);
    }
  }

  lemma Five<T>(a: seq<T>, m: seq<T>, b: seq<T>, c: seq<T>)
    ensures a + m + b + [] + c == a + m + b + c
    ensures a + [] + b + m + c == a + b + m + c
  {
  }

  lemma {:induction false} UniformMasks(m: int, b: seq<Packet>)
    requires forall p: Packet | p in b && p.Controller? :: p.mask == m
    ensures forall i | 0 <= i < |Masks(b)| :: Masks(b)[i] == m
  {
    if b == [] {
    } else {
      assert b[0] in b && forall p | p in b[1..] :: p in b;
      UniformMasks(m, b[1..]);
    }
  }

  lemma MergeView(ch: Channel, a: seq<Packet>, d: Packet, b: seq<Packet>, s: Packet, c: seq<Packet>)
    requires KeepsLatest(ch)
    requires Batch(d, s).Batched?
    requires !IsEdge(d) && forall p | p in b :: Passable(d, p)
    ensures var m := Batch(d, s).merged;
            View(ch, a + [d] + b + [s] + c) == View(ch, a + [m] + b + c) == View(ch, a + b + [m] + c)
  {
    hide Observed, Collapse, Batch, Passable, Observes, ChannelOf, IsEdge, KeepsLatest;
    var m := Batch(d, s).merged;
    ObservedParts(ch, d, b, s);
    ViewsFive(ch, a, [d], b, [s], c);
    ViewsFive(ch, a, [m], b, [], c);
    ViewsFive(ch, a, [], b, [m], c);
    NoPacket(ch);
    Five(a, [m], b, c);
    CollapseMerged(ch, a, d, b, s, c, m);
  }

  lemma ObservedParts(ch: Channel, d: Packet, b: seq<Packet>, s: Packet)
    requires KeepsLatest(ch)
    requires Batch(d, s).Batched?
    requires !IsEdge(d) && forall p | p in b :: Passable(d, p)
    ensures var m := Batch(d, s).merged;
            var od, os, om := Observed(ch, [d]), Observed(ch, [s]), Observed(ch, [m]);
            || od == os == om == []
            || (od == [d] && os == om == [s] && Observed(ch, b) == [] && Continues(d, s))
  {
    BatchedShape(d, s);
    OnePacket(ch, d);
    OnePacket(ch, s);
    OnePacket(ch, Batch(d, s).merged);
    if ChannelOf(d) == ch {
      NothingObserved(ch, b);
    }
  }

  lemma CollapseMerged(ch: Channel, a: seq<Packet>, d: Packet, b: seq<Packet>, s: Packet, c: seq<Packet>, m: Packet)
    requires var od, os, om := Observed(ch, [d]), Observed(ch, [s]), Observed(ch, [m]);
             || od == os == om == []
             || (od == [d] && os == om == [s] && Observed(ch, b) == [] && Continues(d, s))
    ensures var oa, ob, oc := Observed(ch, a), Observed(ch, b), Observed(ch, c);
            var od, os, om := Observed(ch, [d]), Observed(ch, [s]), Observed(ch, [m]);
            Collapse(oa + od + ob + os + oc) == Collapse(oa + om + ob + [] + oc) == Collapse(oa + [] + ob + om + oc)
  {
    hide *;
    var oa, ob, oc := Observed(ch, a), Observed(ch, b), Observed(ch, c);
    if Observed(ch, [d]) == [d] {
      CollapseDropsContinued(oa, d, s, oc);
      assert oa + [d] + [] + [s] + oc == oa + [d, s] + oc;
      assert oa + [s] + [] + [] + oc == oa + [s] + oc == oa + [] + [] + [s] + oc;
    }
  }

  // ----- Appending the next packet -----

  lemma AppendKeepsViews(ps: seq<Packet>, qs: seq<Packet>, p: Packet)
    requires SameViews(ps, qs)
    ensures SameViews(ps + [p], qs + [p])
  {
    AppendCursor(ps, qs, p);
    hide SameCursor;
    OnePacket(Relative, p);
    ViewsConcat(Relative, ps, [p]);
    ViewsConcat(Relative, qs, [p]);
    SumsAppend(ps, p);
    SumsAppend(qs, p);
    if p.Controller? {
      DedupAppend(Masks(ps), p.mask);
      DedupAppend(Masks(qs), p.mask);
    } else {
      assert Masks(ps) + [] == Masks(ps) && Masks(qs) + [] == Masks(qs);
    }
    forall ch | KeepsLatest(ch) ensures View(ch, ps + [p]) == View(ch, qs + [p]) {
      ViewsConcat(ch, ps, [p]);
      ViewsConcat(ch, qs, [p]);
      OnePacket(ch, p);
      assert View(ch, ps) == View(ch, qs);
      if Observes(ch, p) {
        CollapseAppend(Observed(ch, ps), p);
        CollapseAppend(Observed(ch, qs), p);
      } else {
        assert Observed(ch, ps) + [] == Observed(ch, ps) && Observed(ch, qs) + [] == Observed(ch, qs);
      }
    }
  }

  // ----- What the views say -----

  /** What a channel's packet says besides its newest position or reading. */
  datatype Mark =
    | PadMark(buttons: int, buttons2: int)
    | PenMark(event: TouchEvent, penButtons: int, tool: int)
    | TouchMark(event: TouchEvent)
    | SizeMark(width: int, height: int)
    | SensorMark

  /** The packets of one latest-wins channel, its edges included, give one mark each. */
  function MarkIn(ch: Channel, p: Packet): seq<Mark> {
    if p.Controller? && ch == Pad(p.number) then [PadMark(p.buttons, p.buttons2)]
    else if p.Pen? && ch == Stylus then [PenMark(p.event, p.penButtons, p.tool)]
    else if p.Touch? && ch == Finger(p.pointer) then [TouchMark(p.event)]
    else if p.ControllerTouch? && ch == PadFinger(p.number, p.pointer) then [TouchMark(p.event)]
    else if p.AbsoluteMouse? && ch == Absolute then [SizeMark(p.width, p.height)]
    else if p.ControllerMotion? && ch == Sensor(p.number, p.sensor) then [SensorMark]
    else []
  }

  function Marks(ch: Channel, ps: seq<Packet>): seq<Mark> {
    if ps == [] then [] else MarkIn(ch, ps[0]) + Marks(ch, ps[1..])
  }

  /** The packets of one channel that are not edges, in order. */
  function States(ch: Channel, ps: seq<Packet>): seq<Packet> {
    if ps == [] then []
    else (if !IsEdge(ps[0]) && ChannelOf(ps[0]) == ch then [ps[0]] else []) + States(ch, ps[1..])
  }

  lemma MarkedIsObserved(ch: Channel, p: Packet)
    ensures !Observes(ch, p) ==> MarkIn(ch, p) == [] && (IsEdge(p) || ChannelOf(p) != ch)
    ensures |MarkIn(ch, p)| <= 1
  {
  }

  lemma {:induction false} MarksOfView(ch: Channel, ps: seq<Packet>)
    ensures Marks(ch, Observed(ch, ps)) == Marks(ch, ps)
    ensures States(ch, Observed(ch, ps)) == States(ch, ps)
  {
    if ps == [] {
    } else {
      MarksOfView(ch, ps[1..]);
      MarkedIsObserved(ch, ps[0]);
      hide MarkIn, Observes, IsEdge;
      var o, rest := Observed(ch, ps), Observed(ch, ps[1..]);
      if Observes(ch, ps[0]) {
        assert o == [ps[0]] + rest && o[1..] == rest;
      } else {
        assert o == rest;
      }
    }
  }

  /** A packet that continues another says the same. */
  lemma ContinuedSaysTheSame(ch: Channel, a: Packet, b: Packet)
    requires Continues(a, b)
    ensures MarkIn(ch, a) == MarkIn(ch, b)
  {
  }

  /** Collapsing keeps the first mark a block starts with, and all changes. */
  lemma {:induction false} CollapseKeepsMarks(ch: Channel, ps: seq<Packet>)
    ensures Dedup(Marks(ch, Collapse(ps))) == Dedup(Marks(ch, ps))
    ensures Marks(ch, ps) != [] ==>
              Marks(ch, Collapse(ps)) != [] && Marks(ch, Collapse(ps))[0] == Marks(ch, ps)[0]
    ensures Marks(ch, ps) == [] ==> Marks(ch, Collapse(ps)) == []
  {
    hide MarkIn, Continues;
    if |ps| < 2 {
    } else {
      CollapseKeepsMarks(ch, ps[1..]);
      MarkedIsObserved(ch, ps[0]);
      if Continues(ps[0], ps[1]) {
        ContinuedSaysTheSame(ch, ps[0], ps[1]);
        MarksCons(ch, ps[1], ps[2..]);
        MarksCons(ch, ps[0], ps[1..]);
        assert ps == [ps[0]] + ps[1..] && ps[1..] == [ps[1]] + ps[2..];
        DedupTwice(MarkIn(ch, ps[0]), Marks(ch, ps[2..]));
      } else {
        var c := Collapse(ps[1..]);
        MarksCons(ch, ps[0], c);
        MarksCons(ch, ps[0], ps[1..]);
        assert Collapse(ps) == [ps[0]] + c && ps == [ps[0]] + ps[1..];
        DedupAfter(MarkIn(ch, ps[0]), Marks(ch, ps[1..]), Marks(ch, c));
      }
    }
  }

  lemma MarksCons(ch: Channel, p: Packet, ps: seq<Packet>)
    ensures Marks(ch, [p] + ps) == MarkIn(ch, p) + Marks(ch, ps)
  {
    TailOfCons(p, ps);
    hide MarkIn;
  }

  lemma DedupTwice<T>(m: seq<T>, t: seq<T>)
    requires |m| <= 1
    ensures Dedup(m + (m + t)) == Dedup(m + t)
    ensures m + (m + t) != [] ==> m + t != [] && (m + (m + t))[0] == (m + t)[0]
  {
    if m == [] {
      assert m + (m + t) == m + t;
    } else {
      assert (m + (m + t))[1..] == m + t;
    }
  }

  lemma DedupAfter<T>(m: seq<T>, s: seq<T>, t: seq<T>)
    requires |m| <= 1 && Dedup(s) == Dedup(t)
    ensures Dedup(m + s) == Dedup(m + t)
  {
    if m == [] {
      assert m + s == s && m + t == t;
    } else {
      assert m == [m[0]];
      DedupPrepend(m[0], s, t);
    }
  }

  lemma DedupPrepend<T>(e: T, s: seq<T>, t: seq<T>)
    requires Dedup(s) == Dedup(t)
    ensures Dedup([e] + s) == Dedup([e] + t)
  {
    if s != [] {
      DedupHead(s);
      assert ([e] + s)[1..] == s;
    }
    if t != [] {
      DedupHead(t);
      assert ([e] + t)[1..] == t;
    }
  }

  lemma {:induction false} CollapseKeepsLastState(ch: Channel, ps: seq<Packet>)
    requires KeepsLatest(ch)
    ensures var s, c := States(ch, ps), States(ch, Collapse(ps));
            (s == [] <==> c == []) && (s != [] ==> c[|c| - 1] == s[|s| - 1])
  {
    if |ps| >= 2 {
      CollapseKeepsLastState(ch, ps[1..]);
      var c := Collapse(ps);
      if Continues(ps[0], ps[1]) {
        BatchExactly(ps[0], ps[1]);
        BatchedShape(ps[0], ps[1]);
      } else {
        assert c[1..] == Collapse(ps[1..]);
      }
    }
  }

  /** The view of a channel determines the changes of what its packets say, and its last state. */
  lemma SameViewSameMarks(ch: Channel, ps: seq<Packet>, qs: seq<Packet>)
    requires KeepsLatest(ch) && View(ch, ps) == View(ch, qs)
    ensures Dedup(Marks(ch, ps)) == Dedup(Marks(ch, qs))
    ensures var s, t := States(ch, ps), States(ch, qs);
            (s == [] <==> t == []) && (s != [] ==> s[|s| - 1] == t[|t| - 1])
  {
    MarksOfView(ch, ps);
    MarksOfView(ch, qs);
    CollapseKeepsMarks(ch, Observed(ch, ps));
    CollapseKeepsMarks(ch, Observed(ch, qs));
    CollapseKeepsLastState(ch, Observed(ch, ps));
    CollapseKeepsLastState(ch, Observed(ch, qs));
  }
}
