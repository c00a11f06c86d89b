/**
  What the host receives, event by event: for every packet, repeat and reset exactly which
  key events are sent, and over whole runs how often each key is pressed.
 */
module KeyboardLog {
  import opened Options
  import opened KeyboardSpec
  import opened KeyboardTheorems

  /** What a step adds to the host's log. */
  function Sent(s: KeyState, s': KeyState): seq<KeyEvent>
    requires s.log <= s'.log
  {
    s'.log[|s.log|..]
  }

  /**
    One press of a host key inside the presses and releases of the side-less keys of the
    wanted modifier groups, shift before control before alt, all with the same flags byte.
   */
  ghost predicate WrapsPress(es: seq<KeyEvent>, image: Word, flags: Byte, wanted: set<Group>) {
    var n := |wanted|;
    && |es| == 2 * n + 1 && es[n] == KeyEvent(image, false, flags)
    && (forall i | 0 <= i < |es| :: es[i].flags == flags)
    && (forall i | 0 <= i < n :: !es[i].release && es[n + 1 + i] == es[i].(release := true))
    && (forall i, j | 0 <= i < j < n :: es[i].code < es[j].code)
    && forall g: Group :: g in wanted <==> exists i :: 0 <= i < n && es[i].code == CodeOf(g, Generic)
  }

  function GroupsOf(m: Modifiers): set<Group> {
    (if m.shift then {Shift} else {}) + (if m.control then {Control} else {}) + (if m.alt then {Alt} else {})
  }

  lemma GroupsOfGet(m: Modifiers, g: Group)
    ensures g in GroupsOf(m) <==> m.Get(g)
  {
  }

  /** The codes of the wanted groups, in order. */
  lemma SyntheticShape(m: Modifiers, release: bool, flags: Byte)
    ensures var es := SyntheticEvents(m, release, flags);
            && |es| == |GroupsOf(m)|
            && (forall i | 0 <= i < |es| :: es[i].flags == flags && es[i].release == release)
            && (forall i, j | 0 <= i < j < |es| :: es[i].code < es[j].code)
            && forall g: Group :: g in GroupsOf(m) <==> exists i :: 0 <= i < |es| && es[i].code == CodeOf(g, Generic)
  {
    SyntheticCount(m, release, flags);
    SyntheticOrder(m, release, flags);
    forall g: Group
      ensures g in GroupsOf(m) <==>
                exists i :: 0 <= i < |SyntheticEvents(m, release, flags)| && SyntheticEvents(m, release, flags)[i].code == CodeOf(g, Generic)
    {
      SyntheticOf(m, release, flags, g);
    }
  }

  lemma SyntheticOrder(m: Modifiers, release: bool, flags: Byte)
    ensures var es := SyntheticEvents(m, release, flags);
            && (forall i | 0 <= i < |es| :: es[i].flags == flags && es[i].release == release)
            && forall i, j | 0 <= i < j < |es| :: es[i].code < es[j].code
  {
  }

  lemma SyntheticOf(m: Modifiers, release: bool, flags: Byte, g: Group)
    ensures var es := SyntheticEvents(m, release, flags);
            g in GroupsOf(m) <==> exists i :: 0 <= i < |es| && es[i].code == CodeOf(g, Generic)
  {
    var es := SyntheticEvents(m, release, flags);
    if g in GroupsOf(m) {
      var i := if g == Shift then 0 else if g == Control then (if m.shift then 1 else 0) else |es| - 1;
      assert es[i].code == CodeOf(g, Generic);
    }
  }

  /** The releases mirror the presses. */
  lemma SyntheticPairs(m: Modifiers, flags: Byte)
    ensures |SyntheticEvents(m, true, flags)| == |SyntheticEvents(m, false, flags)|
    ensures forall i | 0 <= i < |SyntheticEvents(m, false, flags)| ::
              SyntheticEvents(m, true, flags)[i] == SyntheticEvents(m, false, flags)[i].(release := true)
  {
  }

  lemma SyntheticCount(m: Modifiers, release: bool, flags: Byte)
    ensures |SyntheticEvents(m, release, flags)| == |GroupsOf(m)|
      == (if m.shift then 1 else 0) + (if m.control then 1 else 0) + (if m.alt then 1 else 0)
  {
  }

  lemma PressIsWrapped(cfg: Config, code: Byte, flags: Byte, m: Modifiers)
    ensures WrapsPress(KeyEvents(cfg, code, false, flags, m), HostCode(cfg, code), flags, GroupsOf(m))
  {
    SyntheticShape(m, false, flags);
    SyntheticPairs(m, flags);
    var es := KeyEvents(cfg, code, false, flags, m);
    var down, up, n := SyntheticEvents(m, false, flags), SyntheticEvents(m, true, flags), |GroupsOf(m)|;
    hide SyntheticEvents, GroupsOf, HostCode, CodeOf;
    assert es == down + [KeyEvent(HostCode(cfg, code), false, flags)] + up;
    assert forall i | 0 <= i < n :: es[i] == down[i] && es[n + 1 + i] == up[i];
  }

  /** The nine modifier keys by their virtual-key codes, side-less first. */
  lemma ModifierKeyCodes()
    ensures CodeOf(Shift, Generic) == 0x10 && CodeOf(Control, Generic) == 0x11 && CodeOf(Alt, Generic) == 0x12
    ensures CodeOf(Shift, Left) == 0xA0 && CodeOf(Shift, Right) == 0xA1
    ensures CodeOf(Control, Left) == 0xA2 && CodeOf(Control, Right) == 0xA3
    ensures CodeOf(Alt, Left) == 0xA4 && CodeOf(Alt, Right) == 0xA5
    ensures forall code: Byte :: ModifierOf(code).Some? <==> code in {0x10, 0x11, 0x12, 0xA0, 0xA1, 0xA2, 0xA3, 0xA4, 0xA5}
  {
  }

  // ----- One packet -----

  /** The client's modifier counts: right Alt bound to the Windows key does not make an Alt. */
  predicate Counts(s: KeyState, cfg: Config, g: Group) {
    g == Alt && cfg.rightAltIsWin ==> s.sides.alt.left || !s.sides.alt.right
  }

  /** The press needs a modifier that the client reports and the server does not believe to be down. */
  predicate Wants(s: KeyState, cfg: Config, p: KeyPacket, g: Group) {
    p.modifiers.Get(g) && !s.shortcutFlags.Get(g) && Counts(s, cfg, g) && ModifierOf(p.keyCode % 0x100).None?
  }

  function WantedBy(s: KeyState, cfg: Config, p: KeyPacket): set<Group> {
    set g: Group | Wants(s, cfg, p, g)
  }

  /** With shift, control and alt held, F1 to F13 and N belong to the server. */
  predicate IsTaken(s: KeyState, code: Byte) {
    (forall g: Group :: s.shortcutFlags.Get(g)) && (code == 0x4E || 0x70 <= code <= 0x7C)
  }

  function Entry(p: KeyPacket): nat {
    MakeKpid(p.keyCode % 0x100, p.flags)
  }

  /** The packet presses a key that is up. */
  predicate Presses(s: KeyState, cfg: Config, p: KeyPacket) {
    cfg.keyboard && !p.release && !Pressed(s, Entry(p)) && !IsTaken(s, p.keyCode % 0x100)
  }

  /** The packet releases a key that is down. */
  predicate Releases(s: KeyState, cfg: Config, p: KeyPacket) {
    cfg.keyboard && p.release && Pressed(s, Entry(p))
  }

  lemma WantedGroups(s: KeyState, cfg: Config, p: KeyPacket, g: Group)
    requires !p.release
    ensures var sides := UpdateModifierState(s.sides, p.keyCode % 0x100, false);
            g in GroupsOf(SyntheticFor(s.(sides := sides), cfg, p)) <==> Wants(s, cfg, p, g)
  {
  }

  lemma Taken(s: KeyState, code: Byte)
    ensures IsTaken(s, code) <==> s.shortcutFlags == PerGroup(true, true, true) && IsShortcut(code)
  {
    if forall g: Group :: s.shortcutFlags.Get(g) {
      assert s.shortcutFlags.Get(Shift) && s.shortcutFlags.Get(Control) && s.shortcutFlags.Get(Alt);
    }
  }

  /**
    A press of a key that is up sends exactly one press of its image inside the modifiers it
    wants, marks it and schedules its repeat; a release of a key that is down sends exactly
    one release; every other packet sends nothing and marks nothing.
   */
  lemma PacketSends(s: KeyState, cfg: Config, p: KeyPacket)
    ensures var s' := HandlePacket(s, cfg, p);
            && s.log <= s'.log
            && (Presses(s, cfg, p) ==>
                  && Pressed(s', Entry(p))
                  && s'.pending.Some? == cfg.repeats
                  && (cfg.repeats ==> s'.pending.value.code == p.keyCode % 0x100 && s'.pending.value.flags == p.flags)
                  && WrapsPress(Sent(s, s'), ImageOf(cfg, Entry(p)), p.flags, WantedBy(s, cfg, p))
                  && (cfg.repeats ==> forall g: Group :: s'.pending.value.synthetic.Get(g) == Wants(s, cfg, p, g)))
            && (Releases(s, cfg, p) ==>
                  && !Pressed(s', Entry(p)) && s'.pending == s.pending
                  && Sent(s, s') == [KeyEvent(ImageOf(cfg, Entry(p)), true, p.flags)])
            && (!Presses(s, cfg, p) && !Releases(s, cfg, p) ==>
                  s'.log == s.log && s'.pending == s.pending && Pressed(s', Entry(p)) == Pressed(s, Entry(p)))
            && forall k: nat | k != Entry(p) :: Pressed(s', k) == Pressed(s, k)
  {
    var s' := HandlePacket(s, cfg, p);
    var code := p.keyCode % 0x100;
    ImageOfKey(cfg, code, p.flags);
    Taken(s, code);
    hide IsTaken, IsShortcut, HostCode, ImageOf, MakeKpid, UpdateShortcutFlags, ModifierOf, WrapsPress;
    if Presses(s, cfg, p) {
      PressSends(s, cfg, p);
    } else if Releases(s, cfg, p) {
      hide UpdateModifierState, SyntheticFor;
      assert s'.log == s.log + [KeyEvent(HostCode(cfg, code), true, p.flags)];
    }
  }

  lemma PressSends(s: KeyState, cfg: Config, p: KeyPacket)
    requires Presses(s, cfg, p)
    ensures var s' := HandlePacket(s, cfg, p);
            && s.log <= s'.log
            && (cfg.repeats ==> s'.pending.Some? && forall g: Group :: s'.pending.value.synthetic.Get(g) == Wants(s, cfg, p, g))
            && WrapsPress(Sent(s, s'), ImageOf(cfg, Entry(p)), p.flags, WantedBy(s, cfg, p))
  {
    var code := p.keyCode % 0x100;
    var m := SyntheticFor(s.(sides := UpdateModifierState(s.sides, code, false)), cfg, p);
    ImageOfKey(cfg, code, p.flags);
    Taken(s, code);
    PressIsWrapped(cfg, code, p.flags, m);
    forall g: Group ensures g in GroupsOf(m) <==> Wants(s, cfg, p, g) {
      WantedGroups(s, cfg, p, g);
    }
    forall g: Group ensures m.Get(g) == Wants(s, cfg, p, g) {
      GroupsOfGet(m, g);
    }
    hide IsTaken, IsShortcut, HostCode, ImageOf, MakeKpid, UpdateShortcutFlags, UpdateModifierState, ModifierOf,
         SyntheticFor, KeyEvents, Wants, GroupsOf, WrapsPress;
    assert GroupsOf(m) == WantedBy(s, cfg, p);
    var s' := HandlePacket(s, cfg, p);
    assert s'.log == s.log + KeyEvents(cfg, code, false, p.flags, m);
  }

  /**
    Every press finds the modifiers its client reports: a modifier that counts is believed to
    be down already or is wanted, never both.
   */
  lemma ReportedModifiersAreDown(s: KeyState, cfg: Config, p: KeyPacket, g: Group)
    requires ModifierOf(p.keyCode % 0x100).None? && p.modifiers.Get(g) && Counts(s, cfg, g)
    ensures s.shortcutFlags.Get(g) != Wants(s, cfg, p, g)
  {
  }

  // ----- Repeats and resets -----

  /**
    A repeat of a key that is down sends exactly one more press of its image and stays
    scheduled; a repeat of a key that is up sends nothing and is gone.
   */
  lemma RepeatSends(s: KeyState, cfg: Config, code: Byte, flags: Byte, m: Modifiers)
    ensures var s' := Next(s, cfg, Repeat(code, flags, m));
            var k := MakeKpid(code, flags);
            && s.log <= s'.log && (forall j: nat :: Pressed(s', j) == Pressed(s, j))
            && (Pressed(s, k) ==>
                  && WrapsPress(Sent(s, s'), ImageOf(cfg, k), flags, GroupsOf(m))
                  && s'.pending == Some(RepeatTask(code, flags, m)))
            && (!Pressed(s, k) ==> s'.log == s.log && s'.pending == None)
  {
    PressIsWrapped(cfg, code, flags, m);
    ImageOfKey(cfg, code, flags);
    hide KeyEvents, MakeKpid, ImageOf, HostCode, WrapsPress, GroupsOf;
    var s' := Next(s, cfg, Repeat(code, flags, m));
    if Pressed(s, MakeKpid(code, flags)) {
      assert s'.log == s.log + KeyEvents(cfg, code, false, flags, m);
    }
  }

  /** The pressed ones of the visited keys, in the order of the visit. */
  function PressedOf(s: KeyState, order: seq<nat>): seq<nat> {
    if order == [] then []
    else (if Pressed(s, order[0]) then [order[0]] else []) + PressedOf(s, order[1..])
  }

  lemma {:induction false} PressedOfAfter(s: KeyState, cfg: Config, order: seq<nat>, k: nat)
    requires k !in order
    ensures PressedOf(ReleaseKey(s, cfg, k), order) == PressedOf(s, order)
  {
    hide ImageOf;
    if order == [] {
    } else {
      assert order[0] in order && forall j | j in order[1..] :: j in order;
      PressedOfAfter(s, cfg, order[1..], k);
    }
  }

  lemma {:induction false} PressedOfIsPressed(s: KeyState, order: seq<nat>)
    requires forall i, j | 0 <= i < j < |order| :: order[i] != order[j]
    ensures var ks := PressedOf(s, order);
            && (forall k :: k in ks <==> k in order && Pressed(s, k))
            && forall i, j | 0 <= i < j < |ks| :: ks[i] != ks[j]
  {
    if order == [] {
    } else {
      var rest := PressedOf(s, order[1..]);
      PressedOfIsPressed(s, order[1..]);
      assert order == [order[0]] + order[1..];
      assert order[0] !in rest;
      if Pressed(s, order[0]) {
        var ks := [order[0]] + rest;
        assert PressedOf(s, order) == ks;
        assert forall i | 0 < i < |ks| :: ks[i] == rest[i - 1] && ks[i] in rest;
      } else {
        assert PressedOf(s, order) == rest;
      }
    }
  }

  lemma {:induction false} ResetSendsAll(s: KeyState, cfg: Config, order: seq<nat>)
    requires forall i, j | 0 <= i < j < |order| :: order[i] != order[j]
    ensures var s' := HandleReset(s, cfg, order);
            var ks := PressedOf(s, order);
            && s.log <= s'.log && |Sent(s, s')| == |ks|
            && forall i | 0 <= i < |ks| :: Sent(s, s')[i] == KeyEvent(ImageOf(cfg, ks[i]), true, FlagsFromKpid(ks[i]))
    decreases |order|
  {
    hide ImageOf, FlagsFromKpid;
    if order == [] {
    } else {
      var k, rest := order[0], order[1..];
      var s1 := ReleaseKey(s, cfg, k);
      assert k !in rest;
      ResetSendsAll(s1, cfg, rest);
      PressedOfAfter(s, cfg, rest, k);
      var s' := HandleReset(s, cfg, order);
      if Pressed(s, k) {
        assert Sent(s, s') == [KeyEvent(ImageOf(cfg, k), true, FlagsFromKpid(k))] + Sent(s1, s');
      } else {
        assert Sent(s, s') == Sent(s1, s');
      }
    }
  }

  /** A reset sends exactly one release for each key that is down, with that key's image and flags byte, and leaves none down. */
  lemma ResetSends(s: KeyState, cfg: Config, order: seq<nat>) returns (ks: seq<nat>)
    requires Enumerates(s, order)
    ensures var s' := HandleReset(s, cfg, order);
            && (forall k :: k in ks <==> Pressed(s, k))
            && (forall i, j | 0 <= i < j < |ks| :: ks[i] != ks[j])
            && s.log <= s'.log && |Sent(s, s')| == |ks|
            && (forall i | 0 <= i < |ks| :: Sent(s, s')[i] == KeyEvent(ImageOf(cfg, ks[i]), true, FlagsFromKpid(ks[i])))
            && forall k: nat :: !Pressed(s', k)
  {
    ks := PressedOf(s, order);
    ResetSendsAll(s, cfg, order);
    PressedOfIsPressed(s, order);
    forall k: nat ensures !Pressed(HandleReset(s, cfg, order), k) {
      ResetReleases(s, cfg, order, k);
    }
  }

  // ----- Whole runs -----

  /** How often an event occurs. */
  function Count(es: seq<KeyEvent>, e: KeyEvent): nat {
    multiset(es)[e]
  }

  /** The event presses the host key with this image and flags byte: a press of a key that is up, or a repeat of one that is down. */
  predicate PressesHost(s: KeyState, cfg: Config, e: Event, image: Word, flags: Byte) {
    match e
    case Packet(p) => Presses(s, cfg, p) && ImageOf(cfg, Entry(p)) == image && p.flags == flags
    case Repeat(code, f, _) => Pressed(s, MakeKpid(code, f)) && ImageOf(cfg, MakeKpid(code, f)) == image && f == flags
    case Cancel => false
    case Reset(_) => false
  }

  function PressesIn(s: KeyState, cfg: Config, events: seq<Event>, image: Word, flags: Byte): nat
    decreases |events|
  {
    if events == [] then 0
    else (if PressesHost(s, cfg, events[0], image, flags) then 1 else 0)
         + PressesIn(Next(s, cfg, events[0]), cfg, events[1..], image, flags)
  }

  predicate IsSideless(code: Word) {
    exists g: Group :: code == CodeOf(g, Generic)
  }

  /** Of a wrapped press only its middle presses a key that is no side-less modifier. */
  lemma WrappedCount(es: seq<KeyEvent>, image: Word, flags: Byte, wanted: set<Group>, e: KeyEvent)
    requires WrapsPress(es, image, flags, wanted) && !e.release && !IsSideless(e.code)
    ensures Count(es, e) == if e == KeyEvent(image, false, flags) then 1 else 0
  {
    var n := |wanted|;
    hide CodeOf;
    forall i | 0 <= i < n ensures es[i].code != e.code {
      SidelessCode(es, image, flags, wanted, i);
    }
    forall i | n < i < |es| ensures es[i].release {
      assert es[n + 1 + (i - n - 1)] == es[i - n - 1].(release := true);
    }
    assert es == es[..n] + [es[n]] + es[n + 1..];
    assert e !in es[..n] && e !in es[n + 1..];
  }

  /** Every wrapping event is of a side-less modifier: there are as many as wanted groups, all different. */
  lemma SidelessCode(es: seq<KeyEvent>, image: Word, flags: Byte, wanted: set<Group>, i: nat)
    requires WrapsPress(es, image, flags, wanted) && i < |wanted|
    ensures IsSideless(es[i].code)
  {
    var n := |wanted|;
    var codes := set k | 0 <= k < n :: es[k].code;
    var sideless := set g: Group | g in wanted :: CodeOf(g, Generic);
    CodesDiffer(es, n);
    GroupCodesDiffer(wanted);
    assert sideless <= codes;
    SubsetOfSameSize(sideless, codes);
    assert es[i].code in codes;
  }

  lemma {:induction false} CodesDiffer(es: seq<KeyEvent>, n: nat)
    requires n <= |es| && forall i, j | 0 <= i < j < n :: es[i].code < es[j].code
    ensures |set k | 0 <= k < n :: es[k].code| == n
  {
    if n == 0 {
    } else {
      CodesDiffer(es, n - 1);
      assert (set k | 0 <= k < n :: es[k].code) == (set k | 0 <= k < n - 1 :: es[k].code) + {es[n - 1].code};
    }
  }

  lemma {:induction false} GroupCodesDiffer(gs: set<Group>)
    ensures |set g: Group | g in gs :: CodeOf(g, Generic)| == |gs|
  {
    if gs == {} {
    } else {
      var g :| g in gs;
      GroupCodesDiffer(gs - {g});
      assert (set h: Group | h in gs :: CodeOf(h, Generic))
          == (set h: Group | h in gs - {g} :: CodeOf(h, Generic)) + {CodeOf(g, Generic)};
    }
  }

  lemma {:induction false} SubsetOfSameSize<T>(a: set<T>, b: set<T>)
    requires a <= b && |a| == |b|
    ensures a == b
  {
    if b - a != {} {
      var x :| x in b - a;
      SmallerSubset(a, b - {x});
      assert false;
    }
  }

  lemma {:induction false} SmallerSubset<T>(a: set<T>, b: set<T>)
    requires a <= b
    ensures |a| <= |b|
  {
    if a == {} {
    } else {
      var x :| x in a;
      SmallerSubset(a - {x}, b - {x});
    }
  }

  lemma StepPresses(s: KeyState, cfg: Config, e: Event, image: Word, flags: Byte)
    requires Allowed(s, e) && !IsSideless(image)
    ensures Count(Next(s, cfg, e).log, KeyEvent(image, false, flags))
         == Count(s.log, KeyEvent(image, false, flags)) + (if PressesHost(s, cfg, e, image, flags) then 1 else 0)
  {
    hide HandlePacket, HandleRepeat, HandleReset, WrapsPress, IsSideless, ImageOf, MakeKpid, Wants, Presses, Releases, Entry;
    var s', press := Next(s, cfg, e), KeyEvent(image, false, flags);
    match e
    case Packet(p) =>
      PacketSends(s, cfg, p);
      assert s'.log == s.log + Sent(s, s');
      if Presses(s, cfg, p) {
        WrappedCount(Sent(s, s'), ImageOf(cfg, Entry(p)), p.flags, WantedBy(s, cfg, p), press);
      } else if !Releases(s, cfg, p) {
        assert Sent(s, s') == [];
      }
    case Repeat(code, f, m) =>
      RepeatSends(s, cfg, code, f, m);
      assert s'.log == s.log + Sent(s, s');
      if Pressed(s, MakeKpid(code, f)) {
        WrappedCount(Sent(s, s'), ImageOf(cfg, MakeKpid(code, f)), f, GroupsOf(m), press);
      }
    case Cancel =>
    case Reset(order) =>
      var ks := ResetSends(s, cfg, order);
      assert s'.log == s.log + Sent(s, s');
      assert press !in Sent(s, s');
  }

  /**
    Over every run, a host key that is no side-less modifier is pressed exactly as often as
    keys with that image were pressed anew or repeated while down.
   */
  lemma {:induction false} PressesAreCounted(s: KeyState, cfg: Config, events: seq<Event>, image: Word, flags: Byte)
    requires IsRun(s, cfg, events) && !IsSideless(image)
    ensures Count(After(s, cfg, events).log, KeyEvent(image, false, flags))
         == Count(s.log, KeyEvent(image, false, flags)) + PressesIn(s, cfg, events, image, flags)
    decreases |events|
  {
    hide Next, PressesHost, IsSideless, Count, Allowed;
    if events == [] {
    } else {
      StepPresses(s, cfg, events[0], image, flags);
      PressesAreCounted(Next(s, cfg, events[0]), cfg, events[1..], image, flags);
    }
  }
}
