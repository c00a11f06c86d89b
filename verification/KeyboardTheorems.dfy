/** What holds of the host keyboard and of the modifier bookkeeping in every run. */
module KeyboardTheorems {
  import opened Options
  import opened KeyboardSpec

  datatype Event =
    | Packet(packet: KeyPacket)
    | Repeat(code: Byte, flags: Byte, synthetic: Modifiers)  // any auto-repeat task, at any time
    | Cancel
    | Reset(order: seq<nat>)

  predicate Allowed(s: KeyState, e: Event) {
    e.Reset? ==> Enumerates(s, e.order)
  }

  function Next(s: KeyState, cfg: Config, e: Event): KeyState {
    match e
    case Packet(p) => HandlePacket(s, cfg, p)
    case Repeat(code, flags, synthetic) => HandleRepeat(s, cfg, code, flags, synthetic)
    case Cancel => s.(pending := None)
    case Reset(order) => HandleReset(s, cfg, order)
  }

  predicate IsRun(s: KeyState, cfg: Config, events: seq<Event>)
    decreases |events|
  {
    events == [] || (Allowed(s, events[0]) && IsRun(Next(s, cfg, events[0]), cfg, events[1..]))
  }

  function After(s: KeyState, cfg: Config, events: seq<Event>): KeyState
    decreases |events|
  {
    if events == [] then s else After(Next(s, cfg, events[0]), cfg, events[1..])
  }

  // ----- The host -----

  /** The host keys that are down after the logged events. */
  function Held(log: seq<KeyEvent>): set<Word> {
    if log == [] then {}
    else
      var e := log[|log| - 1];
      var before := Held(log[..|log| - 1]);
      if e.release then before - {e.code} else before + {e.code}
  }

  lemma {:induction false} HeldAppend(log: seq<KeyEvent>, e: KeyEvent)
    ensures Held(log + [e]) == if e.release then Held(log) - {e.code} else Held(log) + {e.code}
  {
    assert (log + [e])[..|log|] == log;
  }

  /** Events of one kind: all their codes end up down, or all up. */
  lemma {:induction false} HeldAll(log: seq<KeyEvent>, es: seq<KeyEvent>, release: bool)
    requires forall e | e in es :: e.release == release
    ensures var codes := set e | e in es :: e.code;
            Held(log + es) == if release then Held(log) - codes else Held(log) + codes
  {
    if es == [] {
      assert log + es == log;
    } else {
      var n := |es| - 1;
      var init, last := es[..n], es[n];
      assert log + es == (log + init) + [last] && es == init + [last];
      HeldAll(log, init, release);
      HeldAppend(log + init, last);
      assert (set e | e in es :: e.code) == (set e | e in init :: e.code) + {last.code};
    }
  }

  /** The keys that the synthetic events around a press put down and up again. */
  function SyntheticKeys(synthetic: Modifiers): set<Word> {
    (if synthetic.shift then {VKEY_SHIFT} else {}) + (if synthetic.control then {VKEY_CONTROL} else {})
    + (if synthetic.alt then {VKEY_MENU} else {})
  }

  /** A press puts the key down and leaves the synthetic modifiers up; a release leaves the key up. */
  lemma SendingKey(log: seq<KeyEvent>, cfg: Config, code: Byte, release: bool, flags: Byte, synthetic: Modifiers)
    ensures var h := HostCode(cfg, code);
            var after := Held(log + KeyEvents(cfg, code, release, flags, synthetic));
            after == if release then Held(log) - {h} else Held(log) + {h} - SyntheticKeys(synthetic)
  {
    hide SyntheticEvents, SyntheticKeys, HostCode, Held;
    if release {
      HeldAppend(log, KeyEvent(HostCode(cfg, code), true, flags));
    } else {
      SendingPress(log, KeyEvent(HostCode(cfg, code), false, flags), synthetic, flags);
    }
  }

  lemma SendingPress(log: seq<KeyEvent>, key: KeyEvent, synthetic: Modifiers, flags: Byte)
    requires !key.release
    ensures Held(log + (SyntheticEvents(synthetic, false, flags) + [key] + SyntheticEvents(synthetic, true, flags)))
         == Held(log) + {key.code} - SyntheticKeys(synthetic)
  {
    var down, up := SyntheticEvents(synthetic, false, flags), SyntheticEvents(synthetic, true, flags);
    SyntheticDirection(synthetic, flags);
    SyntheticCodes(synthetic, false, flags);
    SyntheticCodes(synthetic, true, flags);
    hide *;
    HeldAll(log, down, false);
    HeldAppend(log + down, key);
    HeldAll(log + down + [key], up, true);
    assert log + (down + [key] + up) == log + down + [key] + up;
  }

  lemma SyntheticDirection(synthetic: Modifiers, flags: Byte)
    ensures forall e | e in SyntheticEvents(synthetic, false, flags) :: !e.release
    ensures forall e | e in SyntheticEvents(synthetic, true, flags) :: e.release
  {
  }

  lemma SyntheticCodes(synthetic: Modifiers, release: bool, flags: Byte)
    ensures (set e | e in SyntheticEvents(synthetic, release, flags) :: e.code) == SyntheticKeys(synthetic)
  {
    var codes := SyntheticKeys(synthetic);
    var es := SyntheticEvents(synthetic, release, flags);
    forall c | c in codes ensures c in (set e | e in es :: e.code) {
      assert KeyEvent(c, release, flags) in es;
    }
  }

  // ----- No stuck keys -----

  /** Every host key that is down is the image of a client key marked pressed. */
  ghost predicate Justified(s: KeyState, cfg: Config) {
    forall h | h in Held(s.log) :: exists k :: Pressed(s, k) && ImageOf(cfg, k) == h
  }

  lemma ImageOfKey(cfg: Config, code: Byte, flags: Byte)
    ensures ImageOf(cfg, MakeKpid(code, flags)) == HostCode(cfg, code)
  {
    KpidRoundTrip(code, flags);
  }

  lemma PressJustified(s: KeyState, s': KeyState, cfg: Config, code: Byte, flags: Byte, synthetic: Modifiers)
    requires Justified(s, cfg)
    requires forall k | Pressed(s, k) :: Pressed(s', k)
    requires Pressed(s', MakeKpid(code, flags))
    requires s'.log == s.log + KeyEvents(cfg, code, false, flags, synthetic)
    ensures Justified(s', cfg)
  {
    hide Held, KeyEvents, HostCode, ImageOf, MakeKpid;
    SendingKey(s.log, cfg, code, false, flags, synthetic);
    ImageOfKey(cfg, code, flags);
    forall h | h in Held(s'.log) ensures exists k :: Pressed(s', k) && ImageOf(cfg, k) == h {
      if h == HostCode(cfg, code) {
        assert ImageOf(cfg, MakeKpid(code, flags)) == h;
      } else {
        var k :| Pressed(s, k) && ImageOf(cfg, k) == h;
        assert Pressed(s', k);
      }
    }
  }

  lemma ReleaseJustified(s: KeyState, s': KeyState, cfg: Config, kpid: nat)
    requires Justified(s, cfg)
    requires forall k | Pressed(s, k) && k != kpid :: Pressed(s', k)
    requires Held(s'.log) == Held(s.log) - {ImageOf(cfg, kpid)}
    ensures Justified(s', cfg)
  {
    forall h | h in Held(s'.log) ensures exists k :: Pressed(s', k) && ImageOf(cfg, k) == h {
      var k :| Pressed(s, k) && ImageOf(cfg, k) == h;
      assert Pressed(s', k);
    }
  }

  lemma SameLogJustified(s: KeyState, s': KeyState, cfg: Config)
    requires Justified(s, cfg) && s'.log == s.log && forall k | Pressed(s, k) :: Pressed(s', k)
    ensures Justified(s', cfg)
  {
    forall h | h in Held(s'.log) ensures exists k :: Pressed(s', k) && ImageOf(cfg, k) == h {
      var k :| Pressed(s, k) && ImageOf(cfg, k) == h;
      assert Pressed(s', k);
    }
  }

  lemma PacketJustified(s: KeyState, cfg: Config, p: KeyPacket)
    requires Justified(s, cfg)
    ensures Justified(HandlePacket(s, cfg, p), cfg)
  {
    hide UpdateModifierState, UpdateShortcutFlags, SyntheticFor, Held, KeyEvents, Justified, ImageOf, HostCode;
    var code := p.keyCode % 0x100;
    var kpid := MakeKpid(code, p.flags);
    var s' := HandlePacket(s, cfg, p);
    var pressed := Pressed(s, kpid);
    if !cfg.keyboard || pressed == !p.release
       || (!pressed && s.shortcutFlags == PerGroup(true, true, true) && IsShortcut(code)) {
      SameLogJustified(s, s', cfg);
    } else if p.release {
      ReleaseOnHost(s.log, cfg, code, p.flags);
      ReleaseJustified(s, s', cfg, kpid);
    } else {
      var s1 := s.(sides := UpdateModifierState(s.sides, code, p.release));
      PressJustified(s, s', cfg, code, p.flags, SyntheticFor(s1, cfg, p));
    }
  }

  lemma ReleaseOnHost(log: seq<KeyEvent>, cfg: Config, code: Byte, flags: Byte)
    ensures forall synthetic ::
              Held(log + KeyEvents(cfg, code, true, flags, synthetic)) == Held(log) - {ImageOf(cfg, MakeKpid(code, flags))}
  {
    KpidRoundTrip(code, flags);
    forall synthetic {
      SendingKey(log, cfg, code, true, flags, synthetic);
    }
  }

  lemma {:induction false} ResetJustified(s: KeyState, cfg: Config, order: seq<nat>)
    requires Justified(s, cfg)
    ensures Justified(HandleReset(s, cfg, order), cfg)
    decreases |order|
  {
    hide Justified, Held, ImageOf;
    if order == [] {
    } else {
      var k := order[0];
      var s' := ReleaseKey(s, cfg, k);
      if Pressed(s, k) {
        HeldAppend(s.log, KeyEvent(ImageOf(cfg, k), true, FlagsFromKpid(k)));
        ReleaseJustified(s, s', cfg, k);
      }
      ResetJustified(s', cfg, order[1..]);
    }
  }

  lemma StepJustified(s: KeyState, cfg: Config, e: Event)
    requires Justified(s, cfg)
    ensures Justified(Next(s, cfg, e), cfg)
  {
    hide HandlePacket, HandleReset, Justified;
    match e
    case Packet(p) => PacketJustified(s, cfg, p);
    case Repeat(code, flags, synthetic) =>
      var s' := HandleRepeat(s, cfg, code, flags, synthetic);
      if Pressed(s, MakeKpid(code, flags)) {
        PressJustified(s, s', cfg, code, flags, synthetic);
      } else {
        SameLogJustified(s, s', cfg);
      }
    case Cancel => SameLogJustified(s, Next(s, cfg, e), cfg);
    case Reset(order) => ResetJustified(s, cfg, order);
  }

  /**
    In every interleaving of key packets, repeat firings and resets, a key held on the host
    is the image of a client key marked pressed.
   */
  lemma {:induction false} HeldKeysAreJustified(s: KeyState, cfg: Config, events: seq<Event>)
    requires Justified(s, cfg)
    ensures Justified(After(s, cfg, events), cfg)
    decreases |events|
  {
    hide Justified, Next;
    if events == [] {
    } else {
      StepJustified(s, cfg, events[0]);
      HeldKeysAreJustified(Next(s, cfg, events[0]), cfg, events[1..]);
    }
  }

  /** Reset leaves no visited key pressed and presses nothing. */
  lemma {:induction false} ResetReleases(s: KeyState, cfg: Config, order: seq<nat>, k: nat)
    ensures var s' := HandleReset(s, cfg, order);
            && s'.press.Keys == s.press.Keys
            && (Pressed(s', k) <==> Pressed(s, k) && k !in order)
            && s'.sides == s.sides && s'.shortcutFlags == s.shortcutFlags
    decreases |order|
  {
    hide ImageOf;
    if order == [] {
    } else {
      ResetReleases(ReleaseKey(s, cfg, order[0]), cfg, order[1..], k);
    }
  }

  /** After any run, a reset leaves no key down on the host, in whatever order the table is visited. */
  lemma NoStuckKeys(cfg: Config, events: seq<Event>, order: seq<nat>)
    requires IsRun(START, cfg, events) && Enumerates(After(START, cfg, events), order)
    ensures Held(HandleReset(After(START, cfg, events), cfg, order).log) == {}
  {
    HeldKeysAreJustified(START, cfg, events);
    var s := After(START, cfg, events);
    ResetJustified(s, cfg, order);
    var s' := HandleReset(s, cfg, order);
    forall h | h in Held(s'.log) ensures false {
      var k :| Pressed(s', k) && ImageOf(cfg, k) == h;
      ResetReleases(s, cfg, order, k);
    }
  }

  // ----- Modifier bookkeeping -----

  /** The flags bytes with which a client sends each key. */
  type AllowedBytes = Byte -> set<Byte>

  predicate SendsAllowed(e: Event, allowed: AllowedBytes) {
    e.Packet? ==> e.packet.flags in allowed(e.packet.keyCode % 0x100)
  }

  predicate IsResetFree(events: seq<Event>, allowed: AllowedBytes) {
    forall e | e in events :: SendsAllowed(e, allowed) && !e.Reset?
  }

  /** None of the nine modifier keys comes with two flags bytes; other keys may. */
  ghost predicate OneModifierByte(allowed: AllowedBytes) {
    forall g: Group, side: Side, f0, f1 | f0 in allowed(CodeOf(g, side)) && f1 in allowed(CodeOf(g, side)) :: f0 == f1
  }

  /** Some entry of the key table says that the key is pressed. */
  ghost predicate KeyDown(s: KeyState, code: Byte) {
    exists f: Byte :: Pressed(s, MakeKpid(code, f))
  }

  /** Every shortcut bit is set exactly when one of its side keys is recorded. */
  predicate BitsAgree(s: KeyState) {
    forall g: Group :: s.shortcutFlags.Get(g) <==> s.sides.Get(g).AnyPressed()
  }

  /** A shortcut bit is set exactly when one of its three side keys is pressed, in both records. */
  ghost predicate Synchronized(s: KeyState) {
    && BitsAgree(s)
    && forall g: Group, side: Side :: s.sides.Get(g).Has(side) <==> KeyDown(s, CodeOf(g, side))
  }

  lemma ModifierCodes(g: Group, side: Side)
    ensures ModifierOf(CodeOf(g, side)) == Some((g, side))
    ensures !IsShortcut(CodeOf(g, side))
  {
  }

  lemma CodeOfModifier(code: Byte)
    ensures ModifierOf(code).Some? ==> CodeOf(ModifierOf(code).value.0, ModifierOf(code).value.1) == code
  {
  }

  lemma KpidInjective(a: Byte, f: Byte, b: Byte, g: Byte)
    requires MakeKpid(a, f) == MakeKpid(b, g)
    ensures a == b && f == g
  {
    KpidRoundTrip(a, f);
    KpidRoundTrip(b, g);
  }

  /** Only the side key that was sent changes. */
  lemma SideAfterUpdate(sides: PerGroup<ModifierKeys>, code: Byte, release: bool, g: Group, side: Side)
    ensures UpdateModifierState(sides, code, release).Get(g).Has(side)
         == if code == CodeOf(g, side) then !release else sides.Get(g).Has(side)
  {
    ModifierCodes(g, side);
    CodeOfModifier(code);
    hide CodeOf, ModifierOf;
  }

  /** The table's entry of a modifier key under one flags byte: the recorded side, if that byte is the key's own. */
  predicate EntryAgrees(s: KeyState, allowed: AllowedBytes, g: Group, side: Side, f: Byte) {
    var c := CodeOf(g, side);
    Pressed(s, MakeKpid(c, f)) <==> f in allowed(c) && s.sides.Get(g).Has(side)
  }

  /** What every step of a run with one byte per modifier keeps. */
  ghost predicate InStep(s: KeyState, allowed: AllowedBytes) {
    && BitsAgree(s)
    && (forall g: Group, side: Side :: s.sides.Get(g).Has(side) ==> exists f :: f in allowed(CodeOf(g, side)))
    && forall g: Group, side: Side, f: Byte :: EntryAgrees(s, allowed, g, side, f)
  }

  lemma InStepIsSynchronized(s: KeyState, allowed: AllowedBytes)
    requires InStep(s, allowed)
    ensures Synchronized(s)
  {
    hide Pressed, MakeKpid, CodeOf;
    forall g: Group, side: Side ensures s.sides.Get(g).Has(side) <==> KeyDown(s, CodeOf(g, side)) {
      var c := CodeOf(g, side);
      if s.sides.Get(g).Has(side) {
        var f: Byte :| f in allowed(c);
        assert EntryAgrees(s, allowed, g, side, f);
      }
      if KeyDown(s, c) {
        var f: Byte :| Pressed(s, MakeKpid(c, f));
        assert EntryAgrees(s, allowed, g, side, f);
      }
    }
  }

  lemma EntryAfterPacket(s: KeyState, cfg: Config, p: KeyPacket, allowed: AllowedBytes, g: Group, side: Side, f: Byte)
    requires OneModifierByte(allowed) && EntryAgrees(s, allowed, g, side, f)
    requires p.flags in allowed(p.keyCode % 0x100)
    ensures EntryAgrees(HandlePacket(s, cfg, p), allowed, g, side, f)
  {
    hide HostCode, KeyEvents, SyntheticFor, UpdateShortcutFlags, UpdateModifierState, IsShortcut, CodeOf, ModifierOf;
    var code := p.keyCode % 0x100;
    var c := CodeOf(g, side);
    ModifierCodes(g, side);
    SideAfterUpdate(s.sides, code, p.release, g, side);
    if MakeKpid(code, p.flags) == MakeKpid(c, f) {
      KpidInjective(code, p.flags, c, f);
    }
  }

  /** A bit follows its side keys through an event that is passed on. */
  lemma BitFollows(bits: Modifiers, sides: PerGroup<ModifierKeys>, code: Byte, release: bool, g: Group)
    requires bits.Get(g) <==> sides.Get(g).AnyPressed()
    ensures var after := UpdateModifierState(sides, code, release);
            UpdateShortcutFlags(bits, after, code, release).Get(g) <==> after.Get(g).AnyPressed()
  {
  }

  /** An event that says what is already recorded records nothing. */
  lemma NothingNew(sides: PerGroup<ModifierKeys>, code: Byte, release: bool)
    requires ModifierOf(code).Some? ==>
               var (g, side) := ModifierOf(code).value; sides.Get(g).Has(side) == !release
    ensures UpdateModifierState(sides, code, release) == sides
    ensures IsShortcut(code) ==> ModifierOf(code).None?
  {
  }

  lemma BitAfterPacket(s: KeyState, cfg: Config, p: KeyPacket, allowed: AllowedBytes, g: Group)
    requires InStep(s, allowed) && p.flags in allowed(p.keyCode % 0x100)
    ensures var s' := HandlePacket(s, cfg, p); s'.shortcutFlags.Get(g) <==> s'.sides.Get(g).AnyPressed()
  {
    var code := p.keyCode % 0x100;
    BitFollows(s.shortcutFlags, s.sides, code, p.release, g);
    if Pressed(s, MakeKpid(code, p.flags)) == !p.release || IsShortcut(code) {
      RecordedAlready(s, p, allowed);
      NothingNew(s.sides, code, p.release);
    }
    hide InStep, KeyEvents, SyntheticFor, UpdateModifierState, UpdateShortcutFlags, IsShortcut, ModifierOf, MakeKpid;
  }

  lemma RecordedAlready(s: KeyState, p: KeyPacket, allowed: AllowedBytes)
    requires InStep(s, allowed) && p.flags in allowed(p.keyCode % 0x100)
    requires Pressed(s, MakeKpid(p.keyCode % 0x100, p.flags)) == !p.release || IsShortcut(p.keyCode % 0x100)
    ensures BitsAgree(s)
    ensures ModifierOf(p.keyCode % 0x100).Some? ==>
              var (g, side) := ModifierOf(p.keyCode % 0x100).value; s.sides.Get(g).Has(side) == !p.release
  {
    var code := p.keyCode % 0x100;
    if ModifierOf(code).Some? {
      CodeOfModifier(code);
      var (g, side) := ModifierOf(code).value;
      ModifierCodes(g, side);
      hide CodeOf, ModifierOf, IsShortcut, MakeKpid;
      assert EntryAgrees(s, allowed, g, side, p.flags);
    }
  }

  lemma PacketInStep(s: KeyState, cfg: Config, p: KeyPacket, allowed: AllowedBytes)
    requires OneModifierByte(allowed) && InStep(s, allowed) && p.flags in allowed(p.keyCode % 0x100)
    ensures InStep(HandlePacket(s, cfg, p), allowed)
  {
    var s' := HandlePacket(s, cfg, p);
    hide HandlePacket;
    forall g: Group ensures s'.shortcutFlags.Get(g) <==> s'.sides.Get(g).AnyPressed() {
      BitAfterPacket(s, cfg, p, allowed, g);
    }
    forall g: Group, side: Side, f: Byte ensures EntryAgrees(s', allowed, g, side, f) {
      EntryAfterPacket(s, cfg, p, allowed, g, side, f);
    }
    forall g: Group, side: Side ensures s'.sides.Get(g).Has(side) ==> exists f :: f in allowed(CodeOf(g, side)) {
      SideNeedsByte(s, cfg, p, allowed, g, side);
    }
  }

  lemma SideNeedsByte(s: KeyState, cfg: Config, p: KeyPacket, allowed: AllowedBytes, g: Group, side: Side)
    requires s.sides.Get(g).Has(side) ==> exists f :: f in allowed(CodeOf(g, side))
    requires p.flags in allowed(p.keyCode % 0x100)
    ensures HandlePacket(s, cfg, p).sides.Get(g).Has(side) ==> exists f :: f in allowed(CodeOf(g, side))
  {
    hide HostCode, KeyEvents, SyntheticFor, UpdateShortcutFlags, UpdateModifierState, IsShortcut, CodeOf, MakeKpid;
    SideAfterUpdate(s.sides, p.keyCode % 0x100, p.release, g, side);
  }

  lemma StepInStep(s: KeyState, cfg: Config, e: Event, allowed: AllowedBytes)
    requires OneModifierByte(allowed) && InStep(s, allowed) && SendsAllowed(e, allowed) && !e.Reset?
    ensures InStep(Next(s, cfg, e), allowed)
  {
    hide KeyEvents, HandlePacket, CodeOf, MakeKpid;
    if e.Packet? {
      PacketInStep(s, cfg, e.packet, allowed);
    } else {
      var s' := Next(s, cfg, e);
      assert forall k :: Pressed(s', k) == Pressed(s, k);
      forall g: Group, side: Side, f: Byte ensures EntryAgrees(s', allowed, g, side, f) {
        assert EntryAgrees(s, allowed, g, side, f);
      }
    }
  }

  lemma {:induction false} RunInStep(s: KeyState, cfg: Config, events: seq<Event>, allowed: AllowedBytes)
    requires OneModifierByte(allowed) && InStep(s, allowed) && IsResetFree(events, allowed)
    ensures InStep(After(s, cfg, events), allowed)
    decreases |events|
  {
    hide InStep, Next, OneModifierByte;
    if events == [] {
    } else {
      assert events[0] in events && forall e | e in events[1..] :: e in events;
      StepInStep(s, cfg, events[0], allowed);
      RunInStep(Next(s, cfg, events[0]), cfg, events[1..], allowed);
    }
  }

  /**
    Between resets, if the client sends each modifier key with one flags byte, each shortcut
    bit is set exactly when one of its three side keys is pressed, in the modifier state and
    in the key table alike. Keys without modifier meaning may come with any bytes.
   */
  lemma ModifiersStaySynchronized(cfg: Config, events: seq<Event>, allowed: AllowedBytes)
    requires OneModifierByte(allowed) && IsResetFree(events, allowed)
    ensures Synchronized(After(START, cfg, events))
  {
    assert InStep(START, allowed);
    RunInStep(START, cfg, events, allowed);
    InStepIsSynchronized(After(START, cfg, events), allowed);
  }

  /**
    A modifier pressed with one byte and released with another leaves its bit set and the
    table marked, while the modifier state says that no side is pressed.
   */
  lemma TwoFlagsBytesDesynchronize(cfg: Config, g: Group, side: Side, f0: Byte, f1: Byte)
    requires cfg.keyboard && f0 != f1
    ensures var s := After(START, cfg, DownAndUp(CodeOf(g, side), f0, f1));
            s.shortcutFlags.Get(g) && !s.sides.Get(g).AnyPressed() && Pressed(s, MakeKpid(CodeOf(g, side), f0))
  {
    var c := CodeOf(g, side);
    var down, up := DownAndUp(c, f0, f1)[0], DownAndUp(c, f0, f1)[1];
    var s1 := Next(START, cfg, down);
    var s2 := Next(s1, cfg, up);
    FirstModifierPress(cfg, g, side, f0, f1);
    SecondByteRelease(s1, cfg, g, side, f0, f1);
    hide Next;
    assert [down, up][1..] == [up] && [up][1..] == [];
    assert After(s1, cfg, [up]) == After(s2, cfg, []) == s2;
  }

  function DownAndUp(code: Byte, f0: Byte, f1: Byte): seq<Event> {
    var none := PerGroup(false, false, false);
    [Packet(KeyPacket(code, none, f0, false)), Packet(KeyPacket(code, none, f1, true))]
  }

  lemma FirstModifierPress(cfg: Config, g: Group, side: Side, f0: Byte, f1: Byte)
    requires cfg.keyboard && f0 != f1
    ensures var c := CodeOf(g, side);
            var s := Next(START, cfg, DownAndUp(c, f0, f1)[0]);
            && s.shortcutFlags.Get(g) && s.sides == START.sides.Set(g, ALL_UP.With(side, true))
            && Pressed(s, MakeKpid(c, f0)) && !Pressed(s, MakeKpid(c, f1))
  {
    hide KeyEvents, SyntheticFor, CodeOf, ModifierOf;
    ModifierCodes(g, side);
  }

  lemma SecondByteRelease(s: KeyState, cfg: Config, g: Group, side: Side, f0: Byte, f1: Byte)
    requires cfg.keyboard && s.shortcutFlags.Get(g) && s.sides == START.sides.Set(g, ALL_UP.With(side, true))
    requires Pressed(s, MakeKpid(CodeOf(g, side), f0)) && !Pressed(s, MakeKpid(CodeOf(g, side), f1))
    ensures var s' := Next(s, cfg, DownAndUp(CodeOf(g, side), f0, f1)[1]);
            s'.shortcutFlags.Get(g) && !s'.sides.Get(g).AnyPressed() && Pressed(s', MakeKpid(CodeOf(g, side), f0))
  {
    hide KeyEvents, SyntheticFor, CodeOf, ModifierOf;
    ModifierCodes(g, side);
  }

  /**
    Every reset-free run with the allowed bytes stays synchronized if and only if each of the
    nine modifier keys has at most one of them.
   */
  lemma SynchronizedExactly(cfg: Config, allowed: AllowedBytes)
    ensures (forall events | IsResetFree(events, allowed) :: Synchronized(After(START, cfg, events)))
       <==> !cfg.keyboard || OneModifierByte(allowed)
  {
    hide After, Synchronized, OneModifierByte;
    if !cfg.keyboard {
      forall events | IsResetFree(events, allowed) ensures Synchronized(After(START, cfg, events)) {
        DisabledStaysSynchronized(START, cfg, events, allowed);
      }
    } else if OneModifierByte(allowed) {
      forall events | IsResetFree(events, allowed) ensures Synchronized(After(START, cfg, events)) {
        ModifiersStaySynchronized(cfg, events, allowed);
      }
    } else {
      var g, side, f0, f1 := TwoBytes(allowed);
      TwoFlagsBytesDesynchronize(cfg, g, side, f0, f1);
      var events := DownAndUp(CodeOf(g, side), f0, f1);
      NotSynchronized(After(START, cfg, events), g);
      assert IsResetFree(events, allowed);
    }
  }

  lemma TwoBytes(allowed: AllowedBytes) returns (g: Group, side: Side, f0: Byte, f1: Byte)
    requires !OneModifierByte(allowed)
    ensures f0 != f1 && f0 in allowed(CodeOf(g, side)) && f1 in allowed(CodeOf(g, side))
  {
    g, side, f0, f1 :| f0 != f1 && f0 in allowed(CodeOf(g, side)) && f1 in allowed(CodeOf(g, side));
  }

  lemma NotSynchronized(s: KeyState, g: Group)
    requires s.shortcutFlags.Get(g) && !s.sides.Get(g).AnyPressed()
    ensures !Synchronized(s)
  {
  }

  /** A disabled keyboard records nothing. */
  lemma {:induction false} DisabledStaysSynchronized(s: KeyState, cfg: Config, events: seq<Event>, allowed: AllowedBytes)
    requires !cfg.keyboard && IsResetFree(events, allowed)
    requires s.sides == START.sides && s.shortcutFlags == START.shortcutFlags && forall k: nat :: !Pressed(s, k)
    ensures Synchronized(After(s, cfg, events))
    decreases |events|
  {
    if events == [] {
    } else {
      assert events[0] in events && forall e | e in events[1..] :: e in events;
      var s' := Next(s, cfg, events[0]);
      forall k: nat ensures !Pressed(s', k) {
        assert !Pressed(s, k);
      }
      DisabledStaysSynchronized(s', cfg, events[1..], allowed);
    }
  }

  // ----- Reset -----

  /**
    Reset clears the key table but neither the side keys nor the shortcut bits: the records
    agree afterwards exactly when no modifier was down.
   */
  lemma ResetDesynchronizes(s: KeyState, cfg: Config, order: seq<nat>)
    requires Synchronized(s) && Enumerates(s, order)
    ensures Synchronized(HandleReset(s, cfg, order)) <==> s.shortcutFlags == PerGroup(false, false, false)
  {
    hide HandleReset, KeyDown, CodeOf;
    var s' := HandleReset(s, cfg, order);
    ResetReleases(s, cfg, order, 0);
    forall code: Byte ensures !KeyDown(s', code) {
      ResetLifts(s, cfg, order, code);
    }
    NoBits(s);
    if s.shortcutFlags == PerGroup(false, false, false) {
      assert BitsAgree(s');
    } else {
      var g: Group, side: Side :| s.sides.Get(g).Has(side);
      assert s'.sides.Get(g).Has(side) && !KeyDown(s', CodeOf(g, side));
    }
  }

  lemma NoBits(s: KeyState)
    requires BitsAgree(s)
    ensures s.shortcutFlags == PerGroup(false, false, false) <==> forall g: Group, side: Side :: !s.sides.Get(g).Has(side)
  {
    if s.shortcutFlags != PerGroup(false, false, false) {
      var g: Group := if s.shortcutFlags.shift then Shift else if s.shortcutFlags.control then Control else Alt;
      assert s.sides.Get(g).AnyPressed();
      var side := if s.sides.Get(g).generic then Generic else if s.sides.Get(g).left then Left else Right;
      assert s.sides.Get(g).Has(side);
    } else {
      forall g: Group, side: Side ensures !s.sides.Get(g).Has(side) {
        assert !s.sides.Get(g).AnyPressed();
      }
    }
  }

  lemma ResetLifts(s: KeyState, cfg: Config, order: seq<nat>, code: Byte)
    requires Enumerates(s, order)
    ensures !KeyDown(HandleReset(s, cfg, order), code)
  {
    hide HandleReset, MakeKpid;
    forall f: Byte ensures !Pressed(HandleReset(s, cfg, order), MakeKpid(code, f)) {
      ResetReleases(s, cfg, order, MakeKpid(code, f));
    }
  }
}
