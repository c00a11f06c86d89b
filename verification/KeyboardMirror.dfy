/**
  The host keyboard shows exactly what the client holds, and the condition on the
  keybindings under which it does.
 */
module KeyboardMirror {
  import opened Options
  import opened KeyboardSpec
  import opened KeyboardTheorems

  /** An identifier in the key table: a key together with the flags byte it is sent with. */
  type Kpid = k: nat | k < 0x1_0000

  function KpidOf(p: KeyPacket): Kpid {
    MakeKpid(p.keyCode % 0x100, p.flags)
  }

  function CodeIn(k: Kpid): Byte {
    k / 0x100
  }

  lemma CodeOfKpid(code: Byte, flags: Byte)
    ensures CodeIn(MakeKpid(code, flags)) == code && MakeKpid(code, flags) < 0x1_0000
  {
  }

  lemma ImageByCode(cfg: Config, k: Kpid)
    ensures ImageOf(cfg, k) == HostCode(cfg, CodeIn(k))
    ensures MakeKpid(CodeIn(k), FlagsFromKpid(k)) == k
  {
  }

  predicate InGroup(code: Byte, g: Group) {
    ModifierOf(code).Some? && ModifierOf(code).value.0 == g
  }

  /** No two keys the client uses share a host key: neither by their bindings nor as one key with two flags bytes. */
  predicate Separate(cfg: Config, used: set<Kpid>) {
    forall a, b | a in used && b in used && ImageOf(cfg, a) == ImageOf(cfg, b) :: a == b
  }

  /** If synthetic modifiers occur at all, only keys of a modifier's own group are bound to its side-less host key. */
  predicate ModifiersApart(cfg: Config, used: set<Kpid>) {
    forall a, d, g: Group | a in used && d in used && ModifierOf(CodeIn(d)).None?
                            && ImageOf(cfg, a) == CodeOf(g, Generic) :: InGroup(CodeIn(a), g)
  }

  // ----- Runs -----

  /** The client sends the keys it uses, and the only repeat that fires is the one scheduled. */
  predicate Happens(s: KeyState, e: Event, used: set<Kpid>) {
    match e
    case Packet(p) => KpidOf(p) in used
    case Repeat(code, flags, synthetic) => s.pending == Some(RepeatTask(code, flags, synthetic))
    case Cancel => true
    case Reset(order) => Enumerates(s, order)
  }

  predicate IsClientRun(s: KeyState, cfg: Config, events: seq<Event>, used: set<Kpid>)
    decreases |events|
  {
    events == [] || (Happens(s, events[0], used) && IsClientRun(Next(s, cfg, events[0]), cfg, events[1..], used))
  }

  // ----- The invariant -----

  /** Only keys in use are ever marked pressed. */
  ghost predicate Listed(s: KeyState, used: set<Kpid>) {
    forall k: nat | Pressed(s, k) :: k in used
  }

  /** A modifier key marked pressed is recorded on its side, and a recorded side has its bit: also across resets. */
  ghost predicate Tracked(s: KeyState) {
    && (forall k: Kpid | Pressed(s, k) && ModifierOf(CodeIn(k)).Some? :: SideRecorded(s.sides, CodeIn(k)))
    && forall g: Group :: s.sides.Get(g).AnyPressed() ==> s.shortcutFlags.Get(g)
  }

  predicate SideRecorded(sides: PerGroup<ModifierKeys>, code: Byte)
    requires ModifierOf(code).Some?
  {
    var (g, side) := ModifierOf(code).value;
    sides.Get(g).Has(side)
  }

  /** The host holds every key the client holds. */
  ghost predicate Shown(s: KeyState, cfg: Config) {
    forall k: Kpid | Pressed(s, k) :: ImageOf(cfg, k) in Held(s.log)
  }

  /** Synthetic modifiers are only for groups whose bit is clear, and never for a modifier key itself. */
  predicate Needed(bits: Modifiers, code: Byte, synthetic: Modifiers) {
    forall g: Group | synthetic.Get(g) :: !bits.Get(g) && ModifierOf(code).None?
  }

  /** The scheduled repeat still needs the modifiers it was scheduled with: every press of a modifier replaces it. */
  predicate RepeatNeeded(s: KeyState, used: set<Kpid>) {
    s.pending.Some? ==>
      MakeKpid(s.pending.value.code, s.pending.value.flags) in used
      && Needed(s.shortcutFlags, s.pending.value.code, s.pending.value.synthetic)
  }

  ghost predicate Mirrors(s: KeyState, cfg: Config, used: set<Kpid>) {
    Listed(s, used) && Tracked(s) && Shown(s, cfg) && RepeatNeeded(s, used)
  }

  // ----- Synthetic modifiers -----

  lemma HeldModifierHasBit(s: KeyState, k: Kpid, g: Group)
    requires Tracked(s) && Pressed(s, k) && InGroup(CodeIn(k), g)
    ensures s.shortcutFlags.Get(g)
  {
    hide CodeIn, ModifierOf;
    assert SideRecorded(s.sides, CodeIn(k));
  }

  lemma SyntheticKeysOf(synthetic: Modifiers, h: Word)
    ensures h in SyntheticKeys(synthetic) <==> exists g: Group :: synthetic.Get(g) && h == CodeOf(g, Generic)
  {
    if h in SyntheticKeys(synthetic) {
      var g := if h == VKEY_SHIFT then Shift else if h == VKEY_CONTROL then Control else Alt;
      assert synthetic.Get(g) && h == CodeOf(g, Generic);
    }
  }

  /** The synthetic modifiers that a key needs lift neither a key the client holds nor that key itself. */
  lemma SyntheticLiftsNothing(s: KeyState, cfg: Config, d: Kpid, synthetic: Modifiers, k: Kpid, used: set<Kpid>)
    requires Tracked(s) && ModifiersApart(cfg, used) && Needed(s.shortcutFlags, CodeIn(d), synthetic)
    requires d in used && k in used && (Pressed(s, k) || k == d)
    ensures ImageOf(cfg, k) !in SyntheticKeys(synthetic)
  {
    hide ImageOf, Tracked, SyntheticKeys, CodeOf, CodeIn, ModifierOf, Pressed;
    SyntheticKeysOf(synthetic, ImageOf(cfg, k));
    if ImageOf(cfg, k) in SyntheticKeys(synthetic) {
      var g: Group :| synthetic.Get(g) && ImageOf(cfg, k) == CodeOf(g, Generic);
      assert InGroup(CodeIn(k), g);
      if k != d {
        HeldModifierHasBit(s, k, g);
      }
      assert false;
    }
  }

  /** A press of `d`, or the repeat of one: everything that was shown still is, and so is `d` itself. */
  lemma PressShows(s: KeyState, s': KeyState, cfg: Config, d: Kpid, synthetic: Modifiers, used: set<Kpid>)
    requires Tracked(s) && Listed(s, used) && Shown(s, cfg) && ModifiersApart(cfg, used)
    requires d in used && Needed(s.shortcutFlags, CodeIn(d), synthetic)
    requires s'.log == s.log + KeyEvents(cfg, CodeIn(d), false, FlagsFromKpid(d), synthetic)
    requires forall k: Kpid | Pressed(s', k) && k != d :: Pressed(s, k)
    ensures Shown(s', cfg)
  {
    hide HostCode, KeyEvents, Held, SyntheticKeys, Tracked, ModifiersApart, Needed, ImageOf, CodeIn, FlagsFromKpid, Pressed;
    SendingKey(s.log, cfg, CodeIn(d), false, FlagsFromKpid(d), synthetic);
    ImageByCode(cfg, d);
    forall k: Kpid | Pressed(s', k) ensures ImageOf(cfg, k) in Held(s'.log) {
      if k != d {
        assert Pressed(s, k);
      }
      SyntheticLiftsNothing(s, cfg, d, synthetic, k, used);
    }
  }

  /** A release lifts no key but its own. */
  lemma ReleaseShows(s: KeyState, s': KeyState, cfg: Config, d: Kpid, used: set<Kpid>)
    requires Listed(s, used) && Shown(s, cfg) && Separate(cfg, used) && d in used
    requires Held(s'.log) == Held(s.log) - {ImageOf(cfg, d)}
    requires forall k: Kpid | Pressed(s', k) :: k != d && Pressed(s, k)
    ensures Shown(s', cfg)
  {
    hide ImageOf, Held;
  }

  // ----- One packet -----

  /** What a packet does to the key table. */
  lemma TableAfterPacket(s: KeyState, cfg: Config, p: KeyPacket)
    ensures var s' := HandlePacket(s, cfg, p);
            && (forall k: nat | k != KpidOf(p) :: Pressed(s', k) == Pressed(s, k))
            && (cfg.keyboard && p.release ==> !Pressed(s', KpidOf(p)))
            && (s'.log == s.log ==> (Pressed(s', KpidOf(p)) ==> Pressed(s, KpidOf(p))))
  {
    hide SyntheticFor, UpdateModifierState, UpdateShortcutFlags, MakeKpid, IsShortcut, HostCode;
  }

  lemma PacketTracksSide(s: KeyState, cfg: Config, p: KeyPacket, k: Kpid, used: set<Kpid>)
    requires Tracked(s) && Listed(s, used) && Separate(cfg, used) && KpidOf(p) in used
    requires Pressed(HandlePacket(s, cfg, p), k) && ModifierOf(CodeIn(k)).Some?
    ensures SideRecorded(HandlePacket(s, cfg, p).sides, CodeIn(k))
  {
    var code := p.keyCode % 0x100;
    var s' := HandlePacket(s, cfg, p);
    var (g, side) := ModifierOf(CodeIn(k)).value;
    CodeOfModifier(CodeIn(k));
    SideAfterUpdate(s.sides, code, p.release, g, side);
    TableAfterPacket(s, cfg, p);
    CodeOfKpid(code, p.flags);
    if code == CodeIn(k) && k != KpidOf(p) {
      ImageByCode(cfg, k);
      ImageByCode(cfg, KpidOf(p));
      assert false;
    }
    hide KeyEvents, SyntheticFor, UpdateModifierState, UpdateShortcutFlags, MakeKpid, IsShortcut, CodeOf, CodeIn, Pressed, ModifierOf;
    assert s'.sides == if cfg.keyboard then UpdateModifierState(s.sides, code, p.release) else s.sides;
  }

  lemma PacketTracksBit(s: KeyState, cfg: Config, p: KeyPacket, g: Group)
    requires Tracked(s)
    ensures var s' := HandlePacket(s, cfg, p); s'.sides.Get(g).AnyPressed() ==> s'.shortcutFlags.Get(g)
  {
    hide KeyEvents, SyntheticFor, IsShortcut, CodeOf, ModifierOf, MakeKpid, CodeIn;
    var code := p.keyCode % 0x100;
    CodeOfKpid(code, p.flags);
    if ModifierOf(code).Some? {
      CodeOfModifier(code);
      ModifierCodes(ModifierOf(code).value.0, ModifierOf(code).value.1);
      assert Pressed(s, KpidOf(p)) ==> SideRecorded(s.sides, CodeIn(KpidOf(p)));
    }
    assert s.sides.Get(g).AnyPressed() ==> s.shortcutFlags.Get(g);
  }

  /** The synthetic modifiers of a packet are needed. */
  lemma SyntheticIsNeeded(s: KeyState, cfg: Config, p: KeyPacket, sides: PerGroup<ModifierKeys>)
    ensures Needed(s.shortcutFlags, p.keyCode % 0x100, SyntheticFor(s.(sides := sides), cfg, p))
  {
  }

  lemma PacketShows(s: KeyState, cfg: Config, p: KeyPacket, used: set<Kpid>)
    requires Tracked(s) && Listed(s, used) && Shown(s, cfg) && KpidOf(p) in used
    requires Separate(cfg, used) && ModifiersApart(cfg, used)
    ensures Shown(HandlePacket(s, cfg, p), cfg)
  {
    var code := p.keyCode % 0x100;
    var d := KpidOf(p);
    var s' := HandlePacket(s, cfg, p);
    var sides := UpdateModifierState(s.sides, code, p.release);
    var synthetic := SyntheticFor(s.(sides := sides), cfg, p);
    CodeOfKpid(code, p.flags);
    KpidRoundTrip(code, p.flags);
    ImageByCode(cfg, d);
    TableAfterPacket(s, cfg, p);
    hide Tracked, Separate, ModifiersApart, Held, KeyEvents, SyntheticFor, UpdateModifierState, UpdateShortcutFlags,
         MakeKpid, IsShortcut, ModifierOf, HostCode, CodeIn, FlagsFromKpid, ImageOf;
    if s'.log == s.log {
      assert forall k: Kpid | Pressed(s', k) :: Pressed(s, k);
    } else if p.release {
      SendingKey(s.log, cfg, code, true, p.flags, synthetic);
      ReleaseShows(s, s', cfg, d, used);
    } else {
      SyntheticIsNeeded(s, cfg, p, sides);
      PressShows(s, s', cfg, d, synthetic, used);
    }
  }

  /** The repeat that is scheduled after a packet is needed. */
  lemma PacketKeepsRepeat(s: KeyState, cfg: Config, p: KeyPacket, used: set<Kpid>)
    requires RepeatNeeded(s, used) && KpidOf(p) in used
    ensures RepeatNeeded(HandlePacket(s, cfg, p), used)
  {
    var code := p.keyCode % 0x100;
    var sides := UpdateModifierState(s.sides, code, p.release);
    SyntheticIsNeeded(s, cfg, p, sides);
    BitsAfter(s.shortcutFlags, sides, code, p.release);
    hide KeyEvents, SyntheticFor, UpdateModifierState, UpdateShortcutFlags, MakeKpid, IsShortcut, ModifierOf;
  }

  lemma BitsAfter(bits: Modifiers, sides: PerGroup<ModifierKeys>, code: Byte, release: bool)
    ensures ModifierOf(code).None? ==> UpdateShortcutFlags(bits, sides, code, release) == bits
    ensures release ==> forall g: Group :: UpdateShortcutFlags(bits, sides, code, release).Get(g) ==> bits.Get(g)
    ensures forall g: Group :: !InGroup(code, g) ==> UpdateShortcutFlags(bits, sides, code, release).Get(g) == bits.Get(g)
  {
  }

  lemma PacketMirrors(s: KeyState, cfg: Config, p: KeyPacket, used: set<Kpid>)
    requires Mirrors(s, cfg, used) && KpidOf(p) in used
    requires Separate(cfg, used) && ModifiersApart(cfg, used)
    ensures Mirrors(HandlePacket(s, cfg, p), cfg, used)
  {
    var s' := HandlePacket(s, cfg, p);
    hide HandlePacket, Separate, ModifiersApart, CodeIn, Shown, RepeatNeeded, ModifierOf, KpidOf;
    TableAfterPacket(s, cfg, p);
    PacketShows(s, cfg, p, used);
    PacketKeepsRepeat(s, cfg, p, used);
    forall k: nat | Pressed(s', k) ensures k in used {
      assert k != KpidOf(p) ==> Pressed(s, k);
    }
    forall k: Kpid | Pressed(s', k) && ModifierOf(CodeIn(k)).Some? ensures SideRecorded(s'.sides, CodeIn(k)) {
      PacketTracksSide(s, cfg, p, k, used);
    }
    forall g: Group ensures s'.sides.Get(g).AnyPressed() ==> s'.shortcutFlags.Get(g) {
      PacketTracksBit(s, cfg, p, g);
    }
  }

  // ----- Runs keep the invariant -----

  lemma {:induction false} ResetMirrors(s: KeyState, cfg: Config, order: seq<nat>, used: set<Kpid>)
    requires Mirrors(s, cfg, used) && Separate(cfg, used)
    ensures Mirrors(HandleReset(s, cfg, order), cfg, used)
    decreases |order|
  {
    hide Mirrors, Separate;
    if order == [] {
    } else {
      ReleaseMirrors(s, cfg, order[0], used);
      ResetMirrors(ReleaseKey(s, cfg, order[0]), cfg, order[1..], used);
    }
  }

  lemma ReleaseMirrors(s: KeyState, cfg: Config, k: nat, used: set<Kpid>)
    requires Mirrors(s, cfg, used) && Separate(cfg, used)
    ensures Mirrors(ReleaseKey(s, cfg, k), cfg, used)
  {
    hide Held, ImageOf, HostCode, MakeKpid, Separate, CodeOf, CodeIn, FlagsFromKpid;
    var s' := ReleaseKey(s, cfg, k);
    if Pressed(s, k) {
      HeldAppend(s.log, KeyEvent(ImageOf(cfg, k), true, FlagsFromKpid(k)));
      ReleaseShows(s, s', cfg, k, used);
    }
    assert forall j: nat | Pressed(s', j) :: Pressed(s, j);
  }

  lemma RepeatMirrors(s: KeyState, cfg: Config, task: RepeatTask, used: set<Kpid>)
    requires Mirrors(s, cfg, used) && ModifiersApart(cfg, used) && s.pending == Some(task)
    ensures Mirrors(HandleRepeat(s, cfg, task.code, task.flags, task.synthetic), cfg, used)
  {
    var s' := HandleRepeat(s, cfg, task.code, task.flags, task.synthetic);
    var d: Kpid := MakeKpid(task.code, task.flags);
    CodeOfKpid(task.code, task.flags);
    KpidRoundTrip(task.code, task.flags);
    hide Held, KeyEvents, HostCode, MakeKpid, ModifiersApart, Needed, CodeOf, CodeIn, FlagsFromKpid, ImageOf;
    assert forall j: nat :: Pressed(s', j) == Pressed(s, j);
    if Pressed(s, d) {
      PressShows(s, s', cfg, d, task.synthetic, used);
    }
  }

  lemma StepMirrors(s: KeyState, cfg: Config, e: Event, used: set<Kpid>)
    requires Mirrors(s, cfg, used) && Happens(s, e, used)
    requires Separate(cfg, used) && ModifiersApart(cfg, used)
    ensures Mirrors(Next(s, cfg, e), cfg, used)
  {
    hide HandlePacket, HandleRepeat, HandleReset, Separate, ModifiersApart, CodeIn, ImageOf, Held;
    match e
    case Packet(p) => PacketMirrors(s, cfg, p, used);
    case Repeat(code, flags, synthetic) => RepeatMirrors(s, cfg, RepeatTask(code, flags, synthetic), used);
    case Cancel => assert forall k: nat :: Pressed(Next(s, cfg, e), k) == Pressed(s, k);
    case Reset(order) => ResetMirrors(s, cfg, order, used);
  }

  lemma {:induction false} RunMirrors(s: KeyState, cfg: Config, events: seq<Event>, used: set<Kpid>)
    requires Mirrors(s, cfg, used) && IsClientRun(s, cfg, events, used)
    requires Separate(cfg, used) && ModifiersApart(cfg, used)
    ensures Mirrors(After(s, cfg, events), cfg, used)
    decreases |events|
  {
    hide Mirrors, Next, Happens, Separate, ModifiersApart;
    if events == [] {
    } else {
      StepMirrors(s, cfg, events[0], used);
      RunMirrors(Next(s, cfg, events[0]), cfg, events[1..], used);
    }
  }

  // ----- Main results -----

  /** The host holds exactly the images of the keys the client holds. */
  predicate Mirrored(s: KeyState, cfg: Config, used: set<Kpid>) {
    Held(s.log) == set k | k in used && Pressed(s, k) :: ImageOf(cfg, k)
  }

  /**
    After any interleaving of key packets, the scheduled repeats, cancellations and resets,
    the keys held on the host are exactly the images of the keys the client holds: none is
    stuck and none is missing.
   */
  lemma HostMirrorsClient(cfg: Config, events: seq<Event>, used: set<Kpid>)
    requires IsClientRun(START, cfg, events, used)
    requires Separate(cfg, used) && ModifiersApart(cfg, used)
    ensures Mirrored(After(START, cfg, events), cfg, used)
  {
    RunMirrors(START, cfg, events, used);
    HeldKeysAreJustified(START, cfg, events);
    hide IsClientRun, Separate, ModifiersApart, After, ImageOf, Held;
  }

  // ----- The conditions on the keybindings are needed -----

  const NO_MODIFIERS := PerGroup(false, false, false)

  function Press(k: Kpid, modifiers: Modifiers): Event {
    Packet(KeyPacket(CodeIn(k), modifiers, FlagsFromKpid(k), false))
  }

  function Release(k: Kpid): Event {
    Packet(KeyPacket(CodeIn(k), NO_MODIFIERS, FlagsFromKpid(k), true))
  }

  lemma SendsKpid(k: Kpid, modifiers: Modifiers, used: set<Kpid>)
    requires k in used
    ensures KpidOf(Press(k, modifiers).packet) == KpidOf(Release(k).packet) == k
    ensures forall s :: Happens(s, Press(k, modifiers), used) && Happens(s, Release(k), used)
  {
  }

  /** Only the bit of group `g`. */
  function Only(g: Group): Modifiers {
    NO_MODIFIERS.Set(g, true)
  }

  /** The synthetic modifiers that a press of `k` reporting `modifiers` brings. */
  function SyntheticOf(s: KeyState, cfg: Config, k: Kpid, modifiers: Modifiers): Modifiers {
    SyntheticFor(s.(sides := UpdateModifierState(s.sides, CodeIn(k), false)), cfg, Press(k, modifiers).packet)
  }

  /** A key that is not yet down is pressed while some modifier bit is clear: no shortcut takes it. */
  lemma FreshPress(s: KeyState, cfg: Config, k: Kpid, modifiers: Modifiers, g: Group)
    requires cfg.keyboard && !Pressed(s, k) && !s.shortcutFlags.Get(g)
    ensures var s' := Next(s, cfg, Press(k, modifiers));
            && s'.sides == UpdateModifierState(s.sides, CodeIn(k), false)
            && (forall j: nat :: Pressed(s', j) == (Pressed(s, j) || j == k))
            && Held(s'.log) == Held(s.log) + {ImageOf(cfg, k)} - SyntheticKeys(SyntheticOf(s, cfg, k, modifiers))
            && (!InGroup(CodeIn(k), g) ==> !s'.shortcutFlags.Get(g))
  {
    hide *;
    PassedOn(s, cfg, k, modifiers, g);
    SendingKey(s.log, cfg, CodeIn(k), false, FlagsFromKpid(k), SyntheticOf(s, cfg, k, modifiers));
    ImageByCode(cfg, k);
    BitsAfter(s.shortcutFlags, UpdateModifierState(s.sides, CodeIn(k), false), CodeIn(k), false);
  }

  lemma PassedOn(s: KeyState, cfg: Config, k: Kpid, modifiers: Modifiers, g: Group)
    requires cfg.keyboard && !Pressed(s, k) && !s.shortcutFlags.Get(g)
    ensures var s' := Next(s, cfg, Press(k, modifiers));
            var sides := UpdateModifierState(s.sides, CodeIn(k), false);
            && s'.sides == sides && s'.shortcutFlags == UpdateShortcutFlags(s.shortcutFlags, sides, CodeIn(k), false)
            && (forall j: nat :: Pressed(s', j) == (Pressed(s, j) || j == k))
            && s'.log == s.log + KeyEvents(cfg, CodeIn(k), false, FlagsFromKpid(k), SyntheticOf(s, cfg, k, modifiers))
  {
    NoCombination(s.shortcutFlags, g);
    ImageByCode(cfg, k);
    hide KeyEvents, HostCode, ImageOf, SyntheticFor, UpdateModifierState, UpdateShortcutFlags, ModifierOf,
         CodeIn, FlagsFromKpid, MakeKpid, IsShortcut;
    assert CodeIn(k) % 0x100 == CodeIn(k);
  }

  lemma NoCombination(bits: Modifiers, g: Group)
    ensures !bits.Get(g) ==> bits != PerGroup(true, true, true)
  {
  }

  /** A release of a key that is down takes its image off the host. */
  lemma LiftedBy(s: KeyState, cfg: Config, k: Kpid)
    requires cfg.keyboard && Pressed(s, k)
    ensures var s' := Next(s, cfg, Release(k));
            ImageOf(cfg, k) !in Held(s'.log) && forall j: nat | j != k :: Pressed(s', j) == Pressed(s, j)
  {
    var p := Release(k).packet;
    TableAfterPacket(s, cfg, p);
    ImageByCode(cfg, k);
    var synthetic := SyntheticFor(s.(sides := UpdateModifierState(s.sides, CodeIn(k), true)), cfg, p);
    SendingKey(s.log, cfg, CodeIn(k), true, p.flags, synthetic);
    hide Held, KeyEvents, HostCode, ImageOf, SyntheticFor, UpdateModifierState, UpdateShortcutFlags, CodeIn, FlagsFromKpid, MakeKpid, IsShortcut;
    assert CodeIn(k) % 0x100 == CodeIn(k);
    assert Next(s, cfg, Release(k)).log == s.log + KeyEvents(cfg, CodeIn(k), true, p.flags, synthetic);
  }

  lemma OneStep(s: KeyState, cfg: Config, e: Event, rest: seq<Event>, used: set<Kpid>)
    ensures After(s, cfg, [e] + rest) == After(Next(s, cfg, e), cfg, rest)
    ensures IsClientRun(s, cfg, [e] + rest, used)
       <==> Happens(s, e, used) && IsClientRun(Next(s, cfg, e), cfg, rest, used)
  {
    hide Next, Happens;
    assert ([e] + rest)[1..] == rest;
  }

  lemma NoStep(s: KeyState, cfg: Config, used: set<Kpid>)
    ensures After(s, cfg, []) == s && IsClientRun(s, cfg, [], used)
  {
  }

  lemma TwoSteps(s: KeyState, cfg: Config, e1: Event, e2: Event, used: set<Kpid>)
    ensures After(s, cfg, [e1, e2]) == Next(Next(s, cfg, e1), cfg, e2)
    ensures IsClientRun(s, cfg, [e1, e2], used)
       <==> Happens(s, e1, used) && Happens(Next(s, cfg, e1), e2, used)
  {
    hide *;
    var s1 := Next(s, cfg, e1);
    OneStep(s, cfg, e1, [e2], used);
    OneStep(s1, cfg, e2, [], used);
    NoStep(Next(s1, cfg, e2), cfg, used);
    assert [e1] + [e2] == [e1, e2] && [e2] + [] == [e2];
  }

  lemma ThreeSteps(s: KeyState, cfg: Config, e1: Event, e2: Event, e3: Event, used: set<Kpid>)
    ensures After(s, cfg, [e1, e2, e3]) == Next(Next(Next(s, cfg, e1), cfg, e2), cfg, e3)
    ensures Happens(s, e1, used) && Happens(Next(s, cfg, e1), e2, used) && Happens(Next(Next(s, cfg, e1), cfg, e2), e3, used) ==>
              IsClientRun(s, cfg, [e1, e2, e3], used)
  {
    hide *;
    OneStep(s, cfg, e1, [e2, e3], used);
    TwoSteps(Next(s, cfg, e1), cfg, e2, e3, used);
    assert [e1] + [e2, e3] == [e1, e2, e3];
  }

  /** The three states of `SharedKeyIsLifted`. */
  lemma SharedStates(cfg: Config, a: Kpid, b: Kpid)
    requires cfg.keyboard && a != b && ImageOf(cfg, a) == ImageOf(cfg, b)
    ensures var s := Next(Next(Next(START, cfg, Press(a, NO_MODIFIERS)), cfg, Press(b, NO_MODIFIERS)), cfg, Release(b));
            Pressed(s, a) && ImageOf(cfg, a) !in Held(s.log)
  {
    hide Next, Held, HostCode, ImageOf, SyntheticFor, UpdateModifierState, CodeIn, FlagsFromKpid;
    var g := if InGroup(CodeIn(a), Shift) then Control else Shift;
    FreshPress(START, cfg, a, NO_MODIFIERS, g);
    var s1 := Next(START, cfg, Press(a, NO_MODIFIERS));
    FreshPress(s1, cfg, b, NO_MODIFIERS, g);
    LiftedBy(Next(s1, cfg, Press(b, NO_MODIFIERS)), cfg, b);
  }

  /** Of two keys with one host key, releasing the second lifts the host key under the first. */
  lemma SharedKeyIsLifted(cfg: Config, a: Kpid, b: Kpid, used: set<Kpid>)
    requires cfg.keyboard && a in used && b in used && a != b && ImageOf(cfg, a) == ImageOf(cfg, b)
    ensures var events := [Press(a, NO_MODIFIERS), Press(b, NO_MODIFIERS), Release(b)];
            IsClientRun(START, cfg, events, used) && !Mirrored(After(START, cfg, events), cfg, used)
  {
    hide Next, Held, ImageOf, Happens, After, IsClientRun, Press, Release, Pressed;
    ThreeSteps(START, cfg, Press(a, NO_MODIFIERS), Press(b, NO_MODIFIERS), Release(b), used);
    SendsKpid(a, NO_MODIFIERS, used);
    SendsKpid(b, NO_MODIFIERS, used);
    SharedStates(cfg, a, b);
  }

  lemma OnlySynthetic(s: KeyState, cfg: Config, k: Kpid, g: Group)
    requires ModifierOf(CodeIn(k)).None? && !s.shortcutFlags.Get(g) && !s.sides.Get(g).AnyPressed()
    ensures SyntheticKeys(SyntheticOf(s, cfg, k, Only(g))) == {CodeOf(g, Generic)}
  {
  }

  lemma OtherSidesUp(code: Byte, g: Group)
    requires !InGroup(code, g)
    ensures !UpdateModifierState(START.sides, code, false).Get(g).AnyPressed()
  {
  }

  /** The states of `BoundModifierIsLifted`, for two different keys. */
  lemma BoundStates(cfg: Config, a: Kpid, d: Kpid, g: Group)
    requires cfg.keyboard && a != d
    requires ImageOf(cfg, a) == CodeOf(g, Generic) && !InGroup(CodeIn(a), g) && ModifierOf(CodeIn(d)).None?
    ensures var s := Next(Next(START, cfg, Press(a, NO_MODIFIERS)), cfg, Press(d, Only(g)));
            Pressed(s, a) && ImageOf(cfg, a) !in Held(s.log)
  {
    hide Next, Held, HostCode, ImageOf, CodeIn, ModifierOf, SyntheticFor, UpdateModifierState, FlagsFromKpid, CodeOf, SyntheticKeys;
    FreshPress(START, cfg, a, NO_MODIFIERS, g);
    OtherSidesUp(CodeIn(a), g);
    var s1 := Next(START, cfg, Press(a, NO_MODIFIERS));
    FreshPress(s1, cfg, d, Only(g), g);
    OnlySynthetic(s1, cfg, d, g);
  }

  /** The same for a key that needs the modifier itself. */
  lemma OwnStates(cfg: Config, a: Kpid, g: Group)
    requires cfg.keyboard && ImageOf(cfg, a) == CodeOf(g, Generic) && ModifierOf(CodeIn(a)).None?
    ensures var s := Next(START, cfg, Press(a, Only(g)));
            Pressed(s, a) && ImageOf(cfg, a) !in Held(s.log)
  {
    hide Next, Held, HostCode, ImageOf, CodeIn, ModifierOf, SyntheticFor, UpdateModifierState, FlagsFromKpid, CodeOf, SyntheticKeys;
    FreshPress(START, cfg, a, Only(g), g);
    OnlySynthetic(START, cfg, a, g);
  }

  /** A key bound to a foreign modifier's host key is lifted when some key needs that modifier. */
  lemma BoundModifierIsLifted(cfg: Config, a: Kpid, d: Kpid, g: Group, used: set<Kpid>)
    requires cfg.keyboard && a in used && d in used
    requires ImageOf(cfg, a) == CodeOf(g, Generic) && !InGroup(CodeIn(a), g) && ModifierOf(CodeIn(d)).None?
    ensures var events := if a == d then [Press(a, Only(g))] else [Press(a, NO_MODIFIERS), Press(d, Only(g))];
            IsClientRun(START, cfg, events, used) && !Mirrored(After(START, cfg, events), cfg, used)
  {
    hide Next, Held, ImageOf, Happens, After, IsClientRun, Press, Pressed, CodeIn, ModifierOf, CodeOf, InGroup, Only;
    SendsKpid(a, NO_MODIFIERS, used);
    SendsKpid(a, Only(g), used);
    SendsKpid(d, Only(g), used);
    if a == d {
      OwnStates(cfg, a, g);
      assert [Press(a, Only(g))] == [Press(a, Only(g))] + [];
      OneStep(START, cfg, Press(a, Only(g)), [], used);
      NoStep(Next(START, cfg, Press(a, Only(g))), cfg, used);
    } else {
      BoundStates(cfg, a, d, g);
      TwoSteps(START, cfg, Press(a, NO_MODIFIERS), Press(d, Only(g)), used);
    }
  }

  /** A disabled keyboard emits nothing. */
  lemma {:induction false} DisabledStaysSilent(s: KeyState, cfg: Config, events: seq<Event>, used: set<Kpid>)
    requires !cfg.keyboard && s.log == [] && forall k: nat :: !Pressed(s, k)
    ensures Mirrored(After(s, cfg, events), cfg, used)
    decreases |events|
  {
    if events == [] {
    } else {
      var s' := Next(s, cfg, events[0]);
      SilentStep(s, cfg, events[0]);
      hide Next, Mirrored;
      DisabledStaysSilent(s', cfg, events[1..], used);
    }
  }

  lemma SilentStep(s: KeyState, cfg: Config, e: Event)
    requires !cfg.keyboard && s.log == [] && forall k: nat :: !Pressed(s, k)
    ensures var s' := Next(s, cfg, e); s'.log == [] && forall k: nat :: !Pressed(s', k)
  {
    hide KeyEvents, MakeKpid;
    var s' := Next(s, cfg, e);
    if e.Reset? {
      ResetIsSilent(s, cfg, e.order);
    }
    if e.Repeat? {
      assert !Pressed(s, MakeKpid(e.code, e.flags));
    }
    forall k: nat ensures !Pressed(s', k) {
      assert !Pressed(s, k);
    }
  }

  lemma {:induction false} ResetIsSilent(s: KeyState, cfg: Config, order: seq<nat>)
    requires forall k: nat :: !Pressed(s, k)
    ensures HandleReset(s, cfg, order) == s
    decreases |order|
  {
    if order == [] {
    } else {
      assert !Pressed(s, order[0]);
      ResetIsSilent(s, cfg, order[1..]);
    }
  }

  /**
    The host mirrors the client in every run if and only if no two used keys share a host key
    and, where synthetic modifiers occur, no used key is bound to a foreign modifier.
   */
  lemma MirrorsExactly(cfg: Config, used: set<Kpid>)
    ensures (forall events | IsClientRun(START, cfg, events, used) :: Mirrored(After(START, cfg, events), cfg, used))
       <==> !cfg.keyboard || (Separate(cfg, used) && ModifiersApart(cfg, used))
  {
    hide After, IsClientRun, Mirrored, ImageOf, ModifierOf, CodeOf, InGroup, CodeIn;
    if !cfg.keyboard {
      forall events | IsClientRun(START, cfg, events, used) ensures Mirrored(After(START, cfg, events), cfg, used) {
        DisabledStaysSilent(START, cfg, events, used);
      }
    } else if !Separate(cfg, used) {
      var a, b :| a in used && b in used && ImageOf(cfg, a) == ImageOf(cfg, b) && a != b;
      SharedKeyIsLifted(cfg, a, b, used);
    } else if !ModifiersApart(cfg, used) {
      var a, d, g: Group :| a in used && d in used && ModifierOf(CodeIn(d)).None?
                            && ImageOf(cfg, a) == CodeOf(g, Generic) && !InGroup(CodeIn(a), g);
      BoundModifierIsLifted(cfg, a, d, g, used);
    } else {
      forall events | IsClientRun(START, cfg, events, used) ensures Mirrored(After(START, cfg, events), cfg, used) {
        HostMirrorsClient(cfg, events, used);
      }
    }
  }

  // ----- The default keybindings -----

  /** Side-less modifiers are sent as the left ones (src/config.cpp:862-866). */
  const DEFAULT_KEYBINDINGS: map<int, int> := map[0x10 := 0xA0, 0x11 := 0xA2, 0x12 := 0xA4]

  function DefaultHost(code: Byte): Word {
    if code == 0x10 then 0xA0 else if code == 0x11 then 0xA2 else if code == 0x12 then 0xA4 else code
  }

  lemma DefaultImage(cfg: Config, k: Kpid)
    requires cfg.keybindings == DEFAULT_KEYBINDINGS
    ensures ImageOf(cfg, k) == DefaultHost(CodeIn(k))
  {
    ImageByCode(cfg, k);
  }

  /** Two used keys that the default bindings send as one. */
  predicate DefaultClash(a: Byte, b: Byte) {
    a == b || exists g: Group :: (a == CodeOf(g, Generic) && b == CodeOf(g, Left)) || (b == CodeOf(g, Generic) && a == CodeOf(g, Left))
  }

  lemma DefaultHostClash(a: Byte, b: Byte)
    ensures DefaultHost(a) == DefaultHost(b) <==> DefaultClash(a, b)
  {
    if DefaultHost(a) == DefaultHost(b) && a != b {
      var g := if DefaultHost(a) == 0xA0 then Shift else if DefaultHost(a) == 0xA2 then Control else Alt;
      assert (a == CodeOf(g, Generic) && b == CodeOf(g, Left)) || (b == CodeOf(g, Generic) && a == CodeOf(g, Left));
    }
  }

  /**
    With the default bindings the host mirrors the client exactly when the client sends no key
    with two flags bytes and no side-less modifier together with its left key.
   */
  lemma DefaultBindings(cfg: Config, used: set<Kpid>)
    requires cfg.keybindings == DEFAULT_KEYBINDINGS
    ensures Separate(cfg, used) && ModifiersApart(cfg, used)
       <==> forall a, b | a in used && b in used && a != b :: !DefaultClash(CodeIn(a), CodeIn(b))
  {
    forall k: Kpid ensures ImageOf(cfg, k) == DefaultHost(CodeIn(k)) {
      DefaultImage(cfg, k);
    }
    forall a: Byte, b: Byte ensures DefaultHost(a) == DefaultHost(b) <==> DefaultClash(a, b) {
      DefaultHostClash(a, b);
    }
    forall k: Kpid, g: Group ensures ImageOf(cfg, k) != CodeOf(g, Generic) {
      assert DefaultHost(CodeIn(k)) != CodeOf(g, Generic);
    }
    hide ImageOf, CodeIn, DefaultHost, DefaultClash, CodeOf, ModifierOf;
  }
}
