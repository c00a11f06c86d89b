/**
  Keyboard press tracking (src/input.cpp:173-220, 1059-1328, 2626-2636) as functions on
  state values. The host's keyboard is the log of events delivered to it.
 */
module KeyboardSpec {
  import opened Options

  type Byte = x: int | 0 <= x < 0x100
  type Word = x: int | 0 <= x < 0x1_0000

  const VKEY_SHIFT: Word := 0x10
  const VKEY_CONTROL: Word := 0x11
  const VKEY_MENU: Word := 0x12
  const VKEY_LSHIFT: Word := 0xA0
  const VKEY_RSHIFT: Word := 0xA1
  const VKEY_LCONTROL: Word := 0xA2
  const VKEY_RCONTROL: Word := 0xA3
  const VKEY_LMENU: Word := 0xA4
  const VKEY_RMENU: Word := 0xA5

  datatype Group = Shift | Control | Alt
  datatype Side = Generic | Left | Right

  /** The modifier group and side a virtual key belongs to. */
  function ModifierOf(code: Byte): Option<(Group, Side)> {
    if code == VKEY_SHIFT then Some((Shift, Generic))
    else if code == VKEY_LSHIFT then Some((Shift, Left))
    else if code == VKEY_RSHIFT then Some((Shift, Right))
    else if code == VKEY_CONTROL then Some((Control, Generic))
    else if code == VKEY_LCONTROL then Some((Control, Left))
    else if code == VKEY_RCONTROL then Some((Control, Right))
    else if code == VKEY_MENU then Some((Alt, Generic))
    else if code == VKEY_LMENU then Some((Alt, Left))
    else if code == VKEY_RMENU then Some((Alt, Right))
    else None
  }

  function CodeOf(g: Group, side: Side): Byte {
    match (g, side)
    case (Shift, Generic) => VKEY_SHIFT
    case (Shift, Left) => VKEY_LSHIFT
    case (Shift, Right) => VKEY_RSHIFT
    case (Control, Generic) => VKEY_CONTROL
    case (Control, Left) => VKEY_LCONTROL
    case (Control, Right) => VKEY_RCONTROL
    case (Alt, Generic) => VKEY_MENU
    case (Alt, Left) => VKEY_LMENU
    case (Alt, Right) => VKEY_RMENU
  }

  // ----- Key identifiers -----

  function MakeKpid(vk: Word, flags: Byte): nat {
    vk * 0x100 + flags
  }

  function VkFromKpid(kpid: nat): Word {
    kpid / 0x100 % 0x1_0000
  }

  function FlagsFromKpid(kpid: nat): Byte {
    kpid % 0x100
  }

  lemma KpidRoundTrip(vk: Word, flags: Byte)
    ensures VkFromKpid(MakeKpid(vk, flags)) == vk && FlagsFromKpid(MakeKpid(vk, flags)) == flags
  {
    assert (vk * 0x100 + flags) / 0x100 == vk;
  }

  // ----- State -----

  /** `modifier_state_t`. */
  datatype ModifierKeys = ModifierKeys(generic: bool, left: bool, right: bool) {
    predicate AnyPressed() {
      generic || left || right
    }

    function With(side: Side, pressed: bool): ModifierKeys {
      match side
      case Generic => this.(generic := pressed)
      case Left => this.(left := pressed)
      case Right => this.(right := pressed)
    }

    predicate Has(side: Side) {
      match side
      case Generic => generic
      case Left => left
      case Right => right
    }
  }

  /** One fact for each modifier group: the three groups of side keys, or the three flag bits. */
  datatype PerGroup<T> = PerGroup(shift: T, control: T, alt: T) {
    function Get(g: Group): T {
      match g
      case Shift => shift
      case Control => control
      case Alt => alt
    }

    function Set(g: Group, value: T): PerGroup<T> {
      match g
      case Shift => this.(shift := value)
      case Control => this.(control := value)
      case Alt => this.(alt := value)
    }
  }

  type Modifiers = PerGroup<bool>

  datatype KeyEvent = KeyEvent(code: Word, release: bool, flags: Byte)

  /** A scheduled call of `repeat_key`. */
  datatype RepeatTask = RepeatTask(code: Byte, flags: Byte, synthetic: Modifiers)

  /** `pending` is the task that `key_press_repeat_id` names, while it is scheduled. */
  datatype KeyState = KeyState(
    press: map<nat, bool>,
    sides: PerGroup<ModifierKeys>,
    shortcutFlags: Modifiers,
    pending: Option<RepeatTask>,
    log: seq<KeyEvent>)

  const ALL_UP := ModifierKeys(false, false, false)

  const START := KeyState(map[], PerGroup(ALL_UP, ALL_UP, ALL_UP), PerGroup(false, false, false), None, [])

  /** `repeats` says that the repeat delay is positive. */
  datatype Config = Config(keyboard: bool, rightAltIsWin: bool, repeats: bool, keybindings: map<int, int>)

  datatype KeyPacket = KeyPacket(keyCode: Word, modifiers: Modifiers, flags: Byte, release: bool)

  predicate Pressed(s: KeyState, kpid: nat) {
    kpid in s.press && s.press[kpid]
  }

  /** `map_keycode` and the conversions to the 16-bit code that is emitted. */
  function HostCode(cfg: Config, code: Byte): Word {
    (if code in cfg.keybindings then cfg.keybindings[code] else code) % 0x1_0000
  }

  /** The host code that a press with this identifier sent down. */
  function ImageOf(cfg: Config, kpid: nat): Word {
    HostCode(cfg, VkFromKpid(kpid) % 0x100)
  }

  // ----- Operations -----

  function UpdateModifierState(sides: PerGroup<ModifierKeys>, code: Byte, release: bool): PerGroup<ModifierKeys> {
    match ModifierOf(code)
    case None => sides
    case Some((g, side)) => sides.Set(g, sides.Get(g).With(side, !release))
  }

  function UpdateShortcutFlags(flags: Modifiers, sides: PerGroup<ModifierKeys>, code: Byte, release: bool): Modifiers {
    match ModifierOf(code)
    case None => flags
    case Some((g, _)) =>
      if !release then flags.Set(g, true)
      else if !sides.Get(g).AnyPressed() then flags.Set(g, false)
      else flags
  }

  /** The synthetic modifier events around a press. */
  function SyntheticEvents(synthetic: Modifiers, release: bool, flags: Byte): seq<KeyEvent> {
    (if synthetic.shift then [KeyEvent(VKEY_SHIFT, release, flags)] else [])
    + (if synthetic.control then [KeyEvent(VKEY_CONTROL, release, flags)] else [])
    + (if synthetic.alt then [KeyEvent(VKEY_MENU, release, flags)] else [])
  }

  /** `send_key_and_modifiers`. */
  function KeyEvents(cfg: Config, code: Byte, release: bool, flags: Byte, synthetic: Modifiers): seq<KeyEvent> {
    var key := [KeyEvent(HostCode(cfg, code), release, flags)];
    if release then key
    else SyntheticEvents(synthetic, false, flags) + key + SyntheticEvents(synthetic, true, flags)
  }

  /** Keys that `apply_shortcut` consumes: F1 to F13 and N. */
  predicate IsShortcut(code: Byte) {
    0x70 <= code <= 0x7C || code == 0x4E
  }

  /** The modifiers the client reports but the server does not believe to be held. */
  function SyntheticFor(s: KeyState, cfg: Config, p: KeyPacket): Modifiers {
    var code := p.keyCode % 0x100;
    var altCounts := !(cfg.rightAltIsWin && s.sides.alt.right && !s.sides.alt.left);
    if p.release || ModifierOf(code).Some? then PerGroup(false, false, false)
    else PerGroup(
      !s.shortcutFlags.shift && p.modifiers.shift,
      !s.shortcutFlags.control && p.modifiers.control,
      !s.shortcutFlags.alt && p.modifiers.alt && altCounts)
  }

  /** A new press cancels the pending repeat and schedules its own, if keys repeat at all. */
  function Scheduled(cfg: Config, task: RepeatTask): Option<RepeatTask> {
    if cfg.repeats then Some(task) else None
  }

  /** `passthrough` of one keyboard packet. */
  function HandlePacket(s: KeyState, cfg: Config, p: KeyPacket): KeyState {
    if !cfg.keyboard then s
    else
      var code := p.keyCode % 0x100;
      var kpid := MakeKpid(code, p.flags);
      var s1 := s.(sides := UpdateModifierState(s.sides, code, p.release));
      var pressed := Pressed(s, kpid);
      var s2 := s1.(press := s.press[kpid := pressed]);
      if pressed == !p.release then s2
      else if !pressed && s.shortcutFlags == PerGroup(true, true, true) && IsShortcut(code) then s2
      else
        var synthetic := SyntheticFor(s1, cfg, p);
        s2.(press := s.press[kpid := !p.release],
            pending := if p.release then s.pending else Scheduled(cfg, RepeatTask(code, p.flags, synthetic)),
            log := s.log + KeyEvents(cfg, code, p.release, p.flags, synthetic),
            shortcutFlags := UpdateShortcutFlags(s.shortcutFlags, s1.sides, code, p.release))
  }

  /** One firing of `repeat_key`. */
  function HandleRepeat(s: KeyState, cfg: Config, code: Byte, flags: Byte, synthetic: Modifiers): KeyState {
    var kpid := MakeKpid(code, flags);
    if !Pressed(s, kpid) then s.(press := s.press[kpid := false], pending := None)
    else s.(pending := Some(RepeatTask(code, flags, synthetic)), log := s.log + KeyEvents(cfg, code, false, flags, synthetic))
  }

  /** Release one tracked key on the host if it is pressed. */
  function ReleaseKey(s: KeyState, cfg: Config, k: nat): KeyState {
    if Pressed(s, k)
    then s.(press := s.press[k := false], log := s.log + [KeyEvent(ImageOf(cfg, k), true, FlagsFromKpid(k))])
    else s
  }

  /** `reset_keyboard_keys`, visiting the tracked keys in the given order. */
  function HandleReset(s: KeyState, cfg: Config, order: seq<nat>): KeyState
    decreases |order|
  {
    if order == [] then s else HandleReset(ReleaseKey(s, cfg, order[0]), cfg, order[1..])
  }

  /** The hash table is visited in some order, every entry once. */
  predicate Enumerates(s: KeyState, order: seq<nat>) {
    && (forall k | k in order :: k in s.press)
    && (forall k | k in s.press :: k in order)
    && forall i, j | 0 <= i < j < |order| :: order[i] != order[j]
  }
}
