/**
  The keyboard code of src/input.cpp as a class over its own fields; every method is proved
  against its function in KeyboardSpec.
 */
module Keyboard {
  import opened Options
  import opened KeyboardSpec

  class KeyboardTracker {
    const config: Config
    var press: map<nat, bool>
    var sides: PerGroup<ModifierKeys>
    var shortcutFlags: Modifiers
    var pending: Option<RepeatTask>
    var log: seq<KeyEvent>  // what the platform backend received

    ghost function Value(): KeyState
      reads this
    {
      KeyState(press, sides, shortcutFlags, pending, log)
    }

    constructor (config: Config)
      ensures Value() == START && this.config == config
    {
      this.config := config;
      press := map[];
      sides := PerGroup(ALL_UP, ALL_UP, ALL_UP);
      shortcutFlags := PerGroup(false, false, false);
      pending := None;
      log := [];
    }

    method Emit(code: Word, release: bool, flags: Byte)
      modifies this`log
      ensures log == old(log) + [KeyEvent(code, release, flags)]
    {
      log := log + [KeyEvent(code, release, flags)];
    }

    method EmitSynthetic(synthetic: Modifiers, release: bool, flags: Byte)
      modifies this`log
      ensures log == old(log) + SyntheticEvents(synthetic, release, flags)
    {
      if synthetic.shift {
        Emit(VKEY_SHIFT, release, flags);
      }
      if synthetic.control {
        Emit(VKEY_CONTROL, release, flags);
      }
      if synthetic.alt {
        Emit(VKEY_MENU, release, flags);
      }
    }

    method SendKeyAndModifiers(code: Byte, release: bool, flags: Byte, synthetic: Modifiers)
      modifies this`log
      ensures log == old(log) + KeyEvents(config, code, release, flags, synthetic)
    {
      if !release {
        EmitSynthetic(synthetic, false, flags);
      }
      Emit(HostCode(config, code), release, flags);
      if !release {
        EmitSynthetic(synthetic, true, flags);
      }
    }

    method Passthrough(packet: KeyPacket)
      modifies this
      ensures Value() == HandlePacket(old(Value()), config, packet)
    {
      hide SyntheticFor, UpdateModifierState, UpdateShortcutFlags, KeyEvents, IsShortcut;
      if !config.keyboard {
        return;
      }
      var code: Byte := packet.keyCode % 0x100;
      sides := UpdateModifierState(sides, code, packet.release);
      var synthetic := SyntheticFor(KeyState(press, sides, shortcutFlags, pending, log), config, packet);
      var kpid := MakeKpid(code, packet.flags);
      if kpid !in press {
        press := press[kpid := false];
      }
      if !press[kpid] {
        if packet.release {
          return;
        }
        if shortcutFlags == PerGroup(true, true, true) && IsShortcut(code) {
          return;
        }
        pending := None;
        if config.repeats {
          pending := Some(RepeatTask(code, packet.flags, synthetic));
        }
      } else if !packet.release {
        return;
      }
      press := press[kpid := !packet.release];
      SendKeyAndModifiers(code, packet.release, packet.flags, synthetic);
      shortcutFlags := UpdateShortcutFlags(shortcutFlags, sides, code, packet.release);
    }

    method RepeatKey(code: Byte, flags: Byte, synthetic: Modifiers)
      modifies this`press, this`pending, this`log
      ensures Value() == HandleRepeat(old(Value()), config, code, flags, synthetic)
    {
      var kpid := MakeKpid(code, flags);
      if kpid !in press {
        press := press[kpid := false];
      }
      if !press[kpid] {
        pending := None;
        return;
      }
      SendKeyAndModifiers(code, false, flags, synthetic);
      pending := Some(RepeatTask(code, flags, synthetic));
    }

    method ResetKeyboardKeys() returns (ghost order: seq<nat>)
      modifies this`press, this`log
      ensures Enumerates(old(Value()), order)
      ensures Value() == HandleReset(old(Value()), config, order)
    {
      var unvisited := press.Keys;
      order := [];
      ghost var start := Value();
      while unvisited != {}
        invariant unvisited <= start.press.Keys == press.Keys
        invariant forall k :: k in order <==> k in start.press && k !in unvisited
        invariant forall i, j | 0 <= i < j < |order| :: order[i] != order[j]
        invariant Value() == HandleReset(start, config, order)
        decreases |unvisited|
      {
        var key :| key in unvisited;
        ghost var before := Value();
        if press[key] {
          Emit(ImageOf(config, key), true, FlagsFromKpid(key));
          press := press[key := false];
        }
        unvisited := unvisited - {key};
        ResetAppend(start, config, order, key);
        order := order + [key];
      }
    }
  }

  lemma {:induction false} ResetAppend(s: KeyState, cfg: Config, order: seq<nat>, k: nat)
    ensures HandleReset(s, cfg, order + [k]) == ReleaseKey(HandleReset(s, cfg, order), cfg, k)
    decreases |order|
  {
    if order == [] {
      assert [k][1..] == [] && order + [k] == [k];
    } else {
      assert (order + [k])[1..] == order[1..] + [k];
      ResetAppend(ReleaseKey(s, cfg, order[0]), cfg, order[1..], k);
    }
  }
}
