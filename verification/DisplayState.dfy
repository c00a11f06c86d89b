/**
  The save, apply and revert protocol for the physical display
  (scripts/configure-steamos-client-display.py:221-272). Any step may fail or crash, and a
  command that does not complete may leave its own output in any setting.
 */
module DisplayState {
  import opened Options

  datatype Setting = Setting(mode: string, scale: real)

  /** The content of the state file. */
  datatype Saved = Saved(output: string, mode: string, scale: real)

  datatype World = World(displays: map<string, Setting>, stateFile: Option<Saved>)

  /**
    How the revert command ends: never started, interrupted (by an error, a timeout or a
    crash) with its output left somewhere, or completed.
   */
  datatype RevertCommand = NotStarted | Interrupted(left: Setting) | Completed

  /** `unlinks` is false when the process dies between the command and the unlink. */
  datatype RevertPlan = RevertPlan(command: RevertCommand, unlinks: bool)

  /** The mode command says nothing about the scale: the compositor leaves one of its choice. */
  datatype ModeCommand = ModeNotStarted | ModeInterrupted(left: Setting) | ModeCompleted(scale: real)

  /** `choice` is None when reading the configuration or selecting an output and mode fails. */
  datatype ApplyPlan =
    ApplyPlan(revert: RevertPlan, choice: Option<(string, string)>, saves: bool, command: ModeCommand)

  const FAULTLESS := RevertPlan(Completed, true)

  /** What putting the saved setting back verbatim would give. */
  function WrittenBack(displays: map<string, Setting>, saved: Saved): map<string, Setting> {
    displays[saved.output := Setting(saved.mode, saved.scale)]
  }

  /** The revert, and whether it returns normally; `reread` is the value of the printed scale. */
  function Reverted(w: World, plan: RevertPlan, reread: real -> real): (World, bool) {
    match w.stateFile
    case None => (w, true)
    case Some(saved) =>
      match plan.command
      case NotStarted => (w, false)
      case Interrupted(left) => (w.(displays := w.displays[saved.output := left]), false)
      case Completed =>
        var displays := w.displays[saved.output := Setting(saved.mode, reread(saved.scale))];
        if plan.unlinks then (World(displays, None), true) else (w.(displays := displays), false)
  }

  /** Saving the chosen output's setting and running the mode command. */
  function Switched(w: World, plan: ApplyPlan): (World, bool) {
    if plan.choice.None? || plan.choice.value.0 !in w.displays || !plan.saves then (w, false)
    else
      var (output, mode) := plan.choice.value;
      var now := w.displays[output];
      var stateFile := Some(Saved(output, now.mode, now.scale));
      match plan.command
      case ModeNotStarted => (World(w.displays, stateFile), false)
      case ModeInterrupted(left) => (World(w.displays[output := left], stateFile), false)
      case ModeCompleted(scale) => (World(w.displays[output := Setting(mode, scale)], stateFile), true)
  }

  function Applied(w: World, plan: ApplyPlan, reread: real -> real): (World, bool) {
    var (w1, ok) := Reverted(w, plan.revert, reread);
    if ok then Switched(w1, plan) else (w1, false)
  }

  /** The display and the state file, updated step by step as the script does. */
  class DisplayHost {
    var displays: map<string, Setting>
    var stateFile: Option<Saved>
    const reread: real -> real

    constructor (displays: map<string, Setting>, reread: real -> real)
      ensures World(this.displays, stateFile) == World(displays, None) && this.reread == reread
    {
      this.displays := displays;
      stateFile := None;
      this.reread := reread;
    }

    method RevertMode(plan: RevertPlan) returns (ok: bool)
      modifies this
      ensures (World(displays, stateFile), ok) == Reverted(old(World(displays, stateFile)), plan, reread)
    {
      if stateFile.None? {
        return true;
      }
      var saved := stateFile.value;
      match plan.command {
        case NotStarted =>
          return false;
        case Interrupted(left) =>
          displays := displays[saved.output := left];
          return false;
        case Completed =>
          displays := displays[saved.output := Setting(saved.mode, reread(saved.scale))];
      }
      if !plan.unlinks {
        return false;
      }
      stateFile := None;
      return true;
    }

    method ApplyMode(plan: ApplyPlan) returns (ok: bool)
      modifies this
      ensures (World(displays, stateFile), ok) == Applied(old(World(displays, stateFile)), plan, reread)
    {
      if stateFile.Some? {
        ok := RevertMode(plan.revert);
        if !ok {
          return;
        }
      }
      if plan.choice.None? || plan.choice.value.0 !in displays {
        return false;
      }
      var (output, mode) := plan.choice.value;
      var now := displays[output];
      if !plan.saves {
        return false;
      }
      stateFile := Some(Saved(output, now.mode, now.scale));
      match plan.command {
        case ModeNotStarted =>
          return false;
        case ModeInterrupted(left) =>
          displays := displays[output := left];
          return false;
        case ModeCompleted(scale) =>
          displays := displays[output := Setting(mode, scale)];
          return true;
      }
    }
  }

  // ----- Runs -----

  datatype Call = Apply(a: ApplyPlan) | Revert(r: RevertPlan)

  function Next(w: World, call: Call, reread: real -> real): World {
    match call
    case Apply(a) => Applied(w, a, reread).0
    case Revert(r) => Reverted(w, r, reread).0
  }

  function After(w: World, calls: seq<Call>, reread: real -> real): World
    decreases |calls|
  {
    if calls == [] then w else After(Next(w, calls[0], reread), calls[1..], reread)
  }

  // ----- The invariant -----

  /** Every output has its original mode, and its original scale up to one printing of it. */
  predicate Restored(displays: map<string, Setting>, original: map<string, Setting>, reread: real -> real) {
    && displays.Keys == original.Keys
    && forall o | o in displays ::
         && displays[o].mode == original[o].mode
         && (displays[o].scale == original[o].scale || displays[o].scale == reread(original[o].scale))
  }

  /** No state file: the display is the original. A state file: writing it back gives the original. */
  predicate Recoverable(w: World, original: map<string, Setting>, reread: real -> real) {
    match w.stateFile
    case None => Restored(w.displays, original, reread)
    case Some(saved) => saved.output in w.displays && Restored(WrittenBack(w.displays, saved), original, reread)
  }

  /** Printing a scale that was already printed changes nothing. */
  ghost predicate PrintsStably(original: map<string, Setting>, reread: real -> real) {
    forall o | o in original :: reread(reread(original[o].scale)) == reread(original[o].scale)
  }

  /** Every original scale survives printing. */
  ghost predicate PrintsExactly(original: map<string, Setting>, reread: real -> real) {
    forall o | o in original :: reread(original[o].scale) == original[o].scale
  }

  lemma RevertKeepsRecoverable(w: World, plan: RevertPlan, original: map<string, Setting>, reread: real -> real)
    requires PrintsStably(original, reread) && Recoverable(w, original, reread)
    ensures Recoverable(Reverted(w, plan, reread).0, original, reread)
    ensures Reverted(w, plan, reread).1 ==>
              && Reverted(w, plan, reread).0.stateFile.None?
              && Restored(Reverted(w, plan, reread).0.displays, original, reread)
  {
    if w.stateFile.Some? {
      var saved := w.stateFile.value;
      var w' := Reverted(w, plan, reread).0;
      var back := WrittenBack(w.displays, saved);
      assert back[saved.output] == Setting(saved.mode, saved.scale);
      assert forall o | o in back && o != saved.output :: back[o] == w.displays[o];
      if w'.stateFile.Some? {
        assert WrittenBack(w'.displays, saved) == back;
      }
    }
  }

  lemma SwitchKeepsRecoverable(w: World, plan: ApplyPlan, original: map<string, Setting>, reread: real -> real)
    requires w.stateFile.None? && Recoverable(w, original, reread)
    ensures Recoverable(Switched(w, plan).0, original, reread)
  {
    var w' := Switched(w, plan).0;
    if w'.stateFile.Some? {
      assert WrittenBack(w'.displays, w'.stateFile.value) == w.displays;
    }
  }

  lemma {:induction false} RunKeepsRecoverable(
    w: World, calls: seq<Call>, original: map<string, Setting>, reread: real -> real)
    requires PrintsStably(original, reread) && Recoverable(w, original, reread)
    ensures Recoverable(After(w, calls, reread), original, reread)
    decreases |calls|
  {
    if calls == [] {
    } else {
      var plan := if calls[0].Apply? then calls[0].a.revert else calls[0].r;
      RevertKeepsRecoverable(w, plan, original, reread);
      var (w1, ok) := Reverted(w, plan, reread);
      if calls[0].Apply? && ok {
        SwitchKeepsRecoverable(w1, calls[0].a, original, reread);
      }
      RunKeepsRecoverable(Next(w, calls[0], reread), calls[1..], original, reread);
    }
  }

  // ----- Main results -----

  /**
    After any number of applies and reverts, each failing or crashing anywhere: a display
    without a state file is the original, a state file leads back to it, and every revert
    that returns normally has restored it. A revert without faults always does.
   */
  lemma AlwaysRecoverable(original: map<string, Setting>, calls: seq<Call>, plan: RevertPlan, reread: real -> real)
    requires PrintsStably(original, reread)
    ensures var w := After(World(original, None), calls, reread);
            var (last, ok) := Reverted(w, plan, reread);
            && Recoverable(w, original, reread)
            && (ok ==> last.stateFile.None? && Restored(last.displays, original, reread))
            && (plan == FAULTLESS ==> ok)
  {
    RunKeepsRecoverable(World(original, None), calls, original, reread);
    RevertKeepsRecoverable(After(World(original, None), calls, reread), plan, original, reread);
  }

  /** When the scales survive printing, restored means equal. */
  lemma ExactScalesRestoreExactly(
    original: map<string, Setting>, calls: seq<Call>, plan: RevertPlan, reread: real -> real)
    requires PrintsExactly(original, reread)
    ensures var w := After(World(original, None), calls, reread);
            var (last, ok) := Reverted(w, plan, reread);
            && (w.stateFile.None? ==> w.displays == original)
            && (w.stateFile.Some? ==> WrittenBack(w.displays, w.stateFile.value) == original)
            && (ok ==> last == World(original, None))
  {
    AlwaysRecoverable(original, calls, plan, reread);
  }

  /**
    The condition is needed, output by output: applying a mode to `output` and reverting
    restores the display if and only if that output's scale survives printing.
   */
  lemma RoundTripExactly(
    original: map<string, Setting>, output: string, mode: string, scale: real, reread: real -> real)
    requires output in original
    ensures var plan := ApplyPlan(FAULTLESS, Some((output, mode)), true, ModeCompleted(scale));
            var (w, ok) := Applied(World(original, None), plan, reread);
            var (last, done) := Reverted(w, FAULTLESS, reread);
            && ok && done
            && (last == World(original, None) <==> reread(original[output].scale) == original[output].scale)
  {
    var plan := ApplyPlan(FAULTLESS, Some((output, mode)), true, ModeCompleted(scale));
    var (w, ok) := Applied(World(original, None), plan, reread);
    var (last, done) := Reverted(w, FAULTLESS, reread);
    assert last.displays[output] == Setting(original[output].mode, reread(original[output].scale));
    if reread(original[output].scale) == original[output].scale {
      assert last.displays == original;
    }
  }

  /**
    An apply returns normally exactly when the revert before it did, a present output was
    chosen, its setting was saved and the command completed. Then the chosen mode is on the
    chosen output, every other output is as before, and the state file holds what the chosen
    output had.
   */
  lemma CompletedApplySwitches(w: World, plan: ApplyPlan, reread: real -> real)
    ensures var (before, reverted) := Reverted(w, plan.revert, reread);
            var (after, ok) := Applied(w, plan, reread);
            && (ok <==> reverted && plan.choice.Some? && plan.choice.value.0 in before.displays
                        && plan.saves && plan.command.ModeCompleted?)
            && (ok ==>
                  var (output, mode) := plan.choice.value;
                  && after.displays.Keys == before.displays.Keys
                  && after.displays[output].mode == mode
                  && (forall o | o in after.displays && o != output :: after.displays[o] == before.displays[o])
                  && after.stateFile == Some(Saved(output, before.displays[output].mode, before.displays[output].scale)))
            && (!reverted ==> after == before)
  {
    hide Reverted;
  }

  // ----- The printed scale -----

  /** Six significant digits, halves to even: five digits after the point of a number between 1 and 10, scaled. */
  function SixDigits(x: real): real
    requires x > 0.0
    decreases if x >= 1.0 then x else 2.0 / x + 10.0
  {
    if x >= 10.0 then 10.0 * SixDigits(x / 10.0)
    else if x < 1.0 then SixDigits(10.0 * x) / 10.0
    else FiveDecimals(x)
  }

  function FiveDecimals(x: real): real {
    var units := (x * 100000.0).Floor;
    var rest := x * 100000.0 - units as real;
    var up := rest > 0.5 || (rest == 0.5 && units % 2 == 1);
    (if up then units + 1 else units) as real / 100000.0
  }

  /** The value of the printed scale; scales are positive. */
  function Printed(x: real): real {
    if x > 0.0 then SixDigits(x) else x
  }

  /** The nearest number with five decimals, and of two equally near ones the even one. */
  lemma NearestFiveDecimals(x: real) returns (n: int)
    ensures FiveDecimals(x) * 100000.0 == n as real
    ensures -0.5 <= n as real - x * 100000.0 <= 0.5
    ensures n as real - x * 100000.0 == 0.5 || n as real - x * 100000.0 == -0.5 ==> n % 2 == 0
  {
    var units := (x * 100000.0).Floor;
    var rest := x * 100000.0 - units as real;
    n := if rest > 0.5 || (rest == 0.5 && units % 2 == 1) then units + 1 else units;
  }

  lemma FiveDecimalsFacts(x: real)
    requires 1.0 <= x < 10.0
    ensures 1.0 <= FiveDecimals(x) <= 10.0
    ensures FiveDecimals(x) < 10.0 ==> FiveDecimals(FiveDecimals(x)) == FiveDecimals(x)
  {
  }

  /** Scaling by ten moves the point. */
  lemma ScalesByTen(x: real)
    requires x > 0.0
    ensures SixDigits(10.0 * x) == 10.0 * SixDigits(x)
  {
    hide FiveDecimals;
    assert 10.0 * x / 10.0 == x;
  }

  lemma OneAndTen()
    ensures FiveDecimals(1.0) == 1.0 && SixDigits(1.0) == 1.0 && SixDigits(10.0) == 10.0
  {
    assert SixDigits(1.0) == FiveDecimals(1.0);
    ScalesByTen(1.0);
  }

  /** Printing stays between the same powers of ten and is stable. */
  lemma {:induction false} SixDigitsStable(x: real)
    requires x > 0.0
    ensures SixDigits(x) > 0.0 && SixDigits(SixDigits(x)) == SixDigits(x)
    ensures x >= 1.0 ==> SixDigits(x) >= 1.0
    ensures x < 1.0 ==> SixDigits(x) <= 1.0
    ensures x < 10.0 ==> SixDigits(x) <= 10.0
    decreases if x >= 1.0 then x else 2.0 / x + 10.0
  {
    OneAndTen();
    if x >= 10.0 {
      SixDigitsStable(x / 10.0);
      ScalesByTen(SixDigits(x / 10.0));
    } else if x < 1.0 {
      SixDigitsStable(10.0 * x);
      ScalesByTen(SixDigits(10.0 * x) / 10.0);
    } else {
      FiveDecimalsFacts(x);
      hide FiveDecimals;
      assert SixDigits(x) == FiveDecimals(x);
    }
  }

  /** The printed scale has the stability that recovery needs, whatever the scales are. */
  lemma PrintedStably(original: map<string, Setting>)
    ensures PrintsStably(original, Printed)
  {
    forall o | o in original ensures Printed(Printed(original[o].scale)) == Printed(original[o].scale) {
      if original[o].scale > 0.0 {
        SixDigitsStable(original[o].scale);
      }
    }
  }

  /** Recovery with scales as the script prints them: nothing is left to assume. */
  lemma AlwaysRecoverableAsPrinted(original: map<string, Setting>, calls: seq<Call>, plan: RevertPlan)
    ensures var w := After(World(original, None), calls, Printed);
            var (last, ok) := Reverted(w, plan, Printed);
            && Recoverable(w, original, Printed)
            && (ok ==> last.stateFile.None? && Restored(last.displays, original, Printed))
            && (plan == FAULTLESS ==> ok)
  {
    PrintedStably(original);
    AlwaysRecoverable(original, calls, plan, Printed);
  }

  /**
    A scale from 1 to below 10 survives printing exactly when it has at most five digits after
    the point; every other one does exactly when it does so scaled by ten.
   */
  lemma SurvivesSixDigits(x: real)
    requires x > 0.0
    ensures 1.0 <= x < 10.0 ==> (SixDigits(x) == x <==> (x * 100000.0).Floor as real == x * 100000.0)
    ensures SixDigits(x) == x <==> SixDigits(10.0 * x) == 10.0 * x
  {
    ScalesByTen(x);
    if 1.0 <= x < 10.0 {
      assert SixDigits(x) == FiveDecimals(x);
    }
  }

  /** A scale of 4/3 as the desktop stores it does not survive. */
  lemma FractionalScaleIsRounded()
    ensures SixDigits(1.3333334) == 1.33333 && SixDigits(1.25) == 1.25
  {
    assert SixDigits(1.3333334) == FiveDecimals(1.3333334);
  }
}
