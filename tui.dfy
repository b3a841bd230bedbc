/**
 * The key handling of the main view in tui.go: which key press turns into
 * which device write or preset action, how the error line follows the
 * outcome of a write, and how the highlighted control is refreshed from a
 * fresh read of the device.
 *
 * `Decide` is the pure key dispatch. `Model.Update` is the imperative
 * handler that performs the chosen action on the camera and reassigns the
 * fields of the view model.
 */
module Tui {
  import opened Wrappers
  import opened Webcam
  import opened ConfigFile

  /** The keys that select an absolute level: backtick and the ten digits. */
  const DigitKeys: set<string> := {"`", "0", "1", "2", "3", "4", "5", "6", "7", "8", "9"}

  /** The preset names reachable from the keyboard: the numbers of the function keys. */
  const PresetNames: set<string> := {"1", "2", "3", "4", "5", "6", "7", "8", "9", "10", "11", "12"}

  /**
   * The level selected by a digit key, in tenths of the range: backtick is
   * level 0, `0` is level 10 and `1` to `9` are their own number.
   */
  function DigitLevel(key: string): (r: Option<int>)
    ensures r.Some? <==> key in DigitKeys
    ensures r.Some? ==> 0 <= r.value <= 10
  {
    if key == "`" then Some(0)
    else if key == "0" then Some(10)
    else if key in {"1", "2", "3", "4", "5", "6", "7", "8", "9"} then Some(key[0] as int - '0' as int)
    else None
  }

  /** Go's `strings.TrimPrefix`: `s` without `prefix` when it starts with it, otherwise `s` itself. */
  function TrimPrefix(s: string, prefix: string): (r: string)
    ensures prefix <= s ==> prefix + r == s
    ensures !(prefix <= s) ==> r == s
  {
    if prefix <= s then s[|prefix|..] else s
  }

  /** The twelve keys `f1` to `f12`, which apply a preset. */
  predicate IsApplyKey(key: string) {
    key in {"f1", "f2", "f3", "f4", "f5", "f6", "f7", "f8", "f9", "f10", "f11", "f12"}
  }

  /** The twelve keys `alt+f1` to `alt+f12`, which capture a preset. */
  predicate IsCaptureKey(key: string) {
    key in {"alt+f1", "alt+f2", "alt+f3", "alt+f4", "alt+f5", "alt+f6",
            "alt+f7", "alt+f8", "alt+f9", "alt+f10", "alt+f11", "alt+f12"}
  }

  /** What a key press asks of the camera and of the preset table. */
  datatype Action =
    | Refresh                     // re-read the controls only
    | WriteValue(value: int)      // write `value` to the highlighted control, then re-read
    | ApplyNamed(name: string)    // apply the stored preset `name`, then re-read
    | CaptureNamed(name: string)  // store a capture of the live controls as preset `name`
    | Ignore                      // nothing happens
  {
    /** Whether the controls are read again after the action. */
    predicate Refreshes() {
      Refresh? || WriteValue? || ApplyNamed?
    }
  }

  /**
   * The dispatch of one key press on the highlighted control `current`.
   * `rounded` is the rounded floating-point candidate of a percent step
   * (see `Control.GetPercentChange`).
   */
  function Decide(key: string, current: Control, presets: map<string, Preset>, rounded: int): (r: Action)
    ensures r.ApplyNamed? ==> r.name in presets && r.name in PresetNames && key == "f" + r.name
    ensures r.CaptureNamed? ==> r.name in PresetNames && key == "alt+f" + r.name
    ensures r.Refresh? <==> key == "u"
  {
    if key == "u" then Refresh
    else if key in DigitKeys then
      var level := DigitLevel(key).value;
      if current.IsMenu() || current.IsBoolean() then WriteValue(level)
      else WriteValue(ControlValue(current, level as real / 10.0))
    else if key == "left" || key == "h" then WriteValue(current.GetValueDecreasePercent(rounded))
    else if key == "right" || key == "l" then WriteValue(current.GetValueIncreasePercent(rounded))
    else if key == "y" then WriteValue(current.GetValueDecreaseStep())
    else if key == "o" then WriteValue(current.GetValueIncreaseStep())
    else if IsApplyKey(key) then
      var name := TrimPrefix(key, "f");
      if name in presets then ApplyNamed(name) else Ignore
    else if IsCaptureKey(key) then CaptureNamed(TrimPrefix(key, "alt+f"))
    else Ignore
  }

  /**
   * The highlighted control after a re-read: the last control of `controls`
   * with the same id, or `current` itself when the id is gone.
   */
  function Refreshed(controls: seq<Control>, current: Control): (r: Control)
    ensures r.id == current.id
    ensures r == current || r in controls
    decreases |controls|
  {
    if controls == [] then current
    else if controls[|controls| - 1].id == current.id then controls[|controls| - 1]
    else Refreshed(controls[..|controls| - 1], current)
  }

  /** Re-reads the highlighted control from a fresh list of controls, as the refresh loop does. */
  method RefreshCurrent(controls: seq<Control>, current: Control) returns (c: Control)
    ensures c == Refreshed(controls, current)
  {
    c := current;
    for i := 0 to |controls|
      invariant c == Refreshed(controls[..i], current)
    {
      assert controls[..i + 1][..i] == controls[..i];
      if controls[i].id == c.id {
        c := controls[i];
      }
    }
    assert controls[..|controls|] == controls;
  }

  /** The messages the main view reacts to. */
  datatype Msg =
    | KeyMsg(key: string)          // a key press, by its name
    | ControlMsg(control: Control) // a new row of the table was highlighted
    | TickMsg                      // the periodic refresh timer

  /**
   * The state of the main view that the key handling changes: the highlighted
   * control, the error line (empty when there is none) and the preset table,
   * together with the camera it writes to.
   */
  class Model {
    const cam: Camera
    var current: Control
    var lastError: string
    var presets: map<string, Preset>

    constructor (cam: Camera, current: Control, presets: map<string, Preset>)
      ensures this.cam == cam && this.current == current && lastError == "" && this.presets == presets
    {
      this.cam := cam;
      this.current := current;
      lastError := "";
      this.presets := presets;
    }

    /** Writes `value` to the highlighted control and reports the outcome on the error line. */
    method WriteCurrent(value: int, errText: string)
      modifies this, cam
      ensures cam.writes == old(cam.writes) + [Write(old(current).id, value)]
      ensures lastError == (if cam.accepts(|old(cam.writes)|) then "" else errText)
      ensures current == old(current) && presets == old(presets)
    {
      var ok := cam.SetControl(current.id, value);
      if ok {
        lastError := "";
      } else {
        lastError := errText;
      }
    }

    /**
     * Handles one message. `controls` is what reading the device returns
     * before the action (the list that a preset is applied to or captured
     * from), `refreshed` what it returns afterwards, `rounded` the rounded
     * percent candidate and `errText` the text of a failed write.
     */
    method Update(msg: Msg, controls: seq<Control>, refreshed: seq<Control>, rounded: int, errText: string)
      modifies this, cam
      ensures msg.ControlMsg? ==>
        current == msg.control && lastError == "" && presets == old(presets) && cam.writes == old(cam.writes)
      ensures msg.TickMsg? ==>
        current == Refreshed(refreshed, old(current)) && lastError == old(lastError)
        && presets == old(presets) && cam.writes == old(cam.writes)
      ensures msg.KeyMsg? ==>
        var act := Decide(msg.key, old(current), old(presets), rounded);
        && current == (if act.Refreshes() then Refreshed(refreshed, old(current)) else old(current))
        && (act.WriteValue? ==>
              cam.writes == old(cam.writes) + [Write(old(current).id, act.value)]
              && lastError == (if cam.accepts(|old(cam.writes)|) then "" else errText)
              && presets == old(presets))
        && (act.ApplyNamed? ==>
              cam.writes == ApplySpec(controls, old(presets)[act.name], cam.accepts, old(cam.writes)).second.log
              && lastError == old(lastError) && presets == old(presets))
        && (act.CaptureNamed? ==>
              cam.writes == old(cam.writes) && lastError == old(lastError)
              && presets.Keys == old(presets).Keys + {act.name}
              && (forall n :: n in old(presets) && n != act.name ==> presets[n] == old(presets)[n])
              && |presets[act.name].values| == |controls|
              && (forall i :: 0 <= i < |controls| ==>
                    presets[act.name].values[i] == PresetValue(controls[i].id, controls[i].value)))
        && ((act.Refresh? || act.Ignore?) ==>
              cam.writes == old(cam.writes) && lastError == old(lastError) && presets == old(presets))
    {
      match msg {
        case ControlMsg(c) =>
          current := c;
          lastError := "";
        case TickMsg =>
          current := RefreshCurrent(refreshed, current);
        case KeyMsg(key) =>
          var act := Decide(key, current, presets, rounded);
          match act {
            case Refresh =>
            case WriteValue(v) =>
              WriteCurrent(v, errText);
            case ApplyNamed(name) =>
              var _, _, _, _ := ApplyPreset(cam, controls, presets[name]);
            case CaptureNamed(name) =>
              var preset := NewPreset(controls);
              presets := presets[name := preset];
            case Ignore =>
          }
          if act.Refreshes() {
            current := RefreshCurrent(refreshed, current);
          }
      }
    }
  }

  // ----- Properties of the key dispatch -----

  /** The level keys: backtick is 0, `0` is 10 and each of `1` to `9` is its own number. */
  lemma DigitLevels()
    ensures DigitLevel("`") == Some(0)
    ensures DigitLevel("0") == Some(10)
    ensures forall d :: 1 <= d <= 9 ==> DigitLevel([('0' as int + d) as char]) == Some(d)
  {
  }

  /**
   * A level key on a menu or boolean control writes the level itself; on any
   * other control it writes that many tenths of the range, which lies in
   * `[min, max]`.
   */
  lemma DigitKeyWrites(key: string, c: Control, presets: map<string, Preset>, rounded: int)
    requires key in DigitKeys
    ensures Decide(key, c, presets, rounded).WriteValue?
    ensures c.IsMenu() || c.IsBoolean() ==>
      Decide(key, c, presets, rounded).value == DigitLevel(key).value
    ensures !c.IsMenu() && !c.IsBoolean() && c.min <= c.max ==>
      Decide(key, c, presets, rounded).value == ControlValue(c, DigitLevel(key).value as real / 10.0)
      && c.min <= Decide(key, c, presets, rounded).value <= c.max
  {
  }

  /** Backtick writes `min` and `0` writes `max` on an integer control. */
  lemma DigitKeyEnds(c: Control, presets: map<string, Preset>, rounded: int)
    requires !c.IsMenu() && !c.IsBoolean() && c.min <= c.max
    ensures Decide("`", c, presets, rounded) == WriteValue(c.min)
    ensures Decide("0", c, presets, rounded) == WriteValue(c.max)
  {
    ControlValueEnds(c);
    assert 0 as real / 10.0 == 0.0;
    assert 10 as real / 10.0 == 1.0;
  }

  /** On a boolean control key `0` writes 10, outside the control's range `[0, 1]`. */
  lemma BooleanZeroKeyWritesTen(presets: map<string, Preset>, rounded: int)
    ensures var c := Control(1, "power", 0, 1, 0, 1, BooleanKind, 0);
      c.Valid() && Decide("0", c, presets, rounded) == WriteValue(10) && 10 > c.max
  {
  }

  /** The level-5 key on an integer control `[0, 100]` writes the middle value 50. */
  lemma LevelFiveIsHalfway(presets: map<string, Preset>, rounded: int)
    ensures Decide("5", Control(1, "brightness", 0, 100, 20, 1, IntegerKind, 0), presets, rounded) == WriteValue(50)
  {
    var c := Control(1, "brightness", 0, 100, 20, 1, IntegerKind, 0);
    assert DigitLevel("5") == Some(5);
    assert ControlValue(c, 5 as real / 10.0) == 50 by {
      assert 5 as real / 10.0 == 0.5;
      assert Truncate(50.0) == 50;
    }
  }

  /** The arrow and step keys write the percent and step adjustments of the highlighted control. */
  lemma AdjustmentKeys(c: Control, presets: map<string, Preset>, rounded: int)
    ensures Decide("left", c, presets, rounded) == Decide("h", c, presets, rounded)
            == WriteValue(c.GetValueDecreasePercent(rounded))
    ensures Decide("right", c, presets, rounded) == Decide("l", c, presets, rounded)
            == WriteValue(c.GetValueIncreasePercent(rounded))
    ensures Decide("y", c, presets, rounded) == WriteValue(c.GetValueDecreaseStep())
    ensures Decide("o", c, presets, rounded) == WriteValue(c.GetValueIncreaseStep())
  {
  }

  /**
   * Every value a key writes lies in the control's range, except a raw level
   * written to a menu or boolean control, as long as one step each way stays
   * in `int32`.
   */
  lemma KeyWritesStayInRange(key: string, c: Control, presets: map<string, Preset>, rounded: int)
    requires c.Valid()
    requires IsInt32(c.value + c.StepSize()) && IsInt32(c.value - c.StepSize())
    requires !(key in DigitKeys && (c.IsMenu() || c.IsBoolean()))
    ensures Decide(key, c, presets, rounded).WriteValue? ==>
      c.min <= Decide(key, c, presets, rounded).value <= c.max
  {
  }

  /** The preset name of `fN` is `N`, one of the twelve preset names. */
  lemma ApplyKeyName(key: string)
    requires IsApplyKey(key)
    ensures TrimPrefix(key, "f") in PresetNames && key == "f" + TrimPrefix(key, "f")
  {
  }

  /** The preset name of `alt+fN` is `N`, one of the twelve preset names. */
  lemma CaptureKeyName(key: string)
    requires IsCaptureKey(key)
    ensures TrimPrefix(key, "alt+f") in PresetNames && key == "alt+f" + TrimPrefix(key, "alt+f")
  {
  }

  /** `fN` applies preset `N` exactly when it is stored; otherwise nothing is written and nothing is re-read. */
  lemma ApplyKeyNeedsStoredPreset(key: string, c: Control, presets: map<string, Preset>, rounded: int)
    requires IsApplyKey(key)
    ensures Decide(key, c, presets, rounded)
            == (if TrimPrefix(key, "f") in presets then ApplyNamed(TrimPrefix(key, "f")) else Ignore)
  {
    assert key !in DigitKeys && key != "u";
  }

  /** `alt+fN` always captures into preset `N`, whether or not it is already stored. */
  lemma CaptureKeyCaptures(key: string, c: Control, presets: map<string, Preset>, rounded: int)
    requires IsCaptureKey(key)
    ensures Decide(key, c, presets, rounded) == CaptureNamed(TrimPrefix(key, "alt+f"))
  {
    assert key !in DigitKeys && key != "u" && !IsApplyKey(key);
  }

  /** With unique ids, the refreshed control is the listed control with the same id. */
  lemma {:induction false} RefreshFindsSameId(controls: seq<Control>, current: Control, i: int)
    requires Unique(controls)
    requires 0 <= i < |controls| && controls[i].id == current.id
    ensures Refreshed(controls, current) == controls[i]
    decreases |controls|
  {
    if i < |controls| - 1 {
      RefreshFindsSameId(controls[..|controls| - 1], current, i);
    }
  }

  /** A control whose id is no longer listed stays as it was. */
  lemma {:induction false} RefreshKeepsMissing(controls: seq<Control>, current: Control)
    requires forall i :: 0 <= i < |controls| ==> controls[i].id != current.id
    ensures Refreshed(controls, current) == current
    decreases |controls|
  {
    if controls != [] {
      RefreshKeepsMissing(controls[..|controls| - 1], current);
    }
  }
}
