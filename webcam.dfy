/**
 * The control value model of webcam.go: a device control as a value, and the
 * pure functions that compute the next value to write for a relative
 * adjustment (one step, two percent, a boolean toggle, a menu entry) or for
 * an absolute level.
 *
 * The source computes in Go's `int32`, whose additions wrap around modulo
 * 2^32; the model spells that out with `Wrap32`. The range guarantees below
 * therefore hold when `value` plus or minus one step does not overflow, and
 * `IncreaseWrapsAtInt32Max` shows what happens when it does.
 */
module Webcam {

  const INT32_MIN: int := -0x8000_0000
  const INT32_MAX: int := 0x7fff_ffff
  const UINT32_LIMIT: int := 0x1_0000_0000

  predicate IsInt32(x: int) {
    INT32_MIN <= x <= INT32_MAX
  }

  /** The `int32` result of an `int32` addition or multiplication whose exact value is `x`. */
  function Wrap32(x: int): (r: int)
    ensures IsInt32(r)
    ensures (x - r) % UINT32_LIMIT == 0
    ensures IsInt32(x) ==> r == x
  {
    (x - INT32_MIN) % UINT32_LIMIT + INT32_MIN
  }

  function Min(a: int, b: int): int {
    if a <= b then a else b
  }

  function Max(a: int, b: int): int {
    if a <= b then b else a
  }

  /** The kinds of control the model distinguishes; every other device kind behaves as an integer control. */
  datatype ControlType = IntegerKind | BooleanKind | MenuKind

  /** One write issued to the device: the control and the value written. */
  datatype Write = Write(id: int, value: int)

  /** A snapshot of one device control, as read from the device. */
  datatype Control = Control(
    id: int,
    name: string,
    min: int,
    max: int,
    value: int,
    step: int,
    kind: ControlType,
    flags: int)
  {
    /** What the device reports: `int32` range fields and a current value inside `[min, max]`. */
    predicate Valid() {
      IsInt32(min) && IsInt32(max) && IsInt32(value) && IsInt32(step)
      && min <= value <= max
    }

    /**
     * A control is boolean when declared so, or when its range is exactly
     * `[0, 1]`; a control that is boolean by its range alone holds 0 or 1.
     */
    predicate IsBoolean()
      ensures kind == BooleanKind ==> IsBoolean()
      ensures IsBoolean() && kind != BooleanKind ==> min == 0 && max == 1
      ensures Valid() && IsBoolean() && kind != BooleanKind ==> value == 0 || value == 1
    {
      kind == BooleanKind || (min == 0 && max == 1)
    }

    /** A menu takes the boolean branch of the adjustments exactly when its range is `[0, 1]`. */
    predicate IsMenu()
      ensures IsMenu() ==> (IsBoolean() <==> min == 0 && max == 1)
    {
      kind == MenuKind
    }

    /** The value after switching a boolean: `max` from `min`, `min` from anywhere else. */
    function ToggleBoolean(): (r: int)
      ensures r == min || r == max
      ensures r == value ==> min == max
    {
      if value == min then max else min
    }

    /** The effective step: a declared step below 1 counts as 1. */
    function StepSize(): (s: int)
      ensures s >= 1 && s >= step
      ensures s == step || s == 1
    {
      Max(1, step)
    }

    /** Moves the value by `steps` effective steps in `int32` arithmetic, clamped only on the side it moves towards. */
    function GetStepsChange(steps: int): (r: int)
      requires IsInt32(steps)
      ensures IsInt32(r) || (steps < 0 && r == min) || (steps > 0 && r == max)
      ensures steps < 0 ==> min <= r
      ensures steps > 0 ==> r <= max
    {
      var next := Wrap32(value + Wrap32(steps * StepSize()));
      if steps < 0 then Max(next, min)
      else if steps > 0 then Min(next, max)
      else next
    }

    /**
     * One step up: a boolean toggles between its ends, a menu moves to the
     * next entry, an integer control moves up one effective step; while that
     * step stays in `int32` the result stays in range, and every non-boolean
     * control moves up unless it is already at `max`.
     */
    function GetValueIncreaseStep(): (r: int)
      ensures IsBoolean() ==> r == min || r == max
      ensures Valid() && IsInt32(value + StepSize()) ==> min <= r <= max
      ensures Valid() && IsInt32(value + StepSize()) && !IsBoolean() ==>
                value <= r && (value < max ==> value < r)
    {
      if IsBoolean() then ToggleBoolean()
      else if IsMenu() then Min(max, Wrap32(value + 1))
      else GetStepsChange(1)
    }

    /** One step down, the mirror image of `GetValueIncreaseStep`. */
    function GetValueDecreaseStep(): (r: int)
      ensures IsBoolean() ==> r == min || r == max
      ensures Valid() && IsInt32(value - StepSize()) ==> min <= r <= max
      ensures Valid() && IsInt32(value - StepSize()) && !IsBoolean() ==>
                r <= value && (min < value ==> r < value)
    {
      if IsBoolean() then ToggleBoolean()
      else if IsMenu() then Max(min, Wrap32(value - 1))
      else GetStepsChange(-1)
    }

    /**
     * Moves the value by a fraction `add` of the range. The source rounds the
     * floating-point target `(max - min) * (percent + add) + min` to an
     * `int32`; that candidate is the parameter `rounded`. The result is then
     * pushed at least one step away from `value` in the direction of `add`
     * and clamped on that side.
     */
    function GetPercentChange(add: real, rounded: int): (r: int)
      ensures add > 0.0 ==> r <= max
      ensures add < 0.0 ==> min <= r
    {
      if add < 0.0 then Max(Min(rounded, Wrap32(value - StepSize())), min)
      else if add > 0.0 then Min(Max(rounded, Wrap32(value + StepSize())), max)
      else rounded
    }

    /** Two percent up; `rounded` is the rounded floating-point candidate for that target. */
    function GetValueIncreasePercent(rounded: int): (r: int)
      ensures IsBoolean() ==> r == min || r == max
      ensures Valid() && IsInt32(value + StepSize()) ==> min <= r <= max
      ensures Valid() && IsInt32(value + StepSize()) && !IsBoolean() ==>
                value <= r && (value < max ==> value < r)
    {
      if IsBoolean() then ToggleBoolean()
      else if IsMenu() then Min(max, Wrap32(value + 1))
      else GetPercentChange(0.02, rounded)
    }

    /** Two percent down; `rounded` is the rounded floating-point candidate for that target. */
    function GetValueDecreasePercent(rounded: int): (r: int)
      ensures IsBoolean() ==> r == min || r == max
      ensures Valid() && IsInt32(value - StepSize()) ==> min <= r <= max
      ensures Valid() && IsInt32(value - StepSize()) && !IsBoolean() ==>
                r <= value && (min < value ==> r < value)
    {
      if IsBoolean() then ToggleBoolean()
      else if IsMenu() then Max(min, Wrap32(value - 1))
      else GetPercentChange(-0.02, rounded)
    }
  }

  function MinReal(a: real, b: real): real {
    if a <= b then a else b
  }

  function MaxReal(a: real, b: real): real {
    if a <= b then b else a
  }

  /** Go's conversion of a float to an integer: the fraction is dropped, rounding toward zero. */
  function Truncate(x: real): (r: int)
    ensures 0.0 <= x ==> r as real <= x < r as real + 1.0
    ensures x < 0.0 ==> r as real - 1.0 < x <= r as real
  {
    if 0.0 <= x then x.Floor else -((-x).Floor)
  }

  /**
   * The absolute value for a fraction `percent` of the range: `min + span * percent`,
   * clamped to `[min, max]` and then truncated toward zero.
   */
  function ControlValue(c: Control, percent: real): (r: int)
    ensures c.min <= c.max ==> c.min <= r <= c.max
    ensures c.max < c.min ==> r == c.max
  {
    var target := (c.max - c.min) as real * percent + c.min as real;
    Truncate(MinReal(c.max as real, MaxReal(c.min as real, target)))
  }

  /**
   * The device handle. Only the write side is modelled: whether the device
   * accepts a write is an oracle `accepts`, asked with the number of writes
   * issued before it, and every write is recorded in `writes`.
   */
  class Camera {
    const accepts: nat -> bool
    var writes: seq<Write>

    constructor (accepts: nat -> bool)
      ensures this.accepts == accepts && writes == []
    {
      this.accepts := accepts;
      writes := [];
    }

    /** Writes `value` to control `id`; `ok` is false when the device rejects the write. */
    method SetControl(id: int, value: int) returns (ok: bool)
      modifies this
      ensures writes == old(writes) + [Write(id, value)]
      ensures ok == accepts(|old(writes)|)
    {
      ok := accepts(|writes|);
      writes := writes + [Write(id, value)];
    }
  }

  // ----- Properties of the control value model -----

  /** A control declared as a menu but with range `[0, 1]` is boolean, so every adjustment toggles it. */
  lemma UnitRangeMenuToggles(c: Control, rounded: int)
    requires c.kind == MenuKind && c.min == 0 && c.max == 1
    ensures c.IsBoolean() && c.IsMenu()
    ensures c.GetValueIncreaseStep() == c.GetValueDecreaseStep() == (if c.value == 0 then 1 else 0)
    ensures c.GetValueIncreasePercent(rounded) == c.GetValueDecreasePercent(rounded) == (if c.value == 0 then 1 else 0)
  {
  }

  /** Toggling twice restores a value that was at either end of the range. */
  lemma ToggleTwice(c: Control)
    requires c.value == c.min || c.value == c.max
    ensures c.(value := c.ToggleBoolean()).ToggleBoolean() == c.value
  {
  }

  /** A boolean control toggles under every adjustment. */
  lemma BooleanAdjustmentsToggle(c: Control, rounded: int)
    requires c.IsBoolean()
    ensures c.GetValueIncreaseStep() == c.ToggleBoolean()
    ensures c.GetValueDecreaseStep() == c.ToggleBoolean()
    ensures c.GetValueIncreasePercent(rounded) == c.ToggleBoolean()
    ensures c.GetValueDecreasePercent(rounded) == c.ToggleBoolean()
  {
  }

  /** For boolean and menu controls a percent adjustment is the step adjustment. */
  lemma PercentIsStepForBooleanAndMenu(c: Control, rounded: int)
    requires c.IsBoolean() || c.IsMenu()
    ensures c.GetValueIncreasePercent(rounded) == c.GetValueIncreaseStep()
    ensures c.GetValueDecreasePercent(rounded) == c.GetValueDecreaseStep()
  {
  }

  /** An integer control moves up by one effective step, stopping at `max`. */
  lemma IncreaseStepMovesOneStep(c: Control)
    requires c.Valid() && !c.IsBoolean() && !c.IsMenu()
    requires IsInt32(c.value + c.StepSize())
    ensures c.GetValueIncreaseStep() == Min(c.value + c.StepSize(), c.max)
    ensures c.min <= c.GetValueIncreaseStep() <= c.max
    ensures c.value < c.max ==> c.value < c.GetValueIncreaseStep()
  {
    assert c.GetStepsChange(1) == Min(c.value + c.StepSize(), c.max);
  }

  /** An integer control moves down by one effective step, stopping at `min`. */
  lemma DecreaseStepMovesOneStep(c: Control)
    requires c.Valid() && !c.IsBoolean() && !c.IsMenu()
    requires IsInt32(c.value - c.StepSize())
    ensures c.GetValueDecreaseStep() == Max(c.value - c.StepSize(), c.min)
    ensures c.min <= c.GetValueDecreaseStep() <= c.max
    ensures c.min < c.value ==> c.GetValueDecreaseStep() < c.value
  {
    assert c.GetStepsChange(-1) == Max(c.value - c.StepSize(), c.min);
  }

  /** A menu control moves to the neighbouring entry, clamped to the range. */
  lemma MenuMovesByOne(c: Control)
    requires c.Valid() && c.IsMenu() && !c.IsBoolean()
    requires c.value < INT32_MAX && INT32_MIN < c.value
    ensures c.GetValueIncreaseStep() == Min(c.max, c.value + 1)
    ensures c.GetValueDecreaseStep() == Max(c.min, c.value - 1)
    ensures c.min <= c.GetValueIncreaseStep() <= c.max
    ensures c.min <= c.GetValueDecreaseStep() <= c.max
  {
  }

  /**
   * Two percent up: whatever the rounded candidate, the result is at least one
   * step above `value` or else `max`, and never above `max`; at `max` it is a no-op.
   */
  lemma IncreasePercentBounds(c: Control, rounded: int)
    requires c.Valid() && !c.IsBoolean() && !c.IsMenu()
    requires IsInt32(c.value + c.StepSize())
    ensures Min(c.value + c.StepSize(), c.max) <= c.GetValueIncreasePercent(rounded) <= c.max
    ensures c.value == c.max ==> c.GetValueIncreasePercent(rounded) == c.max
  {
    var r := c.GetPercentChange(0.02, rounded);
    assert r == Min(Max(rounded, c.value + c.StepSize()), c.max);
  }

  /**
   * Two percent down: whatever the rounded candidate, the result is at least one
   * step below `value` or else `min`, and never below `min`; at `min` it is a no-op.
   */
  lemma DecreasePercentBounds(c: Control, rounded: int)
    requires c.Valid() && !c.IsBoolean() && !c.IsMenu()
    requires IsInt32(c.value - c.StepSize())
    ensures c.min <= c.GetValueDecreasePercent(rounded) <= Max(c.value - c.StepSize(), c.min)
    ensures c.value == c.min ==> c.GetValueDecreasePercent(rounded) == c.min
  {
    var r := c.GetPercentChange(-0.02, rounded);
    assert r == Max(Min(rounded, c.value - c.StepSize()), c.min);
  }

  /** Without the no-overflow condition the step increase of a control at `INT32_MAX` wraps to `INT32_MIN`, below its `min`. */
  lemma IncreaseWrapsAtInt32Max()
    ensures var c := Control(0, "", 0, INT32_MAX, INT32_MAX, 1, IntegerKind, 0);
            c.Valid() && c.GetValueIncreaseStep() == INT32_MIN < c.min
  {
    var c := Control(0, "", 0, INT32_MAX, INT32_MAX, 1, IntegerKind, 0);
    assert Wrap32(INT32_MAX + 1) == INT32_MIN;
  }

  /** The ends of the level scale: fraction 0 gives `min`, fraction 1 gives `max`. */
  lemma ControlValueEnds(c: Control)
    requires c.min <= c.max
    ensures ControlValue(c, 0.0) == c.min
    ensures ControlValue(c, 1.0) == c.max
  {
    assert Truncate(c.min as real) == c.min;
    assert Truncate(c.max as real) == c.max;
  }

  /** The worked example: a `[0, 100]` control with step 5 at 50. */
  lemma WorkedExample(rounded: int)
    ensures var c := Control(1, "brightness", 0, 100, 50, 5, IntegerKind, 0);
            && c.GetValueIncreaseStep() == 55
            && c.GetValueDecreaseStep() == 45
            && 55 <= c.GetValueIncreasePercent(rounded) <= 100
            && ControlValue(c, 0.5) == 50
  {
    var c := Control(1, "brightness", 0, 100, 50, 5, IntegerKind, 0);
    IncreasePercentBounds(c, rounded);
    assert Truncate(50.0) == 50;
  }
}
