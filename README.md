# Webcam control model

This is a Dafny model of the core of a terminal tool that adjusts a webcam's
controls (brightness-like integer ranges, boolean switches and menu
settings) and saves and restores named presets of them. Three pieces are
modelled and proved:

- **The control value model** (`webcam.dfy`, module `Webcam`). A `Control`
  is a value. Pure functions compute the next value to write: a boolean
  toggle, one step up or down, two percent of the range up or down, and an
  absolute level in tenths of the range. Go's `int32` arithmetic is written
  out with its wrap-around (`Wrap32`). The device's write side is a
  `Camera` class: an acceptance oracle `accepts` and a log `writes` of every
  write issued.
- **Preset capture and the preset reconciler** (`configfile.dfy`, module
  `ConfigFile`).
  - `NewPreset` snapshots the live controls.
  - `ApplyPreset` builds the id→value map and partitions the controls into
    menu/boolean and other controls. It then runs, group by group, the
    bounded-retry loop: pass after pass over the pending controls, until
    none is pending or the failed writes reach ten per pending control.
  - Each loop is proved to compute a specification function: `Pass`,
    `Reconcile` and `ApplySpec`, over a `Progress` value (pending set, retry
    counter, write log).
  - The lemmas about those functions give:
    - termination;
    - the retry bound;
    - write order;
    - which value every write carries;
    - settling: every control not left pending got an accepted write of its
      target and was not written again;
    - the all-rejected and all-accepted outcomes.
- **The main view's key handling** (`tui.dfy`, module `Tui`).
  - `Decide` is the pure key dispatch: level keys, arrow and step keys,
    `fN` and `alt+fN`, and `u`.
  - `Model.Update` is the imperative handler. It writes to the camera,
    applies or captures presets, and reassigns `current`, `lastError` and
    the preset table.
  - `RefreshCurrent` is the loop that re-reads the highlighted control.

`wrappers.dfy` holds the `Option` type.

In five places the code behaves differently from what a reader of its comments and names would expect, and the model follows the code:

- **Unlisted controls are written 0.** A live control that a preset does not
  list is still pending and is written the value 0 (`configfile.go:108-121`).
  Restoring a preset therefore does not leave such controls untouched. See
  `UnlistedControlWrittenZero`.
- **The retry budget uses the current pending count.** It is compared
  against `len(todo)*10` at the top of each pass, that is, against the
  *current* pending count (`configfile.go:113`), not the group's initial
  size. A pass fails at least once for every control still pending after
  it, so after `k` passes the retries are at least `k` times the pending
  count and the guard admits at most ten passes. A group of N controls
  therefore fails at most `10·N` writes and makes at most `10·N` write
  attempts (`ReconcileRetriesBound`). The check stops no later than one
  against the initial count would. That variant can overshoot, because it is
  tested only between passes. Take three controls whose writes all fail,
  except that one of them is accepted on its second write. The passes fail
  3, 2, 2, … writes. An initial-count check stops only at `31 = 3 + 2 + 2·13`
  failures, while the code stops at `21 = 3 + 2 + 2·8`.
- **Grouping uses the declared kind only.** A control with integer kind and
  range `[0, 1]` is boolean for the adjustments but goes to the second
  group (`configfile.go:97`).
- **Level keys on menu and boolean controls write the raw level.** The
  same key mapping that scales the level into `[min, max]` for an integer
  control gives a menu or boolean control the raw number 0–10, unclamped.
  So key `0` writes 10 to a `[0, 1]` switch (`tui.go:185-191`,
  `BooleanZeroKeyWritesTen`), and a value a key writes is in range only for
  integer controls and for the relative adjustments.
- **`applyPreset` never fails.** It returns `nil` whatever the writes do
  (`configfile.go:132`). The model's `ApplyPreset` returns no error. It does
  return each group's final pending set and retry count, which are the
  values the loop ends with.

## Model

| member | source | states |
|---|---|---|
| Webcam.Wrap32 | webcam.go:81 | An `int32` sum or product is the exact value reduced modulo 2^32 into the `int32` range, and equals it when no overflow occurs. |
| Webcam.Control.IsBoolean | webcam.go:41-43 | A control declared boolean is boolean; one that is boolean without being declared so has range exactly `[0, 1]` and, when in range, holds 0 or 1. |
| Webcam.Control.IsMenu | webcam.go:45-48 | A menu control falls under the boolean branch of the adjustments exactly when its range is `[0, 1]`; otherwise it takes the menu branch. |
| Webcam.Control.ToggleBoolean | webcam.go:50-55 | The toggled value is `min` or `max`, and it differs from the current value unless the range is a single point. |
| Webcam.Control.StepSize | webcam.go:80 | The effective step is at least 1 and at least the declared step; it is the declared step or 1. |
| Webcam.Control.GetStepsChange | webcam.go:79-89 | Moving by steps clamps only on the side it moves towards: up never exceeds `max`, down never goes below `min`, and otherwise the `int32` result is kept. |
| Webcam.Control.GetValueIncreaseStep | webcam.go:57-66 | One step up gives a boolean one of its ends; while `value + step` stays in `int32` the result of an in-range control stays in `[min, max]`, and a non-boolean control never falls and rises unless it is at `max`. |
| Webcam.Control.GetValueDecreaseStep | webcam.go:68-77 | One step down gives a boolean one of its ends; while `value - step` stays in `int32` the result of an in-range control stays in `[min, max]`, and a non-boolean control never rises and falls unless it is at `min`. |
| Webcam.Control.GetValueIncreasePercent | webcam.go:91-100 | Two percent up, for any rounded candidate, has the same guarantees as one step up: ends for a boolean, in range without overflow, never down and strictly up below `max` for other controls. |
| Webcam.Control.GetValueDecreasePercent | webcam.go:102-111 | Two percent down, for any rounded candidate, has the same guarantees as one step down: ends for a boolean, in range without overflow, never up and strictly down above `min` for other controls. |
| Webcam.Control.GetPercentChange | webcam.go:113-128 | Whatever the rounded candidate, a positive change never exceeds `max` and a negative one never goes below `min`. |
| Webcam.Truncate | webcam.go:214 | Float-to-integer conversion drops the fraction toward zero: within one below a non-negative input, within one above a negative input. |
| Webcam.ControlValue | webcam.go:213-218 | The value for a fraction of the range lies in `[min, max]` (and is `max` for an inverted range), because clamping happens before truncation. |
| Webcam.Camera.SetControl | configfile.go:121 | A device write appends `(id, value)` to the write log and succeeds exactly when the oracle accepts that write's position. |
| Webcam.UnitRangeMenuToggles | webcam.go:41-43 | A menu control with range `[0, 1]` counts as boolean, so every adjustment toggles it. |
| Webcam.ToggleTwice | webcam.go:50-55 | Toggling twice restores a value that was `min` or `max`. |
| Webcam.BooleanAdjustmentsToggle | webcam.go:57-77 | Step and percent adjustments of a boolean control all return the toggle. |
| Webcam.PercentIsStepForBooleanAndMenu | webcam.go:91-111 | For boolean and menu controls the percent adjustments equal the step adjustments. |
| Webcam.IncreaseStepMovesOneStep | webcam.go:57-66 | For an in-range integer control without overflow, one step up is `min(value + step, max)`, stays in range and rises unless at `max`. |
| Webcam.DecreaseStepMovesOneStep | webcam.go:68-77 | For an in-range integer control without overflow, one step down is `max(value - step, min)`, stays in range and falls unless at `min`. |
| Webcam.MenuMovesByOne | webcam.go:61-73 | A menu control moves to the neighbouring raw value, clamped to `[min, max]`. |
| Webcam.IncreasePercentBounds | webcam.go:123-125 | Two percent up, for any candidate, lies in `[min(value + step, max), max]` and is a no-op at `max`. |
| Webcam.DecreasePercentBounds | webcam.go:120-122 | Two percent down, for any candidate, lies in `[min, max(value - step, min)]` and is a no-op at `min`. |
| Webcam.IncreaseWrapsAtInt32Max | webcam.go:79-89 | Without that condition, one step up from `INT32_MAX` wraps to `INT32_MIN`, below `min`. |
| Webcam.ControlValueEnds | webcam.go:213-218 | Fraction 0 gives `min` and fraction 1 gives `max`. |
| Webcam.WorkedExample | webcam.go:57-128 | On `[0, 100]` with step 5 at 50: step up 55, step down 45, percent up in `[55, 100]`, half-way level 50. |
| ConfigFile.Ids | configfile.go:108-111 | The pending set built from a group holds exactly the ids of its controls. |
| ConfigFile.IdsCount | configfile.go:108-111 | The pending set is no larger than the group, and equal in size when ids are unique. |
| ConfigFile.NewPreset | configfile.go:71-85 | A capture has one entry per live control, in list order, with that control's id and current value. |
| ConfigFile.Targets | configfile.go:88-91 | The id→value map holds every id the preset lists, and only those, each mapped to the value of one of its entries. |
| ConfigFile.LastListedWins | configfile.go:88-91 | When an id is listed more than once, the value of its last entry is the one used. |
| ConfigFile.CaptureRoundTrip | configfile.go:71-91 | The map of a capture gives back every captured control's value. |
| ConfigFile.Group | configfile.go:94-102 | A group is no longer than the control list and holds exactly the live controls of its kind class: menu and boolean kinds in the first, all others in the second. |
| ConfigFile.GroupKeepsOrder | configfile.go:94-102 | A group keeps the live list's order: of any two group members, the earlier one comes from an earlier position in the list. |
| ConfigFile.GroupsPartition | configfile.go:94-102 | Together the two groups hold each live control with its multiplicity: nothing is lost or duplicated. |
| ConfigFile.GroupIds | configfile.go:94-102 | A group's ids are ids of live controls. |
| ConfigFile.GroupUnique | configfile.go:94-102 | Unique ids stay unique within each group. |
| ConfigFile.GroupsDisjoint | configfile.go:94-102 | With unique ids the two groups share no id. |
| ConfigFile.WriteStep | configfile.go:118-127 | One control's turn appends exactly one write when the control is pending and none otherwise, removes at most that control from pending, and counts at most one retry per write. |
| ConfigFile.Pass | configfile.go:117-128 | A pass only shrinks the pending set, only appends to the log, and never lowers the retry count. |
| ConfigFile.Reconcile | configfile.go:113-129 | The retry loop only shrinks pending, only appends, never lowers retries, and ends with nothing pending or with at least ten failed writes per pending control. |
| ConfigFile.TargetWrites | configfile.go:117-128 | The full batch of a group has one write per control, in list order, each with that control's target value. |
| ConfigFile.PassFacts | configfile.go:117-128 | A pass only appends, only removes its own controls from pending, writes each control at most once, counts at most one retry per write, lowers `10·pending − retries` by at least one per write, and writes when something is pending. |
| ConfigFile.PassProgress | configfile.go:113-129 | While something is pending, each pass strictly lowers `10·pending − retries`, so the retry loop terminates. |
| ConfigFile.PassWritesPendingInOrder | configfile.go:117-128 | With unique ids a pass writes exactly the controls pending at its start, once each, in list order. |
| ConfigFile.PassAllRejected | configfile.go:117-128 | When every write fails, a pass over a fully pending group writes every control and adds one retry per control. |
| ConfigFile.PassAllAccepted | configfile.go:117-128 | When every write succeeds, one pass writes every control once and clears the pending set. |
| ConfigFile.WriteStepKeeps | configfile.go:118-127 | One control's turn keeps the group invariant: writes carry target values, accepted writes remove their control, and nothing is written after its accepted write. |
| ConfigFile.PassKeeps | configfile.go:117-128 | A pass keeps the group invariant. |
| ConfigFile.ReconcileKeeps | configfile.go:113-129 | The retry loop keeps the group invariant, only shrinks pending, only appends, and stops exactly when nothing is pending or retries reach ten per pending control. |
| ConfigFile.PassFailsPending | configfile.go:117-128 | A pass fails at least one write for every control of the group still pending after it. |
| ConfigFile.ReconcileBudgetFrom | configfile.go:113-129 | From a state reached after k ≤ 10 passes (at least k failures per pending control, at most k·N failures and at most k·N new writes for N controls), the loop ends with at most 10·N failures and 10·N new writes; `Budget(k, N)` is k·N. |
| ConfigFile.ReconcileRetriesBound | configfile.go:113-129 | A group of N controls fails at most 10·N writes and makes at most 10·N write attempts. |
| ConfigFile.ReconcileGroupWrites | configfile.go:107-129 | A group's run only appends writes of its own controls with their target values, stops by success or budget, fails at most 10·N writes and makes at most 10·N write attempts. |
| ConfigFile.ReconcileGroupSettled | configfile.go:117-128 | Every control of the group that ends not pending got an accepted write of its target and was not written after it. |
| ConfigFile.ReconcileStops | configfile.go:113 | With retries at ten per pending control the loop does not run. |
| ConfigFile.ReconcileRejectedPass | configfile.go:113-129 | When every write fails, each pass over the group adds the full batch and N retries. |
| ConfigFile.ReconcileAllRejectedFrom | configfile.go:113-129 | When every write fails, the passes still to run from any point are exactly those up to ten in total. |
| ConfigFile.ReconcileAllRejected | configfile.go:113-129 | When every write fails, a group of N ≥ 1 controls runs exactly ten passes: 10·N writes, 10·N retries, all N left pending. |
| ConfigFile.ReconcileAllAccepted | configfile.go:113-129 | When every write succeeds, one pass writes each control once and nothing stays pending. |
| ConfigFile.ApplySpec | configfile.go:87-130 | Applying a preset only appends to the log, the first group before the second; each group's pending set stays within its controls and each group ends with nothing pending or at least ten failures per pending control. |
| ConfigFile.ApplyExtendsLog | configfile.go:107-130 | Applying a preset only appends to the device log, and makes at most ten write attempts per live control. |
| ConfigFile.ApplyWritesTargets | configfile.go:87-130 | Every write while applying a preset goes to a live control and carries its preset value, 0 when unlisted. |
| ConfigFile.ApplyWritesInGroupOrder | configfile.go:107 | Every write to a menu or boolean control comes before every write to another control. |
| ConfigFile.SettledInFirstGroup | configfile.go:107-129 | A first-group control that ends not pending keeps its accepted target, since the second group never writes it. |
| ConfigFile.SettledInSecondGroup | configfile.go:107-129 | A second-group control that ends not pending keeps its accepted target. |
| ConfigFile.ApplySettles | configfile.go:87-133 | For every live control not left pending, the last write to it is an accepted write of its preset value, or of 0 when the preset does not list it. |
| ConfigFile.ApplyAllAccepted | configfile.go:107-129 | When every write succeeds, each live control is written exactly once, first group first, and nothing stays pending. |
| ConfigFile.ControlInBatches | configfile.go:94-102 | Every live control's target write is in one of the two groups' batches. |
| ConfigFile.UnlistedTargetIsZero | configfile.go:121 | A control the preset does not list has target value 0. |
| ConfigFile.UnlistedControlWrittenZero | configfile.go:108-121 | A live control the preset does not list is written 0, not left alone. |
| ConfigFile.ApplyCaptureRestores | configfile.go:71-133 | Restoring a capture later, to whatever controls are live then, writes each live control a value it had when captured, or 0 if it was not captured. |
| ConfigFile.CaptureSettlesLater | configfile.go:71-133 | With unique ids, a live control that is not left pending after a later restore has an accepted write of its captured value as its last write. |
| ConfigFile.RunPass | configfile.go:117-128 | The pass loop, with `continue` on skipped and failed controls, computes exactly one `Pass`. |
| ConfigFile.ReconcileGroup | configfile.go:108-129 | The group loop, starting with every control pending, computes exactly `Reconcile`. |
| ConfigFile.ApplyPreset | configfile.go:87-133 | Building the map, partitioning and running both groups leaves exactly the write log, pending sets and retry counts of `ApplySpec`. |
| Tui.DigitLevel | tui.go:173-183 | A key has a level exactly when it is a backtick or a digit, and the level is between 0 and 10. |
| Tui.TrimPrefix | tui.go:236 | Trimming a present prefix leaves the rest of the key; an absent prefix leaves the key unchanged. |
| Tui.Decide | tui.go:165-256 | Only `u` is a bare refresh; a preset is applied only if stored, under the name after `f`; a capture goes under the name after `alt+f`. |
| Tui.Refreshed | tui.go:266-274 | The refreshed control keeps the id and is the old control or one of the re-read controls. |
| Tui.RefreshCurrent | tui.go:266-274 | The refresh loop ends with the last re-read control with the same id, or the old control when none matches. |
| Tui.Model.WriteCurrent | tui.go:186-190 | A write to the highlighted control is logged; success clears the error line and failure sets it to the error text. |
| Tui.Model.Update | tui.go:144-286 | Per message and key: which single write, preset application or capture happens, the new error line, the new preset table, and `current` refreshed exactly when the controls are re-read. |
| Tui.DigitLevels | tui.go:173-183 | Backtick is level 0, `0` is level 10, and `1` to `9` are their own number. |
| Tui.DigitKeyWrites | tui.go:184-199 | A level key writes the raw level to menu and boolean controls and that many tenths of the range, in range, to other controls. |
| Tui.DigitKeyEnds | tui.go:192-199 | On an integer control, backtick writes `min` and `0` writes `max`. |
| Tui.BooleanZeroKeyWritesTen | tui.go:185-191 | On a `[0, 1]` boolean control key `0` writes 10, out of range. |
| Tui.LevelFiveIsHalfway | tui.go:192-199 | Level 5 on `[0, 100]` writes 50. |
| Tui.AdjustmentKeys | tui.go:203-233 | `left`/`h` write the percent decrease, `right`/`l` the percent increase, `y` the step decrease and `o` the step increase. |
| Tui.KeyWritesStayInRange | tui.go:173-233 | Every value a key writes is in range, except a raw level on a menu or boolean control, while one step each way stays in `int32`. |
| Tui.ApplyKeyName | tui.go:235-236 | The preset name of `fN` is `N`, one of `1`–`12`. |
| Tui.CaptureKeyName | tui.go:247-249 | The preset name of `alt+fN` is `N`, one of `1`–`12`. |
| Tui.ApplyKeyNeedsStoredPreset | tui.go:235-245 | `fN` applies preset `N` when it is stored; otherwise nothing is written and nothing is re-read. |
| Tui.CaptureKeyCaptures | tui.go:247-254 | `alt+fN` always captures into preset `N`, replacing any stored one. |
| Tui.RefreshFindsSameId | tui.go:266-274 | With unique ids the refreshed control is the re-read control with the same id. |
| Tui.RefreshKeepsMissing | tui.go:266-274 | A control whose id is no longer listed is left unchanged. |

## Left out

- **Device reads are inputs.** `newCam`, `Close`, `getControls` and its
  panic on a read error, and the sort by id (`webcam.go:161-204`) are not
  modelled. The lists they return are inputs: `controls` and `refreshed`.
  Unique ids are a precondition where a property needs them.
- **The device write is an oracle.** Its outcome is `Camera.accepts`,
  indexed by the write's position in the log. The driver's error text is the
  parameter `errText`.
- **Configuration files.** `LoadConfigFile`/`SaveConfigFile`, YAML and XDG
  paths (`configfile.go:29-69`) are file I/O and are not modelled.
- **Back-off sleeps.** The `time.Sleep` delays in the reconciler
  (`configfile.go:122`, `configfile.go:126`) are left out. They do not
  affect which writes happen.
- **Floating point.**
  - `Percent` is not modelled, including its division by zero when
    `min == max`.
  - The `math.Round` candidate in `GetPercentChange` is the parameter
    `rounded`.
  - `percentBar` is not modelled.
  - `controlValue` is computed in exact reals before truncation. `float64`
    rounding of `span * percent` can differ by one at integer boundaries.
- **Rendering and framework plumbing.** `Row`, `View`, the help view, the
  table widget and its events, the lipgloss styles, the tick command,
  `NewModel`, the `?`/`q` handling in `Model.Update`, and Bubbletea's
  command scheduling are not modelled. The table's highlight colour follows
  `lastError`, which is modelled.
- **`main.go`.** Flag parsing and wiring are not modelled.
- **Group iteration.** The source iterates over the two groups with a loop.
  `ApplyPreset` makes the two group calls one after the other instead.
- **Preset map aliasing.** `Model.presets` is a field that `Update`
  reassigns. The sharing of that map with the caller's configuration
  value is not modelled.
- **Device state.** The model keeps the log of writes and whether each was
  accepted, not the values the device holds. "Settled" means that the last
  write to a control was an accepted write of its target. That the device
  then holds that value assumes an accepted write sets exactly its own
  control. Side effects of one control on another (the locking that the
  retries work around) are not modelled.
- **Level keys.** The failure branch of `strconv.ParseInt` in the
  level-key case cannot occur for the eleven keys listed, so it is not
  modelled.
- Webcam.Control.GetValueIncreaseStep, Webcam.Control.GetValueDecreaseStep,
  Webcam.Control.GetValueIncreasePercent and
  Webcam.Control.GetValueDecreasePercent: the range guarantee is stated only
  while `value ± step` stays in `int32`. At the edges of `int32` the source's
  addition wraps around, and `IncreaseWrapsAtInt32Max` exhibits this.
- Webcam.IncreaseStepMovesOneStep, Webcam.DecreaseStepMovesOneStep,
  Webcam.IncreasePercentBounds, Webcam.DecreasePercentBounds and
  Webcam.MenuMovesByOne: these carry the same no-overflow requirement, for
  the same reason.
- Tui.KeyWritesStayInRange: excludes raw levels on menu and boolean
  controls, which the source writes unclamped, and carries the same
  no-overflow requirement.
- ConfigFile.UnlistedControlWrittenZero: stated for a device that accepts
  every write. Under an arbitrary oracle the control is still written 0 on
  every attempt (`ApplyWritesTargets`) and settles at 0 when accepted
  (`ApplySettles`).
