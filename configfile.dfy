/**
 * Preset capture and the preset reconciler of configfile.go.
 *
 * A preset lists `(control id, value)` pairs. Applying it writes, through the
 * device handle, every live control's preset value (0 for a control the
 * preset does not list), first for the menu and boolean controls and then for
 * the rest. Each group is retried pass by pass, in list order, until nothing
 * is pending or the failed writes reach ten times the number still pending.
 *
 * The reconciler is specified by functions over a `Progress` value (pending
 * set, retry counter, device write log): `WriteStep` for one control, `Pass`
 * for one pass, `Reconcile` for a whole group and `ApplySpec` for a preset.
 * The methods `RunPass`, `ReconcileGroup` and `ApplyPreset` run the loops of
 * the source and are proved to compute exactly those functions; the lemmas
 * state what the functions guarantee.
 */
module ConfigFile {
  import opened Webcam

  datatype PresetValue = PresetValue(id: int, value: int)

  datatype Preset = Preset(values: seq<PresetValue>)

  /** Control identifiers of a control list. */
  function Ids(cs: seq<Control>): (ids: set<int>)
    ensures forall i :: 0 <= i < |cs| ==> cs[i].id in ids
    ensures forall id :: id in ids ==> exists i :: 0 <= i < |cs| && cs[i].id == id
  {
    if cs == [] then {} else Ids(cs[..|cs| - 1]) + {cs[|cs| - 1].id}
  }

  /** The device lists every control once: no two entries share an identifier. */
  predicate Unique(cs: seq<Control>) {
    forall i, j :: 0 <= i < j < |cs| ==> cs[i].id != cs[j].id
  }

  lemma IdsAppend(cs: seq<Control>, c: Control)
    ensures Ids(cs + [c]) == Ids(cs) + {c.id}
  {
    assert (cs + [c])[..|cs|] == cs;
  }

  lemma SubsetCount(a: set<int>, b: set<int>)
    requires a <= b
    ensures |a| <= |b|
  {
    assert b == a + (b - a);
  }

  lemma {:induction false} IdsCount(cs: seq<Control>)
    ensures |Ids(cs)| <= |cs|
    ensures Unique(cs) ==> |Ids(cs)| == |cs|
    decreases |cs|
  {
    if cs != [] {
      var init := cs[..|cs| - 1];
      IdsCount(init);
      if Unique(cs) {
        assert Unique(init);
        assert cs[|cs| - 1].id !in Ids(init);
      }
    }
  }

  // ----- Capture -----

  /** Snapshots the live controls: one entry per control, in list order, with its identifier and current value. */
  method NewPreset(controls: seq<Control>) returns (preset: Preset)
    ensures |preset.values| == |controls|
    ensures forall i :: 0 <= i < |controls| ==>
              preset.values[i] == PresetValue(controls[i].id, controls[i].value)
  {
    var values: seq<PresetValue> := [];
    for i := 0 to |controls|
      invariant |values| == i
      invariant forall j :: 0 <= j < i ==> values[j] == PresetValue(controls[j].id, controls[j].value)
    {
      values := values + [PresetValue(controls[i].id, controls[i].value)];
    }
    preset := Preset(values);
  }

  // ----- The preset as a map -----

  /** The preset's values by control identifier; when an identifier is listed twice, the later entry overrides. */
  function Targets(values: seq<PresetValue>): (m: map<int, int>)
    ensures forall i :: 0 <= i < |values| ==> values[i].id in m
    ensures forall id :: id in m ==>
              exists i :: 0 <= i < |values| && values[i] == PresetValue(id, m[id])
    decreases |values|
  {
    if values == [] then map[]
    else
      var init := values[..|values| - 1];
      assert forall i :: 0 <= i < |init| ==> init[i] == values[i];
      Targets(init)[values[|values| - 1].id := values[|values| - 1].value]
  }

  /** The value written to a control: its preset value, or 0 when the preset does not list it. */
  function TargetValue(targets: map<int, int>, id: int): int {
    if id in targets then targets[id] else 0
  }

  /** The value taken for an identifier is that of its last entry in the preset. */
  lemma {:induction false} LastListedWins(values: seq<PresetValue>, i: int)
    requires 0 <= i < |values|
    requires forall j :: i < j < |values| ==> values[j].id != values[i].id
    ensures values[i].id in Targets(values)
    ensures Targets(values)[values[i].id] == values[i].value
    decreases |values|
  {
    var init := values[..|values| - 1];
    if i < |values| - 1 {
      assert forall j :: i < j < |init| ==> init[j] == values[j];
      LastListedWins(init, i);
      assert init[i] == values[i];
    }
  }

  /** A preset captured from a control list gives back each control's captured value. */
  lemma CaptureRoundTrip(controls: seq<Control>, values: seq<PresetValue>)
    requires Unique(controls)
    requires |values| == |controls|
    requires forall i :: 0 <= i < |controls| ==> values[i] == PresetValue(controls[i].id, controls[i].value)
    ensures forall i :: 0 <= i < |controls| ==> TargetValue(Targets(values), controls[i].id) == controls[i].value
  {
    forall i | 0 <= i < |controls|
      ensures TargetValue(Targets(values), controls[i].id) == controls[i].value
    {
      LastListedWins(values, i);
    }
  }

  // ----- Grouping -----

  /** Menu and boolean controls, by declared kind only, are written first. */
  predicate IsPriority(c: Control) {
    c.kind == MenuKind || c.kind == BooleanKind
  }

  /** The controls of `cs` whose priority is `priority`, in list order. */
  function Group(cs: seq<Control>, priority: bool): (g: seq<Control>)
    ensures |g| <= |cs|
    ensures forall c :: c in g <==> c in cs && IsPriority(c) == priority
    decreases |cs|
  {
    if cs == [] then []
    else
      assert cs == cs[..|cs| - 1] + [cs[|cs| - 1]];
      var g := Group(cs[..|cs| - 1], priority);
      if IsPriority(cs[|cs| - 1]) == priority then g + [cs[|cs| - 1]] else g
  }

  /** Together the two groups hold the live controls with their multiplicities: nothing is lost or duplicated. */
  lemma {:induction false} GroupsPartition(cs: seq<Control>)
    ensures multiset(Group(cs, true)) + multiset(Group(cs, false)) == multiset(cs)
    decreases |cs|
  {
    if cs != [] {
      var init := cs[..|cs| - 1];
      GroupsPartition(init);
      assert cs == init + [cs[|cs| - 1]];
    }
  }

  lemma {:induction false} GroupIds(cs: seq<Control>, priority: bool)
    ensures Ids(Group(cs, priority)) <= Ids(cs)
    decreases |cs|
  {
    if cs != [] {
      var init := cs[..|cs| - 1];
      GroupIds(init, priority);
      IdsAppend(Group(init, priority), cs[|cs| - 1]);
    }
  }

  lemma UniqueAppend(cs: seq<Control>, c: Control)
    requires Unique(cs) && c.id !in Ids(cs)
    ensures Unique(cs + [c])
  {
    forall i | 0 <= i < |cs|
      ensures (cs + [c])[i].id != c.id
    {
      assert cs[i].id in Ids(cs);
    }
  }

  /** A group keeps the order of the live list: of two group members, the earlier one comes earlier in the list. */
  lemma {:induction false} GroupKeepsOrder(cs: seq<Control>, priority: bool, i: int, j: int)
    requires 0 <= i < j < |Group(cs, priority)|
    ensures exists a, b :: 0 <= a < b < |cs| && cs[a] == Group(cs, priority)[i] && cs[b] == Group(cs, priority)[j]
    decreases |cs|
  {
    var init := cs[..|cs| - 1];
    var g := Group(init, priority);
    if j < |g| {
      GroupKeepsOrder(init, priority, i, j);
      var a, b :| 0 <= a < b < |init| && init[a] == g[i] && init[b] == g[j];
      assert cs[a] == init[a] && cs[b] == init[b];
    } else {
      assert g[i] in g;
      var a :| 0 <= a < |init| && init[a] == g[i];
      assert cs[a] == Group(cs, priority)[i];
      assert cs[|cs| - 1] == Group(cs, priority)[j];
    }
  }

  /** With unique identifiers each group stays unique. */
  lemma {:induction false} GroupUnique(cs: seq<Control>, priority: bool)
    requires Unique(cs)
    ensures Unique(Group(cs, priority))
    decreases |cs|
  {
    if cs != [] {
      var init := cs[..|cs| - 1];
      var last := cs[|cs| - 1];
      assert Unique(init);
      GroupUnique(init, priority);
      if IsPriority(last) == priority {
        GroupIds(init, priority);
        assert last.id !in Ids(init);
        UniqueAppend(Group(init, priority), last);
      }
    }
  }

  /** With unique identifiers the two groups share no identifier. */
  lemma {:induction false} GroupsDisjoint(cs: seq<Control>)
    requires Unique(cs)
    ensures Ids(Group(cs, true)) !! Ids(Group(cs, false))
    decreases |cs|
  {
    if cs != [] {
      var init := cs[..|cs| - 1];
      var last := cs[|cs| - 1];
      assert Unique(init);
      GroupsDisjoint(init);
      GroupIds(init, true);
      GroupIds(init, false);
      assert last.id !in Ids(init);
      IdsAppend(Group(init, true), last);
      IdsAppend(Group(init, false), last);
    }
  }

  // ----- The reconciler, as functions -----

  /** The state of one group's reconciliation: pending identifiers, failed writes, and the device's write log. */
  datatype Progress = Progress(todo: set<int>, retries: nat, log: seq<Write>)

  /** The quantity each pass decreases: ten per pending control, less the failed writes. */
  function Measure(st: Progress): int {
    10 * |st.todo| - st.retries
  }

  /** One control's turn in a pass: a pending control is written its target; acceptance removes it, rejection counts a retry. */
  function WriteStep(c: Control, targets: map<int, int>, accepts: nat -> bool, st: Progress): (r: Progress)
    ensures st.log <= r.log
    ensures |r.log| == |st.log| + (if c.id in st.todo then 1 else 0)
    ensures r.todo == st.todo - {c.id} || r.todo == st.todo
    ensures st.retries <= r.retries <= st.retries + (|r.log| - |st.log|)
  {
    if c.id !in st.todo then st
    else
      var log := st.log + [Write(c.id, TargetValue(targets, c.id))];
      if accepts(|st.log|) then Progress(st.todo - {c.id}, st.retries, log)
      else Progress(st.todo, st.retries + 1, log)
  }

  /** One pass over the group in list order. */
  function Pass(cs: seq<Control>, targets: map<int, int>, accepts: nat -> bool, st: Progress): (p: Progress)
    ensures p.todo <= st.todo && st.log <= p.log && st.retries <= p.retries
    decreases |cs|
  {
    if cs == [] then st
    else WriteStep(cs[|cs| - 1], targets, accepts, Pass(cs[..|cs| - 1], targets, accepts, st))
  }

  /** Passes repeat while something is pending and the failed writes stay below ten per pending control. */
  function Reconcile(cs: seq<Control>, targets: map<int, int>, accepts: nat -> bool, st: Progress): (r: Progress)
    requires st.todo <= Ids(cs)
    ensures r.todo <= st.todo && st.log <= r.log && st.retries <= r.retries
    ensures r.todo == {} || 10 * |r.todo| <= r.retries
    decreases Measure(st)
  {
    if |st.todo| > 0 && st.retries < |st.todo| * 10 then
      PassProgress(cs, targets, accepts, st);
      Reconcile(cs, targets, accepts, Pass(cs, targets, accepts, st))
    else st
  }

  /** The writes that target every control of `cs` once, in list order. */
  function TargetWrites(cs: seq<Control>, targets: map<int, int>): (w: seq<Write>)
    ensures |w| == |cs|
    ensures forall i :: 0 <= i < |cs| ==> w[i] == Write(cs[i].id, TargetValue(targets, cs[i].id))
    decreases |cs|
  {
    if cs == [] then []
    else TargetWrites(cs[..|cs| - 1], targets) + [Write(cs[|cs| - 1].id, TargetValue(targets, cs[|cs| - 1].id))]
  }

  /** The controls of `cs` whose identifier is in `todo`, in list order. */
  function Pending(cs: seq<Control>, todo: set<int>): seq<Control>
    decreases |cs|
  {
    if cs == [] then []
    else
      var p := Pending(cs[..|cs| - 1], todo);
      if cs[|cs| - 1].id in todo then p + [cs[|cs| - 1]] else p
  }

  function Repeat(s: seq<Write>, n: nat): seq<Write> {
    if n == 0 then [] else s + Repeat(s, n - 1)
  }

  // ----- Properties of a pass -----

  /**
   * A pass only appends to the log, only removes identifiers of its own
   * controls from the pending set, writes at most once per control, counts
   * at most one retry per write, and lowers `Measure` by at least one per
   * write; it writes something whenever one of its controls is pending.
   */
  lemma {:induction false} PassFacts(cs: seq<Control>, targets: map<int, int>, accepts: nat -> bool, st: Progress)
    ensures var p := Pass(cs, targets, accepts, st);
      && p.todo <= st.todo
      && st.todo - Ids(cs) <= p.todo
      && st.log <= p.log
      && |p.log| <= |st.log| + |cs|
      && st.retries <= p.retries <= st.retries + (|p.log| - |st.log|)
      && Measure(p) + (|p.log| - |st.log|) <= Measure(st)
      && (st.todo * Ids(cs) != {} ==> |st.log| < |p.log|)
    decreases |cs|
  {
    if cs != [] {
      var init := cs[..|cs| - 1];
      var last := cs[|cs| - 1];
      PassFacts(init, targets, accepts, st);
      var q := Pass(init, targets, accepts, st);
      if last.id in q.todo {
        assert |q.todo - {last.id}| == |q.todo| - 1;
      }
      if st.todo * Ids(init) == {} && st.todo * Ids(cs) != {} {
        assert last.id in st.todo - Ids(init);
      }
    }
  }

  /** With a pending control in the group, a pass keeps the pending set inside the group and strictly lowers `Measure`. */
  lemma PassProgress(cs: seq<Control>, targets: map<int, int>, accepts: nat -> bool, st: Progress)
    requires st.todo <= Ids(cs) && st.todo != {}
    ensures Pass(cs, targets, accepts, st).todo <= Ids(cs)
    ensures Measure(Pass(cs, targets, accepts, st)) < Measure(st)
  {
    PassFacts(cs, targets, accepts, st);
    assert st.todo * Ids(cs) == st.todo;
  }

  /** Removing the last control of a duplicate-free list keeps it duplicate-free and leaves the last id unlisted. */
  lemma UniqueInit(cs: seq<Control>)
    requires Unique(cs) && cs != []
    ensures Unique(cs[..|cs| - 1]) && cs[|cs| - 1].id !in Ids(cs[..|cs| - 1])
  {
  }

  /** The pending list grows by the last control exactly when that control is pending. */
  lemma PendingWritesStep(cs: seq<Control>, todo: set<int>, targets: map<int, int>)
    requires cs != []
    ensures var last := cs[|cs| - 1];
      TargetWrites(Pending(cs, todo), targets)
      == TargetWrites(Pending(cs[..|cs| - 1], todo), targets)
         + (if last.id in todo then [Write(last.id, TargetValue(targets, last.id))] else [])
  {
    var p := Pending(cs[..|cs| - 1], todo);
    var last := cs[|cs| - 1];
    if last.id in todo {
      assert (p + [last])[..|p|] == p;
    }
  }

  /** With unique identifiers a pass writes exactly the controls pending at its start, once each, in list order. */
  lemma {:induction false} PassWritesPendingInOrder(cs: seq<Control>, targets: map<int, int>, accepts: nat -> bool, st: Progress)
    requires Unique(cs)
    ensures Pass(cs, targets, accepts, st).log == st.log + TargetWrites(Pending(cs, st.todo), targets)
    decreases |cs|
  {
    if cs != [] {
      var init := cs[..|cs| - 1];
      var last := cs[|cs| - 1];
      UniqueInit(cs);
      PassWritesPendingInOrder(init, targets, accepts, st);
      var mid := Pass(init, targets, accepts, st);
      assert last.id in mid.todo <==> last.id in st.todo by {
        PassFacts(init, targets, accepts, st);
      }
      PendingWritesStep(cs, st.todo, targets);
    }
  }

  /** When the device rejects everything, a pass over a fully pending group writes every control once and fails each time. */
  lemma {:induction false} PassAllRejected(cs: seq<Control>, targets: map<int, int>, accepts: nat -> bool, st: Progress)
    requires forall k :: !accepts(k)
    requires Ids(cs) <= st.todo
    ensures Pass(cs, targets, accepts, st) == Progress(st.todo, st.retries + |cs|, st.log + TargetWrites(cs, targets))
    decreases |cs|
  {
    if cs != [] {
      PassAllRejected(cs[..|cs| - 1], targets, accepts, st);
    }
  }

  /** When the device accepts everything, a pass writes every control of a pending group once and clears them all. */
  lemma {:induction false} PassAllAccepted(cs: seq<Control>, targets: map<int, int>, accepts: nat -> bool, st: Progress)
    requires forall k :: accepts(k)
    requires Unique(cs) && Ids(cs) <= st.todo
    ensures Pass(cs, targets, accepts, st) == Progress(st.todo - Ids(cs), st.retries, st.log + TargetWrites(cs, targets))
    decreases |cs|
  {
    if cs != [] {
      var init := cs[..|cs| - 1];
      var last := cs[|cs| - 1];
      assert Unique(init);
      PassAllAccepted(init, targets, accepts, st);
      assert last.id !in Ids(init);
      assert Ids(cs) == Ids(init) + {last.id};
      assert st.todo - Ids(init) - {last.id} == st.todo - Ids(cs);
      assert TargetWrites(cs, targets) == TargetWrites(init, targets) + [Write(last.id, TargetValue(targets, last.id))];
    }
  }

  // ----- Properties of a group's reconciliation -----

  /**
   * What holds of a group's writes from log position `from` on, for a group
   * whose pending set started as `todo0`: every write targets a control of
   * the group with its target value; an accepted write takes its control off
   * the pending set; a control off the pending set got an accepted write; and
   * no control is written again after an accepted write.
   */
  ghost predicate GroupInvariant(targets: map<int, int>, accepts: nat -> bool, todo0: set<int>, from: nat, st: Progress) {
    && from <= |st.log|
    && st.todo <= todo0
    && (forall j :: from <= j < |st.log| ==>
          st.log[j].id in todo0 && st.log[j].value == TargetValue(targets, st.log[j].id))
    && (forall j :: from <= j < |st.log| && accepts(j) ==> st.log[j].id !in st.todo)
    && (forall id :: id in todo0 && id !in st.todo ==>
          exists j :: from <= j < |st.log| && accepts(j) && st.log[j].id == id)
    && (forall j, k :: from <= j < k < |st.log| && st.log[j].id == st.log[k].id ==> !accepts(j))
  }

  lemma WriteStepKeeps(c: Control, targets: map<int, int>, accepts: nat -> bool, todo0: set<int>, from: nat, st: Progress)
    requires GroupInvariant(targets, accepts, todo0, from, st)
    ensures GroupInvariant(targets, accepts, todo0, from, WriteStep(c, targets, accepts, st))
  {
    var s := WriteStep(c, targets, accepts, st);
    if c.id in st.todo {
      var n := |st.log|;
      assert forall j :: 0 <= j < n ==> s.log[j] == st.log[j];
      assert s.log[n] == Write(c.id, TargetValue(targets, c.id));
      forall id | id in todo0 && id !in s.todo
        ensures exists j :: from <= j < |s.log| && accepts(j) && s.log[j].id == id
      {
        if id in st.todo {
          assert id == c.id && accepts(n) && s.log[n].id == id;
        } else {
          var j :| from <= j < n && accepts(j) && st.log[j].id == id;
          assert s.log[j] == st.log[j];
        }
      }
    }
  }

  lemma {:induction false} PassKeeps(cs: seq<Control>, targets: map<int, int>, accepts: nat -> bool, todo0: set<int>, from: nat, st: Progress)
    requires GroupInvariant(targets, accepts, todo0, from, st)
    ensures GroupInvariant(targets, accepts, todo0, from, Pass(cs, targets, accepts, st))
    decreases |cs|
  {
    if cs != [] {
      PassKeeps(cs[..|cs| - 1], targets, accepts, todo0, from, st);
      WriteStepKeeps(cs[|cs| - 1], targets, accepts, todo0, from, Pass(cs[..|cs| - 1], targets, accepts, st));
    }
  }

  /**
   * Reconciliation keeps the group invariant, only shrinks the pending set,
   * only appends to the log, and stops exactly when nothing is pending or the
   * failed writes reach ten per pending control.
   */
  lemma {:induction false} ReconcileKeeps(cs: seq<Control>, targets: map<int, int>, accepts: nat -> bool, todo0: set<int>, from: nat, st: Progress)
    requires st.todo <= Ids(cs)
    requires GroupInvariant(targets, accepts, todo0, from, st)
    ensures var r := Reconcile(cs, targets, accepts, st);
      && GroupInvariant(targets, accepts, todo0, from, r)
      && r.todo <= st.todo
      && st.log <= r.log
      && (r.todo == {} || 10 * |r.todo| <= r.retries)
    decreases Measure(st)
  {
    if |st.todo| > 0 && st.retries < |st.todo| * 10 {
      PassProgress(cs, targets, accepts, st);
      PassFacts(cs, targets, accepts, st);
      PassKeeps(cs, targets, accepts, todo0, from, st);
      ReconcileKeeps(cs, targets, accepts, todo0, from, Pass(cs, targets, accepts, st));
    }
  }

  /** Position `j` of `log` holds the accepted write `w`, and no later write touches the same control. */
  ghost predicate SettledAt(log: seq<Write>, accepts: nat -> bool, j: int, w: Write) {
    0 <= j < |log| && accepts(j) && log[j] == w && forall k :: j < k < |log| ==> log[k].id != w.id
  }

  /** Some accepted write of `w` at or after position `from` is the last write to its control. */
  ghost predicate Settled(log: seq<Write>, accepts: nat -> bool, from: nat, w: Write) {
    exists j :: from <= j && SettledAt(log, accepts, j, w)
  }

  lemma SettledExtends(log: seq<Write>, log': seq<Write>, accepts: nat -> bool, j: int, w: Write)
    requires SettledAt(log, accepts, j, w)
    requires log <= log'
    requires forall k :: |log| <= k < |log'| ==> log'[k].id != w.id
    ensures SettledAt(log', accepts, j, w)
  {
    assert forall k :: 0 <= k < |log| ==> log'[k] == log[k];
  }

  /**
   * A group reconciled from "everything pending, no retries" only appends to
   * the log; every write is of a group control with its target value; it
   * stops with nothing pending or with the failed writes at ten per pending
   * control; and it fails, and attempts, at most ten writes per control.
   */
  lemma ReconcileGroupWrites(cs: seq<Control>, targets: map<int, int>, accepts: nat -> bool, log: seq<Write>)
    ensures var r := Reconcile(cs, targets, accepts, Progress(Ids(cs), 0, log));
      && log <= r.log
      && r.todo <= Ids(cs)
      && (forall j :: |log| <= j < |r.log| ==>
            r.log[j].id in Ids(cs) && r.log[j].value == TargetValue(targets, r.log[j].id))
      && (r.todo == {} || 10 * |r.todo| <= r.retries)
      && r.retries <= 10 * |cs|
      && |r.log| <= |log| + 10 * |cs|
  {
    ReconcileKeeps(cs, targets, accepts, Ids(cs), |log|, Progress(Ids(cs), 0, log));
    ReconcileRetriesBound(cs, targets, accepts, log);
  }

  /** Each control of the group that is no longer pending got an accepted write of its target, and was not written after it. */
  lemma ReconcileGroupSettled(cs: seq<Control>, targets: map<int, int>, accepts: nat -> bool, log: seq<Write>)
    ensures var r := Reconcile(cs, targets, accepts, Progress(Ids(cs), 0, log));
      forall id :: id in Ids(cs) && id !in r.todo ==>
        Settled(r.log, accepts, |log|, Write(id, TargetValue(targets, id)))
  {
    var st := Progress(Ids(cs), 0, log);
    var r := Reconcile(cs, targets, accepts, st);
    ReconcileKeeps(cs, targets, accepts, Ids(cs), |log|, st);
    forall id | id in Ids(cs) && id !in r.todo
      ensures Settled(r.log, accepts, |log|, Write(id, TargetValue(targets, id)))
    {
      var j :| |log| <= j < |r.log| && accepts(j) && r.log[j].id == id;
      assert SettledAt(r.log, accepts, j, Write(id, TargetValue(targets, id)));
    }
  }

  lemma MulFacts(k: nat, n: nat)
    requires k < 10 && n > 0
    ensures k * n < 10 * n
    ensures (k + 1) * n == k * n + n
  {
  }

  lemma ReconcileUnfold(cs: seq<Control>, targets: map<int, int>, accepts: nat -> bool, st: Progress)
    requires st.todo <= Ids(cs)
    requires |st.todo| > 0 && st.retries < |st.todo| * 10
    ensures Pass(cs, targets, accepts, st).todo <= Ids(cs)
    ensures Reconcile(cs, targets, accepts, st) == Reconcile(cs, targets, accepts, Pass(cs, targets, accepts, st))
  {
    PassProgress(cs, targets, accepts, st);
  }

  lemma ReconcileStops(cs: seq<Control>, targets: map<int, int>, accepts: nat -> bool, st: Progress)
    requires st.todo <= Ids(cs)
    requires |st.todo| * 10 <= st.retries
    ensures Reconcile(cs, targets, accepts, st) == st
  {
  }

  lemma ReconcileAtBudget(cs: seq<Control>, targets: map<int, int>, accepts: nat -> bool, log: seq<Write>)
    requires |Ids(cs)| == |cs|
    ensures Reconcile(cs, targets, accepts, Progress(Ids(cs), 10 * |cs|, log)) == Progress(Ids(cs), 10 * |cs|, log + Repeat(TargetWrites(cs, targets), 0))
  {
    ReconcileStops(cs, targets, accepts, Progress(Ids(cs), 10 * |cs|, log));
  }

  lemma RepeatOnce(log: seq<Write>, w: seq<Write>, m: nat)
    ensures log + w + Repeat(w, m) == log + Repeat(w, m + 1)
  {
  }

  /** The retry count after `passes` fully rejected passes over `n` controls. */
  function Budget(passes: nat, n: nat): nat {
    if passes == 0 then 0 else Budget(passes - 1, n) + n
  }

  lemma {:induction false} BudgetIsProduct(passes: nat, n: nat)
    ensures Budget(passes, n) == passes * n
  {
    if passes > 0 {
      BudgetIsProduct(passes - 1, n);
    }
  }

  /** A pass fails at least one write for every control of the group that is still pending after it. */
  lemma {:induction false} PassFailsPending(cs: seq<Control>, targets: map<int, int>, accepts: nat -> bool, st: Progress)
    ensures var p := Pass(cs, targets, accepts, st);
      st.retries + |p.todo * Ids(cs)| <= p.retries
    decreases |cs|
  {
    if cs != [] {
      var init := cs[..|cs| - 1];
      var last := cs[|cs| - 1];
      PassFailsPending(init, targets, accepts, st);
      var q := Pass(init, targets, accepts, st);
      var p := Pass(cs, targets, accepts, st);
      assert Ids(cs) == Ids(init) + {last.id};
      if last.id in q.todo && !accepts(|q.log|) {
        assert p.todo * Ids(cs) <= q.todo * Ids(init) + {last.id};
        SubsetCount(p.todo * Ids(cs), q.todo * Ids(init) + {last.id});
      } else {
        assert p.todo * Ids(cs) <= q.todo * Ids(init);
        SubsetCount(p.todo * Ids(cs), q.todo * Ids(init));
      }
    }
  }

  lemma {:induction false} BudgetMono(j: nat, k: nat, n: nat)
    ensures j <= k ==> Budget(j, n) <= Budget(k, n)
    decreases k
  {
    if j < k {
      BudgetMono(j, k - 1, n);
    }
  }

  lemma {:induction false} BudgetMonoSize(k: nat, a: nat, b: nat)
    requires a <= b
    ensures Budget(k, a) <= Budget(k, b)
    decreases k
  {
    if k > 0 {
      BudgetMonoSize(k - 1, a, b);
    }
  }

  /**
   * After `k` passes at least `k` writes failed per pending control, so the
   * loop's guard admits at most ten passes; each pass writes at most once per
   * control.
   */
  lemma {:induction false} ReconcileBudgetFrom(cs: seq<Control>, targets: map<int, int>, accepts: nat -> bool, st: Progress, k: nat, base: nat)
    requires st.todo <= Ids(cs) && k <= 10
    requires Budget(k, |st.todo|) <= st.retries <= Budget(k, |cs|)
    requires |st.log| <= base + Budget(k, |cs|)
    ensures var r := Reconcile(cs, targets, accepts, st);
      r.retries <= Budget(10, |cs|) && |r.log| <= base + Budget(10, |cs|)
    decreases Measure(st)
  {
    if |st.todo| > 0 && st.retries < |st.todo| * 10 {
      var p := Pass(cs, targets, accepts, st);
      PassProgress(cs, targets, accepts, st);
      PassFacts(cs, targets, accepts, st);
      PassFailsPending(cs, targets, accepts, st);
      assert k < 10 by {
        BudgetIsProduct(10, |st.todo|);
        BudgetMono(10, k, |st.todo|);
      }
      assert p.todo * Ids(cs) == p.todo;
      SubsetCount(p.todo, st.todo);
      BudgetMonoSize(k, |p.todo|, |st.todo|);
      IdsCount(cs);
      ReconcileBudgetFrom(cs, targets, accepts, p, k + 1, base);
    } else {
      BudgetMono(k, 10, |cs|);
    }
  }

  /**
   * A group of N controls fails at most 10·N writes and makes at most 10·N
   * write attempts: the guard, checked against the current pending count,
   * stops the loop after ten passes at the latest.
   */
  lemma ReconcileRetriesBound(cs: seq<Control>, targets: map<int, int>, accepts: nat -> bool, log: seq<Write>)
    ensures var r := Reconcile(cs, targets, accepts, Progress(Ids(cs), 0, log));
      r.retries <= 10 * |cs| && |r.log| <= |log| + 10 * |cs|
  {
    ReconcileBudgetFrom(cs, targets, accepts, Progress(Ids(cs), 0, log), 0, |log|);
    BudgetIsProduct(10, |cs|);
  }

  /** When every write fails, one more pass over a fully pending group adds its full batch and one failed write per control. */
  lemma ReconcileRejectedPass(cs: seq<Control>, targets: map<int, int>, accepts: nat -> bool, log: seq<Write>, k: nat)
    requires forall j :: !accepts(j)
    requires |Ids(cs)| == |cs| > 0 && k < 10
    ensures Reconcile(cs, targets, accepts, Progress(Ids(cs), Budget(k, |cs|), log))
            == Reconcile(cs, targets, accepts, Progress(Ids(cs), Budget(k + 1, |cs|), log + TargetWrites(cs, targets)))
  {
    var st := Progress(Ids(cs), Budget(k, |cs|), log);
    assert st.retries < |st.todo| * 10 by {
      BudgetIsProduct(k, |cs|);
      MulFacts(k, |cs|);
    }
    var next := Progress(Ids(cs), Budget(k + 1, |cs|), log + TargetWrites(cs, targets));
    assert Pass(cs, targets, accepts, st) == next by {
      PassAllRejected(cs, targets, accepts, st);
    }
    ReconcileUnfold(cs, targets, accepts, st);
  }

  lemma {:induction false} ReconcileAllRejectedFrom(cs: seq<Control>, targets: map<int, int>, accepts: nat -> bool, log: seq<Write>, k: nat)
    requires forall j :: !accepts(j)
    requires |Ids(cs)| == |cs| > 0 && k <= 10
    ensures Reconcile(cs, targets, accepts, Progress(Ids(cs), Budget(k, |cs|), log))
            == Progress(Ids(cs), Budget(10, |cs|), log + Repeat(TargetWrites(cs, targets), 10 - k))
    decreases 10 - k
  {
    var w := TargetWrites(cs, targets);
    if k < 10 {
      ReconcileRejectedPass(cs, targets, accepts, log, k);
      ReconcileAllRejectedFrom(cs, targets, accepts, log + w, k + 1);
      RepeatOnce(log, w, 9 - k);
    } else {
      BudgetIsProduct(10, |cs|);
      ReconcileAtBudget(cs, targets, accepts, log);
    }
  }

  /** When every write fails, a group of N controls runs exactly ten full passes: 10·N writes, 10·N retries, all N left pending. */
  lemma ReconcileAllRejected(cs: seq<Control>, targets: map<int, int>, accepts: nat -> bool, log: seq<Write>)
    requires forall j :: !accepts(j)
    requires Unique(cs) && |cs| > 0
    ensures Reconcile(cs, targets, accepts, Progress(Ids(cs), 0, log))
            == Progress(Ids(cs), 10 * |cs|, log + Repeat(TargetWrites(cs, targets), 10))
  {
    IdsCount(cs);
    ReconcileAllRejectedFrom(cs, targets, accepts, log, 0);
    BudgetIsProduct(10, |cs|);
  }

  /** When every write succeeds, a group is settled by one pass that writes each control exactly once, in list order. */
  lemma ReconcileAllAccepted(cs: seq<Control>, targets: map<int, int>, accepts: nat -> bool, log: seq<Write>)
    requires forall j :: accepts(j)
    requires Unique(cs)
    ensures Reconcile(cs, targets, accepts, Progress(Ids(cs), 0, log))
            == Progress({}, 0, log + TargetWrites(cs, targets))
  {
    var st := Progress(Ids(cs), 0, log);
    if cs != [] {
      IdsCount(cs);
      PassAllAccepted(cs, targets, accepts, st);
    }
  }

  // ----- Applying a preset -----

  datatype ApplyOutcome = ApplyOutcome(first: Progress, second: Progress)

  /** The menu and boolean group is reconciled first, then the rest, each from "everything pending, no retries". */
  function ApplySpec(controls: seq<Control>, preset: Preset, accepts: nat -> bool, log: seq<Write>): (o: ApplyOutcome)
    ensures log <= o.first.log <= o.second.log
    ensures o.first.todo <= Ids(Group(controls, true)) && o.second.todo <= Ids(Group(controls, false))
    ensures o.first.todo == {} || 10 * |o.first.todo| <= o.first.retries
    ensures o.second.todo == {} || 10 * |o.second.todo| <= o.second.retries
  {
    var targets := Targets(preset.values);
    var a := Group(controls, true);
    var b := Group(controls, false);
    var first := Reconcile(a, targets, accepts, Progress(Ids(a), 0, log));
    ApplyOutcome(first, Reconcile(b, targets, accepts, Progress(Ids(b), 0, first.log)))
  }

  /** Two stretches of writes appended one after the other: the first from ids in `first`, the second from ids in `second`. */
  ghost predicate TwoStretches(log: seq<Write>, l1: seq<Write>, l2: seq<Write>, first: set<int>, second: set<int>, targets: map<int, int>) {
    && log <= l1 <= l2
    && (forall j :: |log| <= j < |l1| ==> l1[j].id in first && l1[j].value == TargetValue(targets, l1[j].id))
    && (forall j :: |l1| <= j < |l2| ==> l2[j].id in second && l2[j].value == TargetValue(targets, l2[j].id))
  }

  /** The writes of both stretches carry their targets, and with disjoint id sets the first set's writes all come first. */
  lemma TwoStretchesJoin(log: seq<Write>, l1: seq<Write>, l2: seq<Write>, first: set<int>, second: set<int>, targets: map<int, int>)
    requires TwoStretches(log, l1, l2, first, second, targets)
    ensures forall j :: |log| <= j < |l2| ==>
              l2[j].id in first + second && l2[j].value == TargetValue(targets, l2[j].id)
    ensures first !! second ==> forall j, k ::
      (|log| <= j < |l2| && |log| <= k < |l2| && l2[j].id in first && l2[k].id in second) ==> j < k
  {
    assert forall j :: |log| <= j < |l1| ==> l2[j] == l1[j];
  }

  /** Applying a preset appends the first group's writes, then the second group's. */
  lemma ApplyStretches(controls: seq<Control>, preset: Preset, accepts: nat -> bool, log: seq<Write>)
    ensures var o := ApplySpec(controls, preset, accepts, log);
      TwoStretches(log, o.first.log, o.second.log, Ids(Group(controls, true)), Ids(Group(controls, false)), Targets(preset.values))
  {
    var o := ApplySpec(controls, preset, accepts, log);
    ReconcileGroupWrites(Group(controls, true), Targets(preset.values), accepts, log);
    ReconcileGroupWrites(Group(controls, false), Targets(preset.values), accepts, o.first.log);
  }

  /** Applying a preset only appends to the device log, group by group, and makes at most ten write attempts per control. */
  lemma ApplyExtendsLog(controls: seq<Control>, preset: Preset, accepts: nat -> bool, log: seq<Write>)
    ensures var o := ApplySpec(controls, preset, accepts, log);
      log <= o.first.log <= o.second.log
      && |o.second.log| <= |log| + 10 * |controls|
  {
    var o := ApplySpec(controls, preset, accepts, log);
    var targets := Targets(preset.values);
    var a, b := Group(controls, true), Group(controls, false);
    ReconcileGroupWrites(a, targets, accepts, log);
    ReconcileGroupWrites(b, targets, accepts, o.first.log);
    GroupsPartition(controls);
    assert |a| + |b| == |controls| by {
      assert |multiset(a) + multiset(b)| == |multiset(controls)|;
    }
  }

  /** Every write made while applying a preset goes to a live control and carries that control's target value. */
  lemma ApplyWritesTargets(controls: seq<Control>, preset: Preset, accepts: nat -> bool, log: seq<Write>)
    ensures var o := ApplySpec(controls, preset, accepts, log);
      |log| <= |o.second.log|
      && forall j :: |log| <= j < |o.second.log| ==>
           o.second.log[j].id in Ids(controls)
           && o.second.log[j].value == TargetValue(Targets(preset.values), o.second.log[j].id)
  {
    var o := ApplySpec(controls, preset, accepts, log);
    ApplyStretches(controls, preset, accepts, log);
    TwoStretchesJoin(log, o.first.log, o.second.log, Ids(Group(controls, true)), Ids(Group(controls, false)), Targets(preset.values));
    GroupIds(controls, true);
    GroupIds(controls, false);
  }

  /** Menu and boolean controls are all written before any other control. */
  lemma ApplyWritesInGroupOrder(controls: seq<Control>, preset: Preset, accepts: nat -> bool, log: seq<Write>)
    requires Unique(controls)
    ensures var o := ApplySpec(controls, preset, accepts, log);
      forall j, k ::
        (|log| <= j < |o.second.log| && |log| <= k < |o.second.log|
         && o.second.log[j].id in Ids(Group(controls, true))
         && o.second.log[k].id in Ids(Group(controls, false))) ==> j < k
  {
    var o := ApplySpec(controls, preset, accepts, log);
    ApplyStretches(controls, preset, accepts, log);
    GroupsDisjoint(controls);
    TwoStretchesJoin(log, o.first.log, o.second.log, Ids(Group(controls, true)), Ids(Group(controls, false)), Targets(preset.values));
  }

  lemma SettledInFirstGroup(controls: seq<Control>, preset: Preset, accepts: nat -> bool, log: seq<Write>, c: Control)
    requires Unique(controls)
    requires c in controls && IsPriority(c)
    requires c.id !in ApplySpec(controls, preset, accepts, log).first.todo
    ensures var o := ApplySpec(controls, preset, accepts, log);
      Settled(o.second.log, accepts, |log|, Write(c.id, TargetValue(Targets(preset.values), c.id)))
  {
    var o := ApplySpec(controls, preset, accepts, log);
    var targets := Targets(preset.values);
    var a := Group(controls, true);
    var b := Group(controls, false);
    var w := Write(c.id, TargetValue(targets, c.id));
    GroupsPartition(controls);
    GroupsDisjoint(controls);
    var i :| 0 <= i < |a| && a[i] == c;
    assert c.id in Ids(a);
    ReconcileGroupSettled(a, targets, accepts, log);
    assert Settled(o.first.log, accepts, |log|, w);
    var j :| |log| <= j && SettledAt(o.first.log, accepts, j, w);
    ReconcileGroupWrites(b, targets, accepts, o.first.log);
    assert c.id !in Ids(b);
    SettledExtends(o.first.log, o.second.log, accepts, j, w);
    assert Settled(o.second.log, accepts, |log|, w);
  }

  lemma SettledInSecondGroup(controls: seq<Control>, preset: Preset, accepts: nat -> bool, log: seq<Write>, c: Control)
    requires c in controls && !IsPriority(c)
    requires c.id !in ApplySpec(controls, preset, accepts, log).second.todo
    ensures var o := ApplySpec(controls, preset, accepts, log);
      Settled(o.second.log, accepts, |log|, Write(c.id, TargetValue(Targets(preset.values), c.id)))
  {
    var o := ApplySpec(controls, preset, accepts, log);
    var targets := Targets(preset.values);
    var a := Group(controls, true);
    var b := Group(controls, false);
    GroupsPartition(controls);
    var i :| 0 <= i < |b| && b[i] == c;
    assert c.id in Ids(b);
    ReconcileGroupWrites(a, targets, accepts, log);
    ReconcileGroupSettled(b, targets, accepts, o.first.log);
    var w := Write(c.id, TargetValue(targets, c.id));
    assert Settled(o.second.log, accepts, |o.first.log|, w);
    var j :| |o.first.log| <= j && SettledAt(o.second.log, accepts, j, w);
    assert Settled(o.second.log, accepts, |log|, w);
  }

  /**
   * For every live control that is not left pending, the last write to it is
   * an accepted write of its preset value (0 for an unlisted control): no
   * write to it follows that accepted one.
   */
  lemma ApplySettles(controls: seq<Control>, preset: Preset, accepts: nat -> bool, log: seq<Write>)
    requires Unique(controls)
    ensures var o := ApplySpec(controls, preset, accepts, log);
      forall c :: c in controls && c.id !in o.first.todo && c.id !in o.second.todo ==>
        Settled(o.second.log, accepts, |log|, Write(c.id, TargetValue(Targets(preset.values), c.id)))
  {
    var o := ApplySpec(controls, preset, accepts, log);
    forall c | c in controls && c.id !in o.first.todo && c.id !in o.second.todo
      ensures Settled(o.second.log, accepts, |log|, Write(c.id, TargetValue(Targets(preset.values), c.id)))
    {
      if IsPriority(c) {
        SettledInFirstGroup(controls, preset, accepts, log, c);
      } else {
        SettledInSecondGroup(controls, preset, accepts, log, c);
      }
    }
  }

  /** When every write succeeds, each live control is written exactly once, the menu and boolean group first, and nothing stays pending. */
  lemma ApplyAllAccepted(controls: seq<Control>, preset: Preset, accepts: nat -> bool, log: seq<Write>)
    requires forall j :: accepts(j)
    requires Unique(controls)
    ensures var o := ApplySpec(controls, preset, accepts, log);
      var targets := Targets(preset.values);
      && o.first == Progress({}, 0, log + TargetWrites(Group(controls, true), targets))
      && o.second == Progress({}, 0, log + TargetWrites(Group(controls, true), targets)
                                         + TargetWrites(Group(controls, false), targets))
  {
    var targets := Targets(preset.values);
    GroupUnique(controls, true);
    GroupUnique(controls, false);
    ReconcileAllAccepted(Group(controls, true), targets, accepts, log);
    ReconcileAllAccepted(Group(controls, false), targets, accepts, log + TargetWrites(Group(controls, true), targets));
  }

  /** Every control of a batch has its target write in the batch. */
  lemma ControlInBatch(cs: seq<Control>, targets: map<int, int>, c: Control)
    requires c in cs
    ensures Write(c.id, TargetValue(targets, c.id)) in TargetWrites(cs, targets)
  {
    var i :| 0 <= i < |cs| && cs[i] == c;
    assert TargetWrites(cs, targets)[i] == Write(c.id, TargetValue(targets, c.id));
  }

  /** Every control, whichever group it falls in, has its target write in the two batches. */
  lemma ControlInBatches(controls: seq<Control>, targets: map<int, int>, c: Control)
    requires c in controls
    ensures Write(c.id, TargetValue(targets, c.id))
            in TargetWrites(Group(controls, true), targets) + TargetWrites(Group(controls, false), targets)
  {
    GroupsPartition(controls);
    if IsPriority(c) {
      ControlInBatch(Group(controls, true), targets, c);
    } else {
      ControlInBatch(Group(controls, false), targets, c);
    }
  }

  /** Dropping a prefix from a log recovers the writes appended after it. */
  lemma SuffixAfter(log: seq<Write>, a: seq<Write>, b: seq<Write>)
    ensures (log + a + b)[|log|..] == a + b
  {
  }

  /** A control the preset does not list has target value 0. */
  lemma UnlistedTargetIsZero(values: seq<PresetValue>, id: int)
    requires forall i :: 0 <= i < |values| ==> values[i].id != id
    ensures TargetValue(Targets(values), id) == 0
  {
  }

  /** A live control the preset does not list is written (when the device accepts writes) the value 0, not left alone. */
  lemma UnlistedControlWrittenZero(controls: seq<Control>, preset: Preset, accepts: nat -> bool, log: seq<Write>, c: Control)
    requires forall j :: accepts(j)
    requires Unique(controls)
    requires c in controls
    requires forall i :: 0 <= i < |preset.values| ==> preset.values[i].id != c.id
    ensures var o := ApplySpec(controls, preset, accepts, log);
      |log| <= |o.second.log| && Write(c.id, 0) in o.second.log[|log|..]
  {
    var targets := Targets(preset.values);
    var wa := TargetWrites(Group(controls, true), targets);
    var wb := TargetWrites(Group(controls, false), targets);
    UnlistedTargetIsZero(preset.values, c.id);
    ControlInBatches(controls, targets, c);
    ApplyAllAccepted(controls, preset, accepts, log);
    SuffixAfter(log, wa, wb);
  }

  /**
   * Restoring a capture later, to whatever controls are live then: every
   * write carries the value some captured control had under that id, or 0
   * for a live control that was not captured.
   */
  lemma ApplyCaptureRestores(captured: seq<Control>, live: seq<Control>, values: seq<PresetValue>, accepts: nat -> bool, log: seq<Write>)
    requires |values| == |captured|
    requires forall i :: 0 <= i < |captured| ==> values[i] == PresetValue(captured[i].id, captured[i].value)
    ensures var o := ApplySpec(live, Preset(values), accepts, log);
      forall j :: |log| <= j < |o.second.log| ==>
        o.second.log[j].id in Ids(live)
        && ((exists i :: 0 <= i < |captured| && o.second.log[j] == Write(captured[i].id, captured[i].value))
            || (o.second.log[j].id !in Ids(captured) && o.second.log[j].value == 0))
  {
    var o := ApplySpec(live, Preset(values), accepts, log);
    var m := Targets(values);
    ApplyWritesTargets(live, Preset(values), accepts, log);
    forall j | |log| <= j < |o.second.log|
      ensures (exists i :: 0 <= i < |captured| && o.second.log[j] == Write(captured[i].id, captured[i].value))
              || (o.second.log[j].id !in Ids(captured) && o.second.log[j].value == 0)
    {
      var id := o.second.log[j].id;
      if id in m {
        var i :| 0 <= i < |values| && values[i] == PresetValue(id, m[id]);
        assert o.second.log[j] == Write(captured[i].id, captured[i].value);
      } else {
        forall i | 0 <= i < |captured|
          ensures captured[i].id != id
        {
          assert values[i].id == captured[i].id;
        }
      }
    }
  }

  /**
   * With unique identifiers on both sides, a live control that is not left
   * pending has as its last write an accepted write of its captured value.
   */
  lemma CaptureSettlesLater(captured: seq<Control>, live: seq<Control>, values: seq<PresetValue>, accepts: nat -> bool, log: seq<Write>)
    requires Unique(captured) && Unique(live)
    requires |values| == |captured|
    requires forall i :: 0 <= i < |captured| ==> values[i] == PresetValue(captured[i].id, captured[i].value)
    ensures var o := ApplySpec(live, Preset(values), accepts, log);
      forall c, i :: c in live && 0 <= i < |captured| && captured[i].id == c.id
                     && c.id !in o.first.todo && c.id !in o.second.todo ==>
        Settled(o.second.log, accepts, |log|, Write(c.id, captured[i].value))
  {
    ApplySettles(live, Preset(values), accepts, log);
    CaptureRoundTrip(captured, values);
  }

  // ----- The reconciler, as the source runs it -----

  /** One pass: each control still pending is written once, in list order. */
  method RunPass(cam: Camera, cs: seq<Control>, targets: map<int, int>, todo0: set<int>, retries0: nat)
    returns (todo: set<int>, retries: nat)
    modifies cam
    ensures Progress(todo, retries, cam.writes)
            == Pass(cs, targets, cam.accepts, Progress(todo0, retries0, old(cam.writes)))
  {
    todo, retries := todo0, retries0;
    for i := 0 to |cs|
      invariant Progress(todo, retries, cam.writes)
                == Pass(cs[..i], targets, cam.accepts, Progress(todo0, retries0, old(cam.writes)))
    {
      var c := cs[i];
      assert cs[..i + 1][..i] == cs[..i];
      if c.id !in todo {
        continue;
      }
      var ok := cam.SetControl(c.id, TargetValue(targets, c.id));
      if !ok {
        retries := retries + 1;
        continue;
      }
      todo := todo - {c.id};
    }
    assert cs[..|cs|] == cs;
  }

  /** One group: everything starts pending, then passes run while something is pending and the retry budget lasts. */
  method ReconcileGroup(cam: Camera, cs: seq<Control>, targets: map<int, int>)
    returns (todo: set<int>, retries: nat)
    modifies cam
    ensures Progress(todo, retries, cam.writes)
            == Reconcile(cs, targets, cam.accepts, Progress(Ids(cs), 0, old(cam.writes)))
  {
    todo := {};
    for i := 0 to |cs|
      invariant todo == Ids(cs[..i])
    {
      assert cs[..i + 1][..i] == cs[..i];
      todo := todo + {cs[i].id};
    }
    assert cs[..|cs|] == cs;
    retries := 0;
    while |todo| > 0 && retries < |todo| * 10
      invariant todo <= Ids(cs)
      invariant Reconcile(cs, targets, cam.accepts, Progress(todo, retries, cam.writes))
                == Reconcile(cs, targets, cam.accepts, Progress(Ids(cs), 0, old(cam.writes)))
      decreases 10 * |todo| - retries
    {
      ghost var st := Progress(todo, retries, cam.writes);
      PassProgress(cs, targets, cam.accepts, st);
      todo, retries := RunPass(cam, cs, targets, todo, retries);
    }
  }

  /**
   * Applies a preset to the live controls. The source returns no error ever;
   * the model returns, for diagnosis, each group's final pending set and
   * retry counter.
   */
  method ApplyPreset(cam: Camera, controls: seq<Control>, preset: Preset)
    returns (firstPending: set<int>, firstRetries: nat, secondPending: set<int>, secondRetries: nat)
    modifies cam
    ensures var o := ApplySpec(controls, preset, cam.accepts, old(cam.writes));
      && cam.writes == o.second.log
      && firstPending == o.first.todo && firstRetries == o.first.retries
      && secondPending == o.second.todo && secondRetries == o.second.retries
  {
    var targets: map<int, int> := map[];
    for i := 0 to |preset.values|
      invariant targets == Targets(preset.values[..i])
    {
      assert preset.values[..i + 1][..i] == preset.values[..i];
      targets := targets[preset.values[i].id := preset.values[i].value];
    }
    assert preset.values[..|preset.values|] == preset.values;

    var priority: seq<Control> := [];
    var others: seq<Control> := [];
    for i := 0 to |controls|
      invariant priority == Group(controls[..i], true)
      invariant others == Group(controls[..i], false)
    {
      assert controls[..i + 1][..i] == controls[..i];
      var c := controls[i];
      if c.kind == MenuKind || c.kind == BooleanKind {
        priority := priority + [c];
      } else {
        others := others + [c];
      }
    }
    assert controls[..|controls|] == controls;

    firstPending, firstRetries := ReconcileGroup(cam, priority, targets);
    secondPending, secondRetries := ReconcileGroup(cam, others, targets);
  }
}
