/** Runs of the autoscaler: its bounds in every environment, its convergence in a quiet one,
    and the spacing of its disables whatever it reads. */
module AutoscalerRuns {
  import opened Common
  import opened Autoscaler

  /** The pool, and the history a run is judged by. */
  datatype System = System(pool: Pool, last: Option<int>, created: nat, disabled: nat, changes: nat)

  predicate Reconciles(spec: Spec, s: System, pendingLeases: int, a: Annotation, c: Readings, action: Action, name: string, s': System) {
    && Acts(spec, s.pool, pendingLeases, s.last, a, c, action)
    && s'.pool == Applied(s.pool, action, name)
    && s'.last == (if action.DisabledOne? then Some(c.action) else s.last)
    && s'.created == s.created + (if action.Created? then 1 else 0)
    && s'.disabled == s.disabled + (if action.DisabledOne? then 1 else 0)
    && s'.changes == s.changes + (if action.NoChange? then 0 else 1)
  }

  // ---------------------------------------------------------------- any environment

  /** Leases, connections, pods, enabled flags and the listing order change at will; instances
      come and go only by the controller. */
  predicate Disturbed(s: System, s': System) {
    && s' == s.(pool := s'.pool) && |s'.pool| == |s.pool|
  }

  ghost predicate AnyStep(spec: Spec, s: System, s': System) {
    || (exists pending, a, c, action, name :: Reconciles(spec, s, pending, a, c, action, name, s'))
    || Disturbed(s, s')
  }

  ghost predicate AnyRun(spec: Spec, states: seq<System>) {
    states != [] && forall i :: 0 <= i < |states| - 1 ==> AnyStep(spec, states[i], states[i + 1])
  }

  lemma ActsWithinMax(spec: Spec, s: System, pending: int, a: Annotation, c: Readings, action: Action, name: string, s': System)
    requires Reconciles(spec, s, pending, a, c, action, name, s') && spec.maxReplicas > 0 && |s.pool| <= spec.maxReplicas
    ensures |s'.pool| <= spec.maxReplicas
  {
    if action.Deleted? {
      SelectIsShorter(s.pool, NotDrained);
      SelectIsShorter(s.pool, NotFinished);
    }
  }

  lemma SelectIsShorter(pool: Pool, keep: Instance -> bool)
    ensures |Select(pool, keep)| <= |pool|
  {
    CountSelect(pool, keep, keep);
    CountImplied(pool, keep, keep);
  }

  /** Over every run, in every environment: a pool within its maximum never exceeds it. */
  lemma {:induction false} NeverAboveMax(spec: Spec, states: seq<System>, i: nat)
    requires AnyRun(spec, states) && i < |states| && spec.maxReplicas > 0 && |states[0].pool| <= spec.maxReplicas
    ensures |states[i].pool| <= spec.maxReplicas
  {
    if i > 0 {
      NeverAboveMax(spec, states, i - 1);
      assert AnyStep(spec, states[i - 1], states[i - 1 + 1]);
      var s, s' := states[i - 1], states[i];
      if !Disturbed(s, s') {
        var pending, a, c, action, name :| Reconciles(spec, s, pending, a, c, action, name, s');
        ActsWithinMax(spec, s, pending, a, c, action, name, s');
      }
    }
  }

  /** No reconciliation deletes, disables or otherwise touches a leased instance. */
  lemma LeasedAreUntouched(spec: Spec, s: System, pending: int, a: Annotation, c: Readings, action: Action, name: string, s': System)
    requires Reconciles(spec, s, pending, a, c, action, name, s')
    ensures Select(s'.pool, IsLeased) == Select(s.pool, IsLeased)
  {
    match action
    case Deleted(rest) =>
      SelectSelect(s.pool, NotDrained, IsLeased);
      SelectSelect(s.pool, NotFinished, IsLeased);
    case Created => SelectConcat(s.pool, [NewInstance(name)], IsLeased);
    case DisabledOne(i) => SelectUpdate(s.pool, i, s'.pool[i]);
    case NoChange =>
  }

  lemma SelectUpdate(pool: Pool, i: nat, x: Instance)
    requires i < |pool| && !pool[i].leased && !x.leased
    ensures Select(pool[i := x], IsLeased) == Select(pool, IsLeased)
  {
    assert pool == pool[..i] + [pool[i]] + pool[i + 1..];
    assert pool[i := x] == pool[..i] + [x] + pool[i + 1..];
    SelectConcat(pool[..i] + [pool[i]], pool[i + 1..], IsLeased);
    SelectConcat(pool[..i] + [x], pool[i + 1..], IsLeased);
    SelectConcat(pool[..i], [pool[i]], IsLeased);
    SelectConcat(pool[..i], [x], IsLeased);
  }

  /** A new instance counts as a replica at once but is not available before it comes online. */
  lemma CreationAdds(spec: Spec, s: System, pending: int, a: Annotation, c: Readings, name: string, s': System)
    requires Reconciles(spec, s, pending, a, c, Created, name, s')
    ensures |s'.pool| == |s.pool| + 1 && s'.pool[..|s.pool|] == s.pool && s'.pool[|s.pool|].name == name
    ensures AvailableNow(s'.pool) == AvailableNow(s.pool) && Unleased(s'.pool) == Unleased(s.pool) + 1
    ensures IsAvailable(s'.pool[|s.pool|].(online := true)) && s'.pool[|s.pool|].pods == []
  {
    var x := NewInstance(name);
    CountAppend(s.pool, x, (y: Instance) => y.online && y.enabled && !y.leased);
    CountAppend(s.pool, x, (y: Instance) => !y.leased);
  }

  // ---------------------------------------------------------------- demand

  /** While a lease is pending, nothing is available and there is room, a reconciliation that deletes
      nothing creates. */
  lemma DemandCreates(spec: Spec, s: System, pending: int, a: Annotation, c: Readings, action: Action, name: string, s': System)
    requires Reconciles(spec, s, pending, a, c, action, name, s')
    requires pending > 0 && AvailableNow(s.pool) == 0 && (spec.maxReplicas == 0 || |s.pool| < spec.maxReplicas)
    ensures action.Deleted? || action.Created?
  {
    ActionIff(spec, s.pool, pending, s.last, a, c, action);
    hide Acts, AvailableNow, Unleased;
  }

  ghost predicate DemandStep(spec: Spec, s: System, s': System) {
    exists pending, a, c, action, name :: pending > 0 && Reconciles(spec, s, pending, a, c, action, name, s')
  }

  /** Nothing is available and there is room. */
  predicate Starved(spec: Spec, pool: Pool) { AvailableNow(pool) == 0 && (spec.maxReplicas == 0 || |pool| < spec.maxReplicas) }

  /** How many deletions can come before a creation: of the drained, then of the finished. */
  function DeletionsLeft(spec: Spec, pool: Pool): int {
    if Count(pool, Drained) > 0 then 2 else if !spec.inPlaceReuse && Count(pool, Finished) > 0 then 1 else 0
  }

  lemma DemandStepPays(spec: Spec, s: System, s': System)
    requires DemandStep(spec, s, s') && Starved(spec, s.pool)
    ensures s'.created == s.created + 1
            || (s'.created == s.created && Starved(spec, s'.pool) && DeletionsLeft(spec, s'.pool) < DeletionsLeft(spec, s.pool))
  {
    var pending, a, c, action, name :| pending > 0 && Reconciles(spec, s, pending, a, c, action, name, s');
    DemandCreates(spec, s, pending, a, c, action, name, s');
    if action.Deleted? { DeletionStarves(spec, s, pending, a, c, action, name, s'); }
  }

  lemma DeletionStarves(spec: Spec, s: System, pending: int, a: Annotation, c: Readings, action: Action, name: string, s': System)
    requires Reconciles(spec, s, pending, a, c, action, name, s') && action.Deleted? && Starved(spec, s.pool)
    ensures Starved(spec, s'.pool) && DeletionsLeft(spec, s'.pool) < DeletionsLeft(spec, s.pool)
  {
    var keep := if Count(s.pool, Drained) > 0 then NotDrained else NotFinished;
    assert s'.pool == Select(s.pool, keep);
    SelectIsShorter(s.pool, keep);
    CountSelect(s.pool, keep, keep);
    StateIsCounts(s.pool);
    StateIsCounts(s'.pool);
    CountZero(s.pool, IsAvailable);
    CountZero(s'.pool, IsAvailable);
    CountZero(s.pool, Drained);
    CountZero(s'.pool, Drained);
    CountZero(s'.pool, Finished);
  }

  /** Demand is met: of three reconciliations in a row, with a lease pending at each, nothing
      available and room at the first, one creates. */
  lemma DemandIsMet(spec: Spec, s0: System, s1: System, s2: System, s3: System)
    requires DemandStep(spec, s0, s1) && DemandStep(spec, s1, s2) && DemandStep(spec, s2, s3) && Starved(spec, s0.pool)
    ensures s3.created > s0.created
  {
    hide Starved, DemandStep;
    DemandStepPays(spec, s0, s1);
    CreatedGrows(spec, s1, s2);
    CreatedGrows(spec, s2, s3);
    if s1.created == s0.created {
      DemandStepPays(spec, s1, s2);
      if s2.created == s1.created { DemandStepPays(spec, s2, s3); }
    }
  }

  lemma CreatedGrows(spec: Spec, s: System, s': System)
    requires DemandStep(spec, s, s')
    ensures s'.created >= s.created
  {
  }

  // ---------------------------------------------------------------- a quiet environment

  /** About to be deleted: drained, or finished where finished instances are replaced. */
  predicate IsDoomed(spec: Spec, x: Instance) { Drained(x) || (!spec.inPlaceReuse && Finished(x)) }

  function Doomed(spec: Spec): Instance -> bool { (x: Instance) => IsDoomed(spec, x) }

  function Staying(spec: Spec): Instance -> bool { (x: Instance) => !IsDoomed(spec, x) }

  lemma StayingFacts(spec: Spec)
    ensures forall x :: IsLeased(x) ==> Staying(spec)(x)
    ensures forall x :: Staying(spec)(x) ==> NotDrained(x)
    ensures !spec.inPlaceReuse ==> forall x :: Staying(spec)(x) ==> NotFinished(x)
  {
    forall x ensures IsLeased(x) ==> Staying(spec)(x) { assert Staying(spec)(x) == !IsDoomed(spec, x); }
    forall x ensures Staying(spec)(x) ==> NotDrained(x) { assert Staying(spec)(x) == !IsDoomed(spec, x); }
  }

  function Kept(spec: Spec, pool: Pool): int { Count(pool, Staying(spec)) }

  function Leased(pool: Pool): int { Count(pool, IsLeased) }

  function Max(a: int, b: int): int { if a < b then b else a }

  /** How many instances are missing, once what is about to be deleted is gone. */
  function Deficit(spec: Spec, pool: Pool): int {
    Max(0, Max(spec.minReplicas - Kept(spec, pool), spec.minAvailable - (Kept(spec, pool) - Leased(pool))))
  }

  function Measure(spec: Spec, pool: Pool): int {
    3 * Deficit(spec, pool) + 2 * (Kept(spec, pool) - Leased(pool)) + Count(pool, Doomed(spec))
  }

  /** Leases are fixed and instances only come online. Pods are created and change phase at will,
      except that none finishes, or stops being finished, where finished instances are replaced. */
  predicate ComesOnline(spec: Spec, x: Instance, x': Instance) {
    && x' == x.(online := x.online || x'.online, pods := x'.pods)
    && (spec.inPlaceReuse || Finished(x') == Finished(x))
  }

  predicate PoolComesOnline(spec: Spec, pool: Pool, pool': Pool) {
    |pool'| == |pool| && forall i :: 0 <= i < |pool| ==> ComesOnline(spec, pool[i], pool'[i])
  }

  /** Instances come online, or the next listing has them in another order. */
  predicate QuietlyDisturbed(spec: Spec, s: System, s': System) {
    s' == s.(pool := s'.pool) && (PoolComesOnline(spec, s.pool, s'.pool) || multiset(s'.pool) == multiset(s.pool))
  }

  ghost predicate QuietStep(spec: Spec, s: System, s': System) {
    || (exists a, c, action, name :: Reconciles(spec, s, 0, a, c, action, name, s'))
    || QuietlyDisturbed(spec, s, s')
  }

  ghost predicate QuietRun(spec: Spec, states: seq<System>) {
    states != [] && forall i :: 0 <= i < |states| - 1 ==> QuietStep(spec, states[i], states[i + 1])
  }

  lemma MeasureIsBounded(spec: Spec, pool: Pool)
    ensures Measure(spec, pool) >= 0 && Leased(pool) <= Kept(spec, pool)
    ensures Kept(spec, pool) + Count(pool, Doomed(spec)) == |pool|
  {
    StayingFacts(spec);
    CountImplied(pool, IsLeased, Staying(spec));
    CountComplement(pool, Doomed(spec), Staying(spec));
  }

  lemma DeletionKeepsDeficit(spec: Spec, pool: Pool, keep: Instance -> bool)
    requires forall x :: Staying(spec)(x) ==> keep(x)
    requires exists x :: x in pool && !keep(x)
    ensures var rest := Select(pool, keep);
            Deficit(spec, rest) == Deficit(spec, pool) && Measure(spec, rest) < Measure(spec, pool)
  {
    var rest := Select(pool, keep);
    CountSelect(pool, keep, Staying(spec));
    StayingFacts(spec);
    CountSelect(pool, keep, IsLeased);
    MeasureIsBounded(spec, pool);
    MeasureIsBounded(spec, rest);
    var gone: Instance -> bool := x => !keep(x);
    CountZero(pool, gone);
    CountComplement(pool, keep, gone);
  }

  lemma CreationPaysDeficit(spec: Spec, pool: Pool, name: string)
    requires Deficit(spec, pool) > 0
    ensures var more := pool + [NewInstance(name)];
            Deficit(spec, more) == Deficit(spec, pool) - 1 && Measure(spec, more) < Measure(spec, pool)
  {
    var x := NewInstance(name);
    CountAppend(pool, x, Staying(spec));
    CountAppend(pool, x, IsLeased);
    CountAppend(pool, x, Doomed(spec));
  }

  lemma DisableKeepsDeficit(spec: Spec, pool: Pool, i: nat)
    requires HasSurplus(spec, StateOf(pool)) && IsCandidate(pool, i) && Count(pool, Doomed(spec)) == 0
    ensures Deficit(spec, pool) == 0 && Deficit(spec, Disabled(pool, i)) == 0
    ensures Measure(spec, Disabled(pool, i)) < Measure(spec, pool)
  {
    var x := pool[i].(enabled := false);
    MeasureIsBounded(spec, pool);
    CandidateIsAvailable(spec, pool, i);
    CountZero(pool, Doomed(spec));
    assert pool[i] in pool && !Doomed(spec)(pool[i]);
    CountUpdate(pool, i, x, Staying(spec));
    CountUpdate(pool, i, x, IsLeased);
    CountUpdate(pool, i, x, Doomed(spec));
    FreeCoversAvailable(pool);
  }

  lemma FreeCoversAvailable(pool: Pool)
    ensures Count(pool, IsAvailable) + Count(pool, IsLeased) <= |pool|
  {
    CountImplied(pool, IsAvailable, IsFree);
    CountComplement(pool, IsLeased, IsFree);
  }

  /** No instance is left to delete when the scaling rules are looked at. */
  lemma NoneDoomed(spec: Spec, pool: Pool)
    requires Count(pool, Drained) == 0 && (spec.inPlaceReuse || Count(pool, Finished) == 0)
    ensures Count(pool, Doomed(spec)) == 0 && Kept(spec, pool) == |pool|
  {
    CountZero(pool, Drained);
    CountZero(pool, Finished);
    CountZero(pool, Doomed(spec));
    MeasureIsBounded(spec, pool);
  }

  /** One reconciliation: whatever it changes, it pays for out of the measure, it creates only
      against a deficit, and it disables only without one. */
  lemma ReconcilePays(spec: Spec, s: System, a: Annotation, c: Readings, action: Action, name: string, s': System)
    requires Reconciles(spec, s, 0, a, c, action, name, s')
    ensures !action.NoChange? ==> Measure(spec, s'.pool) < Measure(spec, s.pool)
    ensures Deficit(spec, s'.pool) == Deficit(spec, s.pool) - (if action.Created? then 1 else 0)
    ensures action.Created? ==> Deficit(spec, s.pool) > 0
    ensures action.DisabledOne? ==> Deficit(spec, s.pool) == 0
  {
    StayingFacts(spec);
    if Count(s.pool, Drained) > 0 {
      CountZero(s.pool, Drained);
      var x :| x in s.pool && Drained(x);
      assert !NotDrained(x);
      DeletionKeepsDeficit(spec, s.pool, NotDrained);
    } else if !spec.inPlaceReuse && Count(s.pool, Finished) > 0 {
      CountZero(s.pool, Finished);
      var x :| x in s.pool && Finished(x);
      assert !NotFinished(x);
      DeletionKeepsDeficit(spec, s.pool, NotFinished);
    } else {
      NoneDoomed(spec, s.pool);
      match action
      case Created => CreationPaysDeficit(spec, s.pool, name);
      case DisabledOne(i) => DisableKeepsDeficit(spec, s.pool, i);
      case NoChange =>
    }
  }

  /** A count does not depend on the order. */
  lemma {:induction false} CountPermuted(pool: Pool, pool': Pool, p: Instance -> bool)
    requires multiset(pool') == multiset(pool)
    ensures Count(pool', p) == Count(pool, p) && |pool'| == |pool|
  {
    if pool == [] {
      assert |pool'| == |multiset(pool')|;
    } else {
      var a, b := TakeOut(pool, pool');
      CountPermuted(pool[1..], a + b, p);
      CountConcat(a + [pool[0]], b, p);
      CountAppend(a, pool[0], p);
      CountConcat(a, b, p);
    }
  }

  /** Where the first instance of one order stands in the other. */
  lemma TakeOut(pool: Pool, pool': Pool) returns (a: Pool, b: Pool)
    requires pool != [] && multiset(pool') == multiset(pool)
    ensures pool' == a + [pool[0]] + b && multiset(a + b) == multiset(pool[1..])
  {
    FirstOut(pool);
    var i := IndexOf(pool', pool[0]);
    a, b := SplitAt(pool', i);
  }

  lemma FirstOut(pool: Pool)
    requires pool != []
    ensures multiset(pool[1..]) == multiset(pool) - multiset{pool[0]} && pool[0] in multiset(pool)
  {
    assert pool == [pool[0]] + pool[1..];
  }

  lemma IndexOf(pool: Pool, x: Instance) returns (i: nat)
    requires x in multiset(pool)
    ensures i < |pool| && pool[i] == x
  {
    i :| 0 <= i < |pool| && pool[i] == x;
  }

  lemma SplitAt(pool: Pool, i: nat) returns (a: Pool, b: Pool)
    requires i < |pool|
    ensures pool == a + [pool[i]] + b && multiset(a + b) == multiset(pool) - multiset{pool[i]}
  {
    a, b := pool[..i], pool[i + 1..];
    assert pool == a + [pool[i]] + b;
  }

  lemma OnlineKeepsCounts(spec: Spec, pool: Pool, pool': Pool)
    requires PoolComesOnline(spec, pool, pool')
    ensures Kept(spec, pool') == Kept(spec, pool) && Leased(pool') == Leased(pool)
    ensures Count(pool', Doomed(spec)) == Count(pool, Doomed(spec))
  {
    forall i | 0 <= i < |pool|
      ensures Doomed(spec)(pool[i]) == Doomed(spec)(pool'[i]) && pool[i].leased == pool'[i].leased
    {
      assert ComesOnline(spec, pool[i], pool'[i]);
    }
    CountSame(pool, pool', Staying(spec));
    CountSame(pool, pool', Doomed(spec));
    CountSame(pool, pool', IsLeased);
  }

  lemma QuietKeepsMeasure(spec: Spec, s: System, s': System)
    requires QuietlyDisturbed(spec, s, s')
    ensures Measure(spec, s'.pool) == Measure(spec, s.pool) && Deficit(spec, s'.pool) == Deficit(spec, s.pool)
  {
    if PoolComesOnline(spec, s.pool, s'.pool) {
      OnlineKeepsCounts(spec, s.pool, s'.pool);
    } else {
      CountPermuted(s.pool, s'.pool, Staying(spec));
      CountPermuted(s.pool, s'.pool, Doomed(spec));
      CountPermuted(s.pool, s'.pool, IsLeased);
    }
  }

  /** What every quiet step keeps between two states of a run. */
  predicate Paid(spec: Spec, s: System, s': System) {
    && s'.created - s.created == Deficit(spec, s.pool) - Deficit(spec, s'.pool)
    && s'.created >= s.created && s'.disabled >= s.disabled && s'.changes >= s.changes
    && s'.changes - s.changes <= Measure(spec, s.pool) - Measure(spec, s'.pool)
    && (s'.disabled > s.disabled ==> Deficit(spec, s'.pool) == 0)
  }

  lemma QuietStepPays(spec: Spec, s: System, s': System)
    requires QuietStep(spec, s, s')
    ensures Paid(spec, s, s')
  {
    if QuietlyDisturbed(spec, s, s') {
      QuietKeepsMeasure(spec, s, s');
    } else {
      var a, c, action, name :| Reconciles(spec, s, 0, a, c, action, name, s');
      ReconcilePays(spec, s, a, c, action, name, s');
    }
  }

  lemma {:induction false} QuietRunPays(spec: Spec, states: seq<System>, i: nat, j: nat)
    requires QuietRun(spec, states) && i <= j < |states|
    ensures Paid(spec, states[i], states[j])
    decreases j
  {
    hide Deficit, Measure, QuietStep;
    if i < j {
      QuietRunPays(spec, states, i, j - 1);
      assert QuietStep(spec, states[j - 1], states[j - 1 + 1]);
      QuietStepPays(spec, states[j - 1], states[j]);
      DeficitIsNatural(spec, states[j].pool);
    }
  }

  lemma DeficitIsNatural(spec: Spec, pool: Pool)
    ensures Deficit(spec, pool) >= 0
  {
  }

  /** In every quiet run at most the initial deficit is ever created. */
  lemma CreationsBounded(spec: Spec, states: seq<System>, j: nat)
    requires QuietRun(spec, states) && j < |states|
    ensures states[j].created - states[0].created <= Deficit(spec, states[0].pool)
  {
    QuietRunPays(spec, states, 0, j);
    DeficitIsNatural(spec, states[j].pool);
  }

  /** ... and without a maximum, exactly that has been created once the pool has settled. */
  lemma DeficitIsCreated(spec: Spec, states: seq<System>, j: nat)
    requires QuietRun(spec, states) && j < |states| && spec.maxReplicas == 0 && Settled(spec, states[j].pool)
    ensures states[j].created - states[0].created == Deficit(spec, states[0].pool)
  {
    QuietRunPays(spec, states, 0, j);
    MeasureIsBounded(spec, states[j].pool);
    FreeCoversAvailable(states[j].pool);
  }

  /** With nothing about to be deleted, the deficit is read off the two counts. */
  lemma DeficitOfCounts(spec: Spec, pool: Pool)
    requires Count(pool, Doomed(spec)) == 0
    ensures Deficit(spec, pool) == Max(0, Max(spec.minReplicas - |pool|, spec.minAvailable - (|pool| - Leased(pool))))
  {
    MeasureIsBounded(spec, pool);
  }

  /** Counting instances about to be deleted would be wrong: a pool at its minimum made of one
      drained instance is emptied and then refilled. */
  lemma DrainedIsReplaced(name: string, a: Annotation, c: Readings)
    ensures var spec, drained := Spec(1, 0, 0, 0, false), Instance(name, false, false, false, []);
            exists states: seq<System> :: QuietRun(spec, states) && states[0].pool == [drained] && states[|states| - 1].created > states[0].created
  {
    var spec, drained := Spec(1, 0, 0, 0, false), Instance(name, false, false, false, []);
    var s0 := System([drained], None, 0, 0, 0);
    var s1 := System([], None, 0, 0, 1);
    var s2 := System([NewInstance(name)], None, 1, 0, 2);
    assert [drained][1..] == [] && Drained(drained) && !NotDrained(drained);
    assert Count([drained], Drained) == 1 + Count([], Drained);
    assert Select([drained], NotDrained) == [] + Select([], NotDrained);
    assert Reconciles(spec, s0, 0, a, c, Deleted([]), name, s1);
    assert [] + [NewInstance(name)] == [NewInstance(name)];
    assert Reconciles(spec, s1, 0, a, c, Created, name, s2);
    var states := [s0, s1, s2];
    assert QuietStep(spec, states[0], states[1]) && QuietStep(spec, states[1], states[2]);
    assert QuietRun(spec, states);
  }

  /** In every quiet run nothing is created after something was disabled. */
  lemma NoScaleUpAfterScaleDown(spec: Spec, states: seq<System>, i: nat, j: nat)
    requires QuietRun(spec, states) && i <= j < |states| && states[i].disabled > states[0].disabled
    ensures states[j].created == states[i].created
  {
    QuietRunPays(spec, states, 0, i);
    QuietRunPays(spec, states, i, j);
    DeficitIsNatural(spec, states[j].pool);
  }

  /** In every quiet run, however long, the pool changes at most as often as the measure of the
      first pool says. */
  lemma ChangesBounded(spec: Spec, states: seq<System>, j: nat)
    requires QuietRun(spec, states) && j < |states|
    ensures states[j].changes - states[0].changes <= Measure(spec, states[0].pool)
  {
    QuietRunPays(spec, states, 0, j);
    MeasureIsBounded(spec, states[j].pool);
  }

  /** Nothing to delete, no rule to create, no surplus to disable. */
  predicate Settled(spec: Spec, pool: Pool) {
    && Count(pool, Doomed(spec)) == 0
    && !ScalesUp(spec, StateOf(pool), 0)
    && !HasSurplus(spec, StateOf(pool))
  }

  /** In counts: nothing to delete, no room or no rule that wants more, and not too many. */
  lemma SettledIff(spec: Spec, pool: Pool)
    ensures Settled(spec, pool) <==>
            NothingToDelete(spec, pool) && !(HasRoom(spec, pool) && WantsMore(spec, pool, 0)) && !HasTooMany(spec, pool)
  {
    DeletionIs(spec, pool);
    ScalesUpIs(spec, pool, 0);
    StateIsCounts(pool);
    CountZero(pool, Doomed(spec));
    CountZero(pool, Drained);
    CountZero(pool, Finished);
    hide ScalesUp, NothingToDelete, WantsMore, AvailableNow, Unleased, StateOf, Count;
  }

  predicate Ripe(spec: Spec, last: Option<int>, a: Annotation, c: Readings) {
    GuardOpen(spec, last, c.guard) && CooldownElapsed(spec, a, c.surplus)
  }

  /** A settled pool is a fixpoint whatever the memory, the annotation and the clock; and any
      other pool is changed by a reconciliation after the cooldown has run out. */
  lemma SettledIsFixpoint(spec: Spec, s: System, a: Annotation, c: Readings, action: Action, name: string, s': System)
    requires Reconciles(spec, s, 0, a, c, action, name, s')
    ensures Settled(spec, s.pool) ==> action.NoChange? && s' == s
    ensures !Settled(spec, s.pool) && Ripe(spec, s.last, a, c) ==> !action.NoChange?
  {
    CountZero(s.pool, Drained);
    CountZero(s.pool, Finished);
    CountZero(s.pool, Doomed(spec));
    if Count(s.pool, Doomed(spec)) > 0 {
      var x :| x in s.pool && Doomed(spec)(x);
      assert Drained(x) || Finished(x);
    }
  }

  // ---------------------------------------------------------------- the cooldown

  /** The reconciler's memory of one set and the instants at which it disabled an instance. */
  datatype Memory = Memory(last: Option<int>, disables: seq<int>, clock: int)

  /** One reconciliation that reads any listing and any annotation, however stale. The update
      that disables happens between the guard's clock reading and the one it remembers. */
  predicate Reads(spec: Spec, m: Memory, pool: Pool, pending: int, a: Annotation, c: Readings, action: Action, at: int, m': Memory) {
    && Monotone(c) && m.clock <= c.guard <= at <= c.action
    && Acts(spec, pool, pending, m.last, a, c, action)
    && m' == if action.DisabledOne? then Memory(Some(c.action), m.disables + [at], c.stamp) else m.(clock := c.stamp)
  }

  ghost predicate ReadStep(spec: Spec, m: Memory, m': Memory) {
    exists pool, pending, a, c, action, at :: Reads(spec, m, pool, pending, a, c, action, at, m')
  }

  ghost predicate ReadRun(spec: Spec, states: seq<Memory>) {
    && states != [] && states[0].last.None? && states[0].disables == []
    && forall i :: 0 <= i < |states| - 1 ==> ReadStep(spec, states[i], states[i + 1])
  }

  ghost predicate Spaced(spec: Spec, m: Memory) {
    && (m.last.None? <==> m.disables == [])
    && (m.last.Some? ==> m.disables[|m.disables| - 1] <= m.last.value <= m.clock)
    && (forall i :: 0 <= i < |m.disables| ==> m.disables[i] <= m.clock)
    && forall i, j :: 0 <= i < j < |m.disables| ==> m.disables[j] - m.disables[i] >= spec.cooldown
  }

  lemma ReadKeepsSpacing(spec: Spec, m: Memory, m': Memory)
    requires Spaced(spec, m) && ReadStep(spec, m, m')
    ensures Spaced(spec, m')
  {
    var pool, pending, a, c, action, at :| Reads(spec, m, pool, pending, a, c, action, at, m');
    if action.DisabledOne? && m.last.Some? {
      var n := |m.disables| - 1;
      assert GuardOpen(spec, m.last, c.guard);
      assert at - m.disables[n] >= spec.cooldown;
      forall i | 0 <= i <= n ensures at - m.disables[i] >= spec.cooldown {
        if i < n && spec.cooldown >= 0 { assert m.disables[n] - m.disables[i] >= spec.cooldown; }
      }
    }
  }

  /** In every run of one process any two disables are a cooldown apart, no matter how stale
      the listings and annotations it reads. */
  lemma {:induction false} DisablesAreSpaced(spec: Spec, states: seq<Memory>, k: nat)
    requires ReadRun(spec, states) && k < |states|
    ensures Spaced(spec, states[k])
  {
    if k > 0 {
      DisablesAreSpaced(spec, states, k - 1);
      assert ReadStep(spec, states[k - 1], states[k - 1 + 1]);
      ReadKeepsSpacing(spec, states[k - 1], states[k]);
    }
  }
}
