/** The autoscaler settles: with leases fixed and none pending, all but a bounded number of
    reconciliations that wait for the timers they were given find a pool with nothing to do. The
    annotation, the memory of the last disable and the timers are those the reconciler writes. */
module AutoscalerSettles {
  import opened Common
  import opened LeaseTimes
  import opened Autoscaler
  import opened AutoscalerRuns

  /** `due` is the latest time a returned timer asked to wait for. `timely` counts the
      reconciliations that waited, `unsettled` those of them that found something to do. */
  datatype Timed = Timed(
    pool: Pool, last: Option<int>, annotation: Annotation, due: int, clock: int, timely: nat, unsettled: nat)

  /** One reconciliation that reads the clock at `c` and returns at `returned`. */
  predicate Reconciled(spec: Spec, s: Timed, c: Readings, action: Action, name: string, waiting: bool, returned: int, s': Timed) {
    && Monotone(c) && s.clock <= c.guard && c.stamp <= returned
    && Acts(spec, s.pool, 0, s.last, s.annotation, c, action)
    && var waited := c.guard >= s.due;
       s' == Timed(
         Applied(s.pool, action, name),
         if action.DisabledOne? then Some(c.action) else s.last,
         NewAnnotation(spec, s.pool, s.last, s.annotation, c, action),
         Max(s.due, returned + NewTimer(spec, s.pool, s.last, s.annotation, c, action, waiting)),
         returned,
         s.timely + (if waited then 1 else 0),
         s.unsettled + (if waited && !Settled(spec, s.pool) then 1 else 0))
  }

  predicate CameOnline(spec: Spec, s: Timed, s': Timed) {
    s' == s.(pool := s'.pool) && PoolComesOnline(spec, s.pool, s'.pool)
  }

  predicate Reordered(s: Timed, s': Timed) {
    s' == s.(pool := s'.pool) && multiset(s'.pool) == multiset(s.pool)
  }

  ghost predicate TimedStep(spec: Spec, s: Timed, s': Timed) {
    || (exists c, action, name, waiting, returned :: Reconciled(spec, s, c, action, name, waiting, returned, s'))
    || CameOnline(spec, s, s')
    || Reordered(s, s')
  }

  /** What was remembered was remembered before now. */
  predicate Remembered(s: Timed) {
    && (s.last.Some? ==> s.last.value <= s.clock)
    && (s.annotation.SurplusSince? ==> s.annotation.at <= s.clock)
  }

  ghost predicate TimedRun(spec: Spec, states: seq<Timed>) {
    && states != [] && Remembered(states[0]) && spec.cooldown <= MAX_DURATION
    && forall i :: 0 <= i < |states| - 1 ==> TimedStep(spec, states[i], states[i + 1])
  }

  // ---------------------------------------------------------------- the potential

  predicate IsOffline(x: Instance) { !x.online }

  /** How many more timers have to run out before a surplus instance is disabled. */
  function Waits(spec: Spec, s: Timed): int {
    (if GuardOpen(spec, s.last, s.due) then 0 else 1)
    + (if !s.annotation.SurplusSince? then 2 else if CooldownElapsed(spec, s.annotation, s.due) then 0 else 1)
  }

  function Potential(spec: Spec, s: Timed): int {
    8 * Measure(spec, s.pool) + 4 * Count(s.pool, IsOffline) + (if Settled(spec, s.pool) then 3 else Waits(spec, s))
  }

  lemma PotentialIsNatural(spec: Spec, s: Timed)
    ensures Potential(spec, s) >= 0
  {
    hide Measure, Settled;
    MeasureIsBounded(spec, s.pool);
  }

  /** Time only opens the guard and only lets the cooldown run out. */
  lemma LaterIsRiper(spec: Spec, last: Option<int>, a: Annotation, t: int, t': int)
    requires t <= t'
    ensures GuardOpen(spec, last, t) ==> GuardOpen(spec, last, t')
    ensures CooldownElapsed(spec, a, t) ==> CooldownElapsed(spec, a, t')
  {
  }

  /** A reconciliation held back by the cooldown returns a timer after which it no longer is. */
  lemma TimerRipens(spec: Spec, s: Timed, st: PoolState, c: Readings, returned: int)
    requires Remembered(s) && Monotone(c) && s.clock <= c.guard && c.stamp <= returned && spec.cooldown <= MAX_DURATION
    requires HasSurplus(spec, st) && !Disables(spec, st, s.last, s.annotation, c)
    ensures var a', due := AnnotationAfter(spec, st, s.last, s.annotation, c), returned + RequeueAfter(spec, st, s.last, s.annotation, c);
            if !GuardOpen(spec, s.last, c.guard) then a' == s.annotation && GuardOpen(spec, s.last, due)
            else a'.SurplusSince? && CooldownElapsed(spec, a', due) && !(s.annotation.SurplusSince? && CooldownElapsed(spec, s.annotation, c.surplus))
  {
  }

  /** ... and not before: the timer runs out in the very instant the guard opens or the cooldown has
      elapsed. */
  lemma TimerIsTight(spec: Spec, s: Timed, st: PoolState, c: Readings, t: int)
    requires Remembered(s) && Monotone(c) && s.clock <= c.guard <= t && spec.cooldown <= MAX_DURATION
    requires HasSurplus(spec, st)
    ensures var timer := RequeueAfter(spec, st, s.last, s.annotation, c);
            if s.last.Some? && Since(c.guard, s.last.value) < spec.cooldown then
              t >= c.guard + timer <==> Since(t, s.last.value) >= spec.cooldown
            else if s.annotation.SurplusSince? && Since(c.surplus, s.annotation.at) < spec.cooldown then
              t >= c.surplus + timer <==> Since(t, s.annotation.at) >= spec.cooldown
            else timer == spec.cooldown
  {
  }

  /** While there is surplus, a reconciliation that changes nothing never adds to the waits, and
      one that waited takes one off. */
  lemma WaitsFall(spec: Spec, s: Timed, c: Readings, action: Action, name: string, waiting: bool, returned: int, s': Timed)
    requires Remembered(s) && Reconciled(spec, s, c, action, name, waiting, returned, s') && spec.cooldown <= MAX_DURATION
    requires action.NoChange? && HasSurplus(spec, StateOf(s.pool)) && !Disables(spec, StateOf(s.pool), s.last, s.annotation, c)
    ensures Waits(spec, s') <= Waits(spec, s) - (if c.guard >= s.due then 1 else 0)
  {
    var st := StateOf(s.pool);
    var due := returned + RequeueAfter(spec, st, s.last, s.annotation, c);
    hide Acts, StateOf, HasSurplus, Settled;
    TimerRipens(spec, s, st, c, returned);
    NoShorterTimer(spec, s, st, c, action, waiting);
    hide AnnotationAfter, RequeueAfter, Disables, NewTimer;
    LaterIsRiper(spec, s.last, s'.annotation, due, s'.due);
    LaterIsRiper(spec, s.last, s.annotation, s.due, s'.due);
    if c.guard >= s.due {
      LaterIsRiper(spec, s.last, s.annotation, s.due, c.guard);
      LaterIsRiper(spec, s.last, s.annotation, s.due, c.surplus);
    } else {
      LaterIsRiper(spec, s.last, s.annotation, c.guard, s.due);
    }
  }

  lemma NoShorterTimer(spec: Spec, s: Timed, st: PoolState, c: Readings, action: Action, waiting: bool)
    requires st == StateOf(s.pool) && action.NoChange?
    ensures NewTimer(spec, s.pool, s.last, s.annotation, c, action, waiting) >= RequeueAfter(spec, st, s.last, s.annotation, c)
    ensures NewAnnotation(spec, s.pool, s.last, s.annotation, c, action) == AnnotationAfter(spec, st, s.last, s.annotation, c)
  {
  }

  // ---------------------------------------------------------------- offline instances

  lemma {:induction false} SelectCountsFewer(pool: Pool, keep: Instance -> bool, p: Instance -> bool)
    ensures Count(Select(pool, keep), p) <= Count(pool, p)
  {
    if pool != [] {
      SelectCountsFewer(pool[1..], keep, p);
      var rest := Select(pool[1..], keep);
      if keep(pool[0]) {
        var kept := [pool[0]] + rest;
        assert Select(pool, keep) == kept && kept[1..] == rest;
      } else {
        assert Select(pool, keep) == rest;
      }
    }
  }

  lemma OfflineAfter(spec: Spec, s: Timed, c: Readings, action: Action, name: string)
    requires Acts(spec, s.pool, 0, s.last, s.annotation, c, action)
    ensures Count(Applied(s.pool, action, name), IsOffline) <= Count(s.pool, IsOffline) + 1
  {
    match action
    case Deleted(rest) =>
      SelectCountsFewer(s.pool, NotDrained, IsOffline);
      SelectCountsFewer(s.pool, NotFinished, IsOffline);
    case Created => CountAppend(s.pool, NewInstance(name), IsOffline);
    case DisabledOne(i) => CountUpdate(s.pool, i, s.pool[i].(enabled := false), IsOffline);
    case NoChange =>
  }

  predicate SameOnline(pool: Pool, pool': Pool) {
    |pool'| == |pool| && forall i :: 0 <= i < |pool| ==> pool'[i].online == pool[i].online
  }

  lemma {:induction false} OnlineLeavesOffline(spec: Spec, pool: Pool, pool': Pool)
    requires PoolComesOnline(spec, pool, pool')
    ensures if SameOnline(pool, pool') then Count(pool', IsOffline) == Count(pool, IsOffline)
            else Count(pool', IsOffline) < Count(pool, IsOffline)
  {
    if pool != [] {
      assert forall i :: 0 <= i < |pool| - 1 ==> pool[1..][i] == pool[i + 1] && pool'[1..][i] == pool'[i + 1];
      OnlineLeavesOffline(spec, pool[1..], pool'[1..]);
      assert ComesOnline(spec, pool[0], pool'[0]);
      assert SameOnline(pool, pool') <==> pool'[0].online == pool[0].online && SameOnline(pool[1..], pool'[1..]) by {
        if pool'[0].online == pool[0].online && SameOnline(pool[1..], pool'[1..]) {
          forall i | 0 <= i < |pool| ensures pool'[i].online == pool[i].online {
            if i > 0 { assert pool'[1..][i - 1].online == pool[1..][i - 1].online; }
          }
        }
      }
    }
  }

  /** Pods alone do not make a pool settled or unsettled. */
  lemma SameOnlineSameState(spec: Spec, pool: Pool, pool': Pool)
    requires PoolComesOnline(spec, pool, pool') && SameOnline(pool, pool')
    ensures StateOf(pool') == StateOf(pool) && (Settled(spec, pool') <==> Settled(spec, pool))
  {
    OnlineKeepsCounts(spec, pool, pool');
    forall i | 0 <= i < |pool| ensures IsAvailable(pool'[i]) == IsAvailable(pool[i]) {
      assert ComesOnline(spec, pool[i], pool'[i]);
    }
    CountSame(pool', pool, IsOnline);
    CountSame(pool', pool, IsAvailable);
  }

  /** Nor does the order. */
  lemma ReorderedSameState(spec: Spec, pool: Pool, pool': Pool)
    requires multiset(pool') == multiset(pool)
    ensures StateOf(pool') == StateOf(pool) && (Settled(spec, pool') <==> Settled(spec, pool))
    ensures Count(pool', IsOffline) == Count(pool, IsOffline)
  {
    CountPermuted(pool, pool', IsOnline);
    CountPermuted(pool, pool', IsAvailable);
    CountPermuted(pool, pool', IsLeased);
    CountPermuted(pool, pool', IsOffline);
    CountPermuted(pool, pool', Doomed(spec));
  }

  // ---------------------------------------------------------------- every step pays

  lemma ReconciledPays(spec: Spec, s: Timed, c: Readings, action: Action, name: string, waiting: bool, returned: int, s': Timed)
    requires Remembered(s) && Reconciled(spec, s, c, action, name, waiting, returned, s') && spec.cooldown <= MAX_DURATION
    ensures Potential(spec, s') <= Potential(spec, s) - (s'.unsettled - s.unsettled)
    ensures Remembered(s')
  {
    var before, after := System(s.pool, s.last, 0, 0, 0), AsSystem(s, c, action, name);
    assert Reconciles(spec, before, 0, s.annotation, c, action, name, after);
    ReconcilePays(spec, before, s.annotation, c, action, name, after);
    SettledIsFixpoint(spec, before, s.annotation, c, action, name, after);
    OfflineAfter(spec, s, c, action, name);
    if action.NoChange? { UnsettledHasSurplus(spec, s, c, action); }
    hide Measure, Settled, Count, Select;
    if !Settled(spec, s.pool) && action.NoChange? {
      WaitsFall(spec, s, c, action, name, waiting, returned, s');
    }
  }

  function AsSystem(s: Timed, c: Readings, action: Action, name: string): System
    requires action.DisabledOne? ==> action.i < |s.pool|
  {
    System(Applied(s.pool, action, name), if action.DisabledOne? then Some(c.action) else s.last,
           if action.Created? then 1 else 0, if action.DisabledOne? then 1 else 0, if action.NoChange? then 0 else 1)
  }

  lemma UnsettledHasSurplus(spec: Spec, s: Timed, c: Readings, action: Action)
    requires Acts(spec, s.pool, 0, s.last, s.annotation, c, action) && action.NoChange?
    ensures Count(s.pool, Doomed(spec)) == 0 && !ScalesUp(spec, StateOf(s.pool), 0)
    ensures !Settled(spec, s.pool) ==> HasSurplus(spec, StateOf(s.pool))
    ensures !Disables(spec, StateOf(s.pool), s.last, s.annotation, c)
  {
    NoneDoomed(spec, s.pool);
  }

  lemma QuietPays(spec: Spec, s: Timed, s': Timed)
    requires CameOnline(spec, s, s') || Reordered(s, s')
    ensures Potential(spec, s') <= Potential(spec, s) && (Remembered(s) ==> Remembered(s'))
  {
    hide Measure, Settled, StateOf, Count, Waits;
    WaitsAreFew(spec, s');
    WaitsAreFew(spec, s);
    QuietKeepsMeasure(spec, System(s.pool, None, 0, 0, 0), System(s'.pool, None, 0, 0, 0));
    SameWaits(spec, s, s');
    if CameOnline(spec, s, s') {
      OnlineLeavesOffline(spec, s.pool, s'.pool);
      if SameOnline(s.pool, s'.pool) { SameOnlineSameState(spec, s.pool, s'.pool); }
    } else {
      ReorderedSameState(spec, s.pool, s'.pool);
    }
  }

  lemma WaitsAreFew(spec: Spec, s: Timed)
    ensures 0 <= Waits(spec, s) <= 3
  {
  }

  lemma SameWaits(spec: Spec, s: Timed, s': Timed)
    requires s' == s.(pool := s'.pool)
    ensures Waits(spec, s') == Waits(spec, s)
  {
  }

  // ---------------------------------------------------------------- main results

  lemma {:induction false} RunPays(spec: Spec, states: seq<Timed>, j: nat)
    requires TimedRun(spec, states) && j < |states|
    ensures Potential(spec, states[j]) <= Potential(spec, states[0]) - (states[j].unsettled - states[0].unsettled)
    ensures Remembered(states[j])
  {
    hide Potential, Remembered;
    if j > 0 {
      RunPays(spec, states, j - 1);
      var s, s' := states[j - 1], states[j];
      assert TimedStep(spec, states[j - 1], states[j - 1 + 1]);
      if CameOnline(spec, s, s') || Reordered(s, s') {
        QuietPays(spec, s, s');
      } else {
        var c, action, name, waiting, returned :| Reconciled(spec, s, c, action, name, waiting, returned, s');
        hide Reconciled;
        ReconciledPays(spec, s, c, action, name, waiting, returned, s');
      }
    }
  }

  /** In every quiet run, however long, at most `Potential` of the reconciliations that waited for
      their timers find a pool that is not settled. */
  lemma UnsettledIsBounded(spec: Spec, states: seq<Timed>, j: nat)
    requires TimedRun(spec, states) && j < |states|
    ensures states[j].unsettled - states[0].unsettled <= Potential(spec, states[0])
  {
    hide Potential;
    RunPays(spec, states, j);
    PotentialIsNatural(spec, states[j]);
  }

  lemma {:induction false} TimelyAreUnsettled(spec: Spec, states: seq<Timed>, j: nat)
    requires TimedRun(spec, states) && j < |states|
    requires forall k :: 0 <= k < j ==> !Settled(spec, states[k].pool)
    ensures states[j].timely - states[0].timely == states[j].unsettled - states[0].unsettled
  {
    hide Settled;
    if j > 0 {
      TimelyAreUnsettled(spec, states, j - 1);
      assert TimedStep(spec, states[j - 1], states[j - 1 + 1]);
    }
  }

  /** Every quiet run settles: once more reconciliations than that have waited for their timers,
      the pool has been settled. */
  lemma PoolSettles(spec: Spec, states: seq<Timed>, j: nat)
    requires TimedRun(spec, states) && j < |states|
    requires states[j].timely - states[0].timely > Potential(spec, states[0])
    ensures exists k :: 0 <= k < j && Settled(spec, states[k].pool)
  {
    hide Potential, Settled, TimedStep;
    UnsettledIsBounded(spec, states, j);
    if forall k :: 0 <= k < j ==> !Settled(spec, states[k].pool) {
      TimelyAreUnsettled(spec, states, j);
    }
  }

  function Bare(pool: Pool): Pool { seq(|pool|, i requires 0 <= i < |pool| => pool[i].(pods := [])) }

  /** The same instances, whatever their order and their pods. */
  predicate SameInstances(pool: Pool, pool': Pool) { multiset(Bare(pool')) == multiset(Bare(pool)) }

  lemma {:induction false} ReorderedSameInstances(pool: Pool, pool': Pool)
    requires multiset(pool') == multiset(pool)
    ensures SameInstances(pool, pool')
  {
    if pool == [] {
      assert |pool'| == |multiset(pool')|;
    } else {
      var a, b := TakeOut(pool, pool');
      ReorderedSameInstances(pool[1..], a + b);
      hide Bare;
      BareConcat([pool[0]], pool[1..]);
      assert pool == [pool[0]] + pool[1..];
      BareConcat(a + [pool[0]], b);
      BareConcat(a, [pool[0]]);
      BareConcat(a, b);
    }
  }

  lemma BareConcat(a: Pool, b: Pool)
    ensures Bare(a + b) == Bare(a) + Bare(b)
  {
  }

  lemma OnlineSameInstances(spec: Spec, pool: Pool, pool': Pool)
    requires PoolComesOnline(spec, pool, pool') && SameOnline(pool, pool')
    ensures SameInstances(pool, pool')
  {
    forall i | 0 <= i < |pool| ensures Bare(pool')[i] == Bare(pool)[i] {
      assert ComesOnline(spec, pool[i], pool'[i]);
    }
    assert Bare(pool') == Bare(pool);
  }

  /** ... and for good: a settled pool whose instances are all online stays settled and keeps
      exactly its instances. */
  lemma {:induction false} SettledForGood(spec: Spec, states: seq<Timed>, k: nat, j: nat)
    requires TimedRun(spec, states) && k <= j < |states|
    requires Settled(spec, states[k].pool) && Count(states[k].pool, IsOffline) == 0
    ensures SameInstances(states[k].pool, states[j].pool)
    ensures Settled(spec, states[j].pool) && Count(states[j].pool, IsOffline) == 0
    decreases j
  {
    hide Settled, Count, TimedStep, Bare, Remembered;
    if k < j {
      SettledForGood(spec, states, k, j - 1);
      assert TimedStep(spec, states[j - 1], states[j - 1 + 1]);
      SettledStep(spec, states[j - 1], states[j]);
    }
  }

  lemma SettledStep(spec: Spec, s: Timed, s': Timed)
    requires TimedStep(spec, s, s') && Settled(spec, s.pool) && Count(s.pool, IsOffline) == 0
    ensures SameInstances(s.pool, s'.pool) && Settled(spec, s'.pool) && Count(s'.pool, IsOffline) == 0
  {
    hide Settled, Count;
    if CameOnline(spec, s, s') {
      OnlineLeavesOffline(spec, s.pool, s'.pool);
      SameOnlineSameState(spec, s.pool, s'.pool);
      OnlineSameInstances(spec, s.pool, s'.pool);
    } else if Reordered(s, s') {
      ReorderedSameState(spec, s.pool, s'.pool);
      ReorderedSameInstances(s.pool, s'.pool);
    } else {
      var c, action, name, waiting, returned :| Reconciled(spec, s, c, action, name, waiting, returned, s');
      var before, after := System(s.pool, s.last, 0, 0, 0), AsSystem(s, c, action, name);
      SettledIsFixpoint(spec, before, s.annotation, c, action, name, after);
    }
  }
}
