/** The same locks at the grain of single atomic operations, where the increment of an acquire
    attempt and the back-out of a failed one are two steps: when the coarser machine of
    `LeaseLocks` is an honest picture of this one, and what happens when it is not. */
module LeaseLockGrain {
  import opened LeaseLocks

  predicate DoIncrement(s: State, u: User, e: Entry, s': State) {
    && At(s, u, Loaded(e)) && e in s.refs
    && s' == Goto(s.(refs := s.refs[e := s.refs[e] + 1]), u, if s.refs[e] + 1 <= 1 then BackingOut(e) else Holding(e))
  }

  predicate DoBackOut(s: State, u: User, e: Entry, s': State) {
    && At(s, u, BackingOut(e)) && e in s.refs
    && s' == Goto(s.(refs := s.refs[e := s.refs[e] - 1]), u, Start)
  }

  /** The increment and the back-out as two steps, as the processor sees them. */
  ghost predicate FineSteps(s: State, s': State) {
    || (exists u, step: Step :: !step.Bump? && Next(s, u, step, s'))
    || (exists u, e :: DoIncrement(s, u, e, s'))
    || (exists u, e :: DoBackOut(s, u, e, s'))
  }

  ghost predicate FineRun(states: seq<State>) {
    && states != [] && Init(states[0])
    && forall i :: 0 <= i < |states| - 1 ==> FineSteps(states[i], states[i + 1])
  }

  // ---------------------------------------------------------------- the coarser picture

  predicate BacksOut(l: Local, e: Entry) { l.pc == BackingOut(e) }

  /** Some goroutine has bumped the dying entry and has not taken the bump back yet. */
  ghost predicate Backed(s: State, e: Entry) { exists u :: u in s.users && BacksOut(s.users[u], e) }

  function CoarseLocal(l: Local): Local { if l.pc.BackingOut? then l.(pc := Loaded(l.pc.e)) else l }

  /** A pending back-out looks like an attempt that has not started, and its bump is not counted. */
  ghost function Coarse(s: State): State {
    State(s.table, map e | e in s.refs :: s.refs[e] - (if Backed(s, e) then 1 else 0), s.owner,
          map u | u in s.users :: CoarseLocal(s.users[u]))
  }

  ghost predicate OneBacker(s: State) {
    forall u, v, e :: u in s.users && v in s.users && BacksOut(s.users[u], e) && BacksOut(s.users[v], e) ==> u == v
  }

  ghost predicate BackedCount(s: State) {
    forall u, e :: u in s.users && BacksOut(s.users[u], e) ==> e in s.refs && s.refs[e] == 1
  }

  ghost predicate FineInv(s: State) { Inv(Coarse(s)) && OneBacker(s) && BackedCount(s) }

  /** An attempt does not increment an entry that another one is backing out of. */
  ghost predicate OrderlySteps(s: State, s': State) {
    || (exists u, step: Step :: !step.Bump? && Next(s, u, step, s'))
    || (exists u, e :: DoIncrement(s, u, e, s') && !Backed(s, e))
    || (exists u, e :: DoBackOut(s, u, e, s'))
  }

  ghost predicate OrderlyRun(states: seq<State>) {
    && states != [] && Init(states[0])
    && forall i :: 0 <= i < |states| - 1 ==> OrderlySteps(states[i], states[i + 1])
  }

  /** A goroutine that neither starts nor ends a back-out moves. */
  lemma BackersSame(s: State, s': State, u: User, l: Local)
    requires s'.users == s.users[u := l] && !l.pc.BackingOut? && (u in s.users ==> !s.users[u].pc.BackingOut?)
    ensures forall e :: Backed(s', e) <==> Backed(s, e)
    ensures OneBacker(s) ==> OneBacker(s')
  {
    forall e ensures Backed(s', e) <==> Backed(s, e) {
      if v :| v in s.users && BacksOut(s.users[v], e) { assert v in s'.users && BacksOut(s'.users[v], e); }
      if v :| v in s'.users && BacksOut(s'.users[v], e) { assert v in s.users && BacksOut(s.users[v], e); }
    }
  }

  lemma CoarseUsers(s: State, s': State, u: User, l: Local)
    requires s'.users == s.users[u := l]
    ensures Coarse(s').users == Coarse(s).users[u := CoarseLocal(l)]
  {
  }

  lemma CoarseRefsMoved(s: State, s': State, x: Entry, n: int)
    requires s'.refs == s.refs[x := n] && !Backed(s, x) && forall e :: Backed(s', e) <==> Backed(s, e)
    ensures Coarse(s').refs == Coarse(s).refs[x := n]
  {
    hide Backed;
  }

  lemma CoarseRefsSame(s: State, s': State)
    requires s'.refs == s.refs && forall e :: Backed(s', e) <==> Backed(s, e)
    ensures Coarse(s').refs == Coarse(s).refs
  {
    hide Backed;
  }

  lemma BackedCountKept(s: State, s': State)
    requires BackedCount(s) && forall e :: Backed(s', e) ==> Backed(s, e) && e in s'.refs && e in s.refs && s'.refs[e] == s.refs[e]
    ensures BackedCount(s')
  {
    forall u, e | u in s'.users && BacksOut(s'.users[u], e) ensures e in s'.refs && s'.refs[e] == 1 {
      assert Backed(s', e);
      var v :| v in s.users && BacksOut(s.users[v], e);
    }
  }

  lemma BackedIsKnown(s: State, e: Entry)
    requires BackedCount(s) && Backed(s, e)
    ensures e in s.refs && s.refs[e] == 1
  {
    var v :| v in s.users && BacksOut(s.users[v], e);
  }

  /** How such a step changes the counts. */
  ghost predicate SameCounts(step: Step, refs: map<Entry, int>, c: State, c': State) {
    match step
    case Store(e) => e !in c.refs && c'.refs == c.refs[e := 1]
    case Decrement(e) => e in refs && e in c.refs && c.refs[e] == refs[e] && c'.refs == c.refs[e := refs[e] - 1]
    case _ => c'.refs == c.refs
  }

  /** A step other than an increment or a back-out is the same step of the coarser machine. */
  lemma OtherStepRefines(s: State, u: User, step: Step, s': State)
    requires FineInv(s) && Next(s, u, step, s') && !step.Bump?
    ensures Next(Coarse(s), u, step, Coarse(s')) && OneBacker(s') && BackedCount(s')
  {
    hide Inv, OneBacker, BackedCount, Backed;
    OtherStepCounts(s, u, step, s');
    CoarseUsers(s, s', u, s'.users[u]);
    SameStepInPicture(s, u, step, s', Coarse(s), Coarse(s'));
  }

  lemma SameStepInPicture(s: State, u: User, step: Step, s': State, c: State, c': State)
    requires Next(s, u, step, s') && !step.Bump? && SameCounts(step, s.refs, c, c')
    requires c.table == s.table && c.owner == s.owner && c'.table == s'.table && c'.owner == s'.owner
    requires (u in c.users <==> u in s.users) && (u in s.users ==> c.users[u] == s.users[u])
    requires u in s'.users && c'.users == c.users[u := s'.users[u]]
    ensures Next(c, u, step, c')
  {
  }

  lemma OtherStepCounts(s: State, u: User, step: Step, s': State)
    requires FineInv(s) && Next(s, u, step, s') && !step.Bump?
    ensures SameCounts(step, s.refs, Coarse(s), Coarse(s')) && OneBacker(s') && BackedCount(s')
  {
    hide Inv, OneBacker, BackedCount, Backed;
    BackersSame(s, s', u, s'.users[u]);
    forall e | Backed(s, e) ensures e in s.refs { BackedIsKnown(s, e); }
    match step
    case Store(e) => CountedStepRefines(s, s', e, 1);
    case Decrement(e) =>
      DecrementIsUnbacked(s, u, e);
      CountedStepRefines(s, s', e, s.refs[e] - 1);
    case _ =>
      CoarseRefsSame(s, s');
      BackedCountKept(s, s');
  }

  lemma CountedStepRefines(s: State, s': State, x: Entry, n: int)
    requires BackedCount(s) && s'.refs == s.refs[x := n] && !Backed(s, x) && forall e :: Backed(s', e) <==> Backed(s, e)
    ensures Coarse(s').refs == Coarse(s).refs[x := n] && BackedCount(s')
  {
    hide BackedCount, Backed;
    CoarseRefsMoved(s, s', x, n);
    forall e | Backed(s, e) ensures e in s.refs { BackedIsKnown(s, e); }
    BackedCountKept(s, s');
  }

  lemma DecrementIsUnbacked(s: State, u: User, e: Entry)
    requires FineInv(s) && At(s, u, Releasing(e)) && e in s.refs
    ensures !Backed(s, e)
  {
    assert Holds(Coarse(s).users[u], e);
    CountMeansHeld(Coarse(s), e);
  }

  /** An orderly increment either succeeds in the coarser machine too or is invisible there. */
  lemma IncrementRefines(s: State, u: User, e: Entry, s': State)
    requires FineInv(s) && DoIncrement(s, u, e, s') && !Backed(s, e)
    ensures Coarse(s') == Coarse(s) || Next(Coarse(s), u, Bump(e), Coarse(s'))
    ensures OneBacker(s') && BackedCount(s')
  {
    hide Inv, OneBacker, BackedCount, Backed, Coarse;
    CountIsNatural(s, e);
    if s.refs[e] + 1 <= 1 { DyingIncrement(s, u, e, s'); } else { HeldIncrement(s, u, e, s'); }
  }

  lemma CountIsNatural(s: State, e: Entry)
    requires FineInv(s) && e in s.refs && !Backed(s, e)
    ensures s.refs[e] >= 0
  {
    CountMeansHeld(Coarse(s), e);
  }

  lemma HeldIncrement(s: State, u: User, e: Entry, s': State)
    requires OneBacker(s) && BackedCount(s) && DoIncrement(s, u, e, s') && !Backed(s, e) && s.refs[e] > 0
    ensures Next(Coarse(s), u, Bump(e), Coarse(s')) && OneBacker(s') && BackedCount(s')
  {
    hide OneBacker, BackedCount, Backed;
    CoarseUsers(s, s', u, s'.users[u]);
    BackersSame(s, s', u, s'.users[u]);
    CountedStepRefines(s, s', e, s.refs[e] + 1);
  }

  lemma DyingIncrement(s: State, u: User, e: Entry, s': State)
    requires OneBacker(s) && BackedCount(s) && DoIncrement(s, u, e, s') && !Backed(s, e) && s.refs[e] == 0
    ensures Coarse(s') == Coarse(s) && OneBacker(s') && BackedCount(s')
  {
    hide OneBacker, BackedCount, Backed;
    BackersGrow(s, s', u, e);
    CoarseUsers(s, s', u, s'.users[u]);
    assert Coarse(s').refs == Coarse(s).refs;
    assert Coarse(s').users == Coarse(s).users;
    BackedCountGrows(s, u, e, s');
  }

  lemma BackedCountGrows(s: State, u: User, e: Entry, s': State)
    requires BackedCount(s) && DoIncrement(s, u, e, s') && !Backed(s, e) && s.refs[e] == 0
    ensures BackedCount(s')
  {
    forall v, f | v in s'.users && BacksOut(s'.users[v], f) ensures f in s'.refs && s'.refs[f] == 1 {
      if v != u { assert Backed(s, f); }
    }
  }

  lemma BackersGrow(s: State, s': State, u: User, e: Entry)
    requires OneBacker(s) && !Backed(s, e) && At(s, u, Loaded(e)) && s'.users == s.users[u := s.users[u].(pc := BackingOut(e))]
    ensures forall f :: Backed(s', f) <==> Backed(s, f) || f == e
    ensures OneBacker(s')
  {
    assert BacksOut(s'.users[u], e);
    forall f ensures Backed(s', f) <==> Backed(s, f) || f == e {
      if v :| v in s.users && BacksOut(s.users[v], f) { assert v in s'.users && BacksOut(s'.users[v], f); }
      if v :| v in s'.users && BacksOut(s'.users[v], f) { assert v != u ==> v in s.users && BacksOut(s.users[v], f); }
    }
  }

  /** A back-out is the failed attempt of the coarser machine. */
  lemma BackOutRefines(s: State, u: User, e: Entry, s': State)
    requires FineInv(s) && DoBackOut(s, u, e, s')
    ensures Next(Coarse(s), u, Bump(e), Coarse(s')) && OneBacker(s') && BackedCount(s')
  {
    hide Inv;
    assert BacksOut(s.users[u], e) && Backed(s, e);
    BackersShrink(s, u, e, s');
    hide OneBacker, Backed;
    CoarseUsers(s, s', u, s'.users[u]);
    assert Coarse(s').refs == Coarse(s).refs;
  }

  lemma BackersShrink(s: State, u: User, e: Entry, s': State)
    requires OneBacker(s) && BackedCount(s) && DoBackOut(s, u, e, s')
    ensures forall f :: Backed(s', f) <==> Backed(s, f) && f != e
    ensures OneBacker(s') && BackedCount(s')
  {
    assert BacksOut(s.users[u], e);
    forall f ensures Backed(s', f) <==> Backed(s, f) && f != e {
      if v :| v in s.users && BacksOut(s.users[v], f) { assert f != e ==> v in s'.users && BacksOut(s'.users[v], f); }
      if v :| v in s'.users && BacksOut(s'.users[v], f) { assert v in s.users && BacksOut(s.users[v], f); }
    }
  }

  lemma OrderlyStepRefines(s: State, s': State)
    requires FineInv(s) && OrderlySteps(s, s')
    ensures FineInv(s') && (Coarse(s') == Coarse(s) || Steps(Coarse(s), Coarse(s')))
  {
    hide Inv, Next, Coarse, OneBacker, BackedCount;
    if u, step: Step :| !step.Bump? && Next(s, u, step, s') {
      OtherStepRefines(s, u, step, s');
      InvKept(Coarse(s), u, step, Coarse(s'));
    } else if u, e :| DoIncrement(s, u, e, s') && !Backed(s, e) {
      IncrementRefines(s, u, e, s');
      if Coarse(s') != Coarse(s) { InvKept(Coarse(s), u, Bump(e), Coarse(s')); }
    } else {
      var u, e :| DoBackOut(s, u, e, s');
      BackOutRefines(s, u, e, s');
      InvKept(Coarse(s), u, Bump(e), Coarse(s'));
    }
  }

  ghost predicate CoarseReachable(s: State) { exists states :: Run(states) && states[|states| - 1] == s }

  lemma CoarseExtend(s: State, s': State)
    requires CoarseReachable(s) && Steps(s, s')
    ensures CoarseReachable(s')
  {
    var states :| Run(states) && states[|states| - 1] == s;
    var longer := states + [s'];
    forall i | 0 <= i < |longer| - 1 ensures Steps(longer[i], longer[i + 1]) {
      assert longer[i] == states[i];
      if i < |states| - 1 { assert Steps(states[i], states[i + 1]); }
    }
    assert Run(longer) && longer[|longer| - 1] == s';
  }

  /** Every orderly run of single atomic operations is, seen coarsely, a run of `LeaseLocks`. */
  lemma {:induction false} OrderlyRunRefines(states: seq<State>, i: nat)
    requires OrderlyRun(states) && i < |states|
    ensures FineInv(states[i]) && CoarseReachable(Coarse(states[i]))
  {
    if i == 0 {
      var s := states[0];
      assert Coarse(s) == s;
      assert Run([s]) && [s][0] == s;
    } else {
      OrderlyRunRefines(states, i - 1);
      hide FineInv, Coarse, OrderlySteps, CoarseReachable;
      assert OrderlySteps(states[i - 1], states[i - 1 + 1]);
      OrderlyStepRefines(states[i - 1], states[i]);
      if Coarse(states[i]) != Coarse(states[i - 1]) { CoarseExtend(Coarse(states[i - 1]), Coarse(states[i])); }
    }
  }

  /** So there too all holders for one lease share the one mutex in the map. */
  lemma OrderlySharesMutex(states: seq<State>, i: nat, u: User, v: User, e: Entry, f: Entry)
    requires OrderlyRun(states) && i < |states| && u in states[i].users && v in states[i].users
    requires states[i].users[u].name == states[i].users[v].name
    requires Holds(states[i].users[u], e) && Holds(states[i].users[v], f)
    ensures e == f && InTable(states[i], states[i].users[u], e)
  {
    OrderlyRunRefines(states, i);
    var c := Coarse(states[i]);
    assert UserInv(c, u, c.users[u]) && UserInv(c, v, c.users[v]);
  }

  // ---------------------------------------------------------------- exactly when it fails

  /** `u` believes it holds an entry that the map no longer has. */
  predicate Orphaned(s: State, u: User, e: Entry) {
    u in s.users && Holds(s.users[u], e) && !InTable(s, s.users[u], e)
  }

  /** `u` is left holding a mutex outside the map, at once or by the pending deletion. */
  ghost predicate LosesMutex(s: State, u: User, e: Entry) {
    Orphaned(s, u, e) || exists v, s' :: DoDelete(s, v, e, s') && Orphaned(s', u, e)
  }

  /** The condition is exact: an increment leaves its goroutine with a mutex outside the map
      exactly when another attempt was backing out of the same entry. */
  lemma OverlapLosesMutex(s: State, u: User, e: Entry, s': State)
    requires FineInv(s) && DoIncrement(s, u, e, s')
    ensures Backed(s, e) <==> LosesMutex(s', u, e)
  {
    if Backed(s, e) {
      OverlapOrphans(s, u, e, s');
    } else {
      NoOverlapKeeps(s, u, e, s');
    }
  }

  lemma OverlapOrphans(s: State, u: User, e: Entry, s': State)
    requires FineInv(s) && DoIncrement(s, u, e, s') && Backed(s, e)
    ensures LosesMutex(s', u, e)
  {
    var c := Coarse(s);
    assert c.refs[e] == 0 && Holds(s'.users[u], e);
    assert UserInv(c, u, c.users[u]);
    if InTable(s, s.users[u], e) {
      assert c.table[s.users[u].name] == e;
      var v :| v in c.users && Deletes(c.users[v], e);
      assert UserInv(c, v, c.users[v]) && v != u;
      var s'' := Goto(s'.(table := s'.table - {s'.users[v].name}), v, Finished);
      assert DoDelete(s', v, e, s'') && Orphaned(s'', u, e);
    } else {
      assert Orphaned(s', u, e);
    }
  }

  lemma NoOverlapKeeps(s: State, u: User, e: Entry, s': State)
    requires FineInv(s) && DoIncrement(s, u, e, s') && !Backed(s, e)
    ensures !LosesMutex(s', u, e)
  {
    OrderlyStepRefines(s, s');
    NoneOrphaned(s', u, e);
    forall v, s'' | DoDelete(s', v, e, s'') ensures !Orphaned(s'', u, e) {
      assert Next(s', v, CompareAndDelete(e), s'');
      OrderlyStepRefines(s', s'');
      NoneOrphaned(s'', u, e);
    }
  }

  lemma NoneOrphaned(s: State, u: User, e: Entry)
    requires FineInv(s)
    ensures !Orphaned(s, u, e)
  {
    var c := Coarse(s);
    if u in s.users && Holds(s.users[u], e) { assert UserInv(c, u, c.users[u]); }
  }

  // ---------------------------------------------------------------- and it does fail

  ghost predicate TwoMutexes(s: State) {
    exists u, v, e, f :: u in s.users && v in s.users && s.users[u].name == s.users[v].name
                         && Holds(s.users[u], e) && Holds(s.users[v], f) && e != f
  }

  ghost predicate FineReachable(s: State) { exists states :: FineRun(states) && states[|states| - 1] == s }

  lemma FineExtend(s: State, s': State)
    requires FineReachable(s) && FineSteps(s, s')
    ensures FineReachable(s')
  {
    var states :| FineRun(states) && states[|states| - 1] == s;
    var longer := states + [s'];
    forall i | 0 <= i < |longer| - 1 ensures FineSteps(longer[i], longer[i + 1]) {
      assert longer[i] == states[i];
      if i < |states| - 1 { assert FineSteps(states[i], states[i + 1]); }
    }
    assert FineRun(longer) && longer[|longer| - 1] == s';
  }

  lemma FineNext(s: State, u: User, step: Step, s': State)
    requires FineReachable(s) && Next(s, u, step, s') && !step.Bump?
    ensures FineReachable(s') && (FineInv(s) ==> FineInv(s'))
  {
    hide FineReachable, FineInv, Next;
    FineExtend(s, s');
    if FineInv(s) { OrderlyStepRefines(s, s'); }
  }

  lemma FineInit(s: State)
    requires Init(s)
    ensures FineReachable(s) && FineInv(s)
  {
    assert FineRun([s]) && [s][0] == s;
    assert Coarse(s) == s;
  }

  predicate Waiting(s: State, u: User) { u in s.users && s.users[u] == Local("l", Start) }

  /** Four goroutines begin on the same lease. */
  lemma FourBegin() returns (s: State)
    ensures FineReachable(s) && s.table == map[] && s.refs == map[] && s.owner == map[] && s.users.Keys == {0, 1, 2, 3}
    ensures Waiting(s, 0) && Waiting(s, 1) && Waiting(s, 2) && Waiting(s, 3) && FineInv(s)
  {
    hide FineReachable, FineInv;
    var s0 := State(map[], map[], map[], map[]);
    FineInit(s0);
    var s1 := s0.(users := s0.users[0 := Local("l", Start)]);
    FineNext(s0, 0, Begin("l"), s1);
    var s2 := s1.(users := s1.users[1 := Local("l", Start)]);
    FineNext(s1, 1, Begin("l"), s2);
    var s3 := s2.(users := s2.users[2 := Local("l", Start)]);
    FineNext(s2, 2, Begin("l"), s3);
    s := s3.(users := s3.users[3 := Local("l", Start)]);
    FineNext(s3, 3, Begin("l"), s);
  }

  /** Goroutine 0 stores the entry and releases the last reference; 1 and 2 load it dying. */
  lemma TwoLoadDying(e: Entry) returns (s: State)
    requires e == Entry("l", 0)
    ensures FineReachable(s) && s.table == map["l" := e] && s.refs == map[e := 0] && s.owner == map[]
    ensures s.users.Keys == {0, 1, 2, 3} && Waiting(s, 3) && FineInv(s)
    ensures s.users[0] == Local("l", Deleting(e)) && s.users[1] == Local("l", Loaded(e)) && s.users[2] == Local("l", Loaded(e))
  {
    hide FineReachable, FineInv;
    var s0 := FourBegin();
    var s1 := Goto(s0.(table := s0.table["l" := e], refs := s0.refs[e := 1]), 0, Holding(e));
    FineNext(s0, 0, Store(e), s1);
    var s2 := Goto(s1, 0, Releasing(e));
    FineNext(s1, 0, LoadForRelease(e), s2);
    var s3 := Goto(s2.(refs := s2.refs[e := 0]), 0, Deleting(e));
    FineNext(s2, 0, Decrement(e), s3);
    var s4 := Goto(s3, 1, Loaded(e));
    FineNext(s3, 1, Load, s4);
    s := Goto(s4, 2, Loaded(e));
    FineNext(s4, 2, Load, s);
  }

  /** Then 1 increments the dying entry and is about to back out, with 2 about to increment it. */
  lemma TwoMeet(e: Entry) returns (s: State)
    requires e == Entry("l", 0)
    ensures FineReachable(s) && FineInv(s) && At(s, 2, Loaded(e)) && Backed(s, e)
    ensures s.table == map["l" := e] && s.refs == map[e := 1] && s.users.Keys == {0, 1, 2, 3}
    ensures s.users[0] == Local("l", Deleting(e)) && s.users[2] == Local("l", Loaded(e)) && Waiting(s, 3)
  {
    hide FineReachable, FineInv;
    var s0 := TwoLoadDying(e);
    s := Goto(s0.(refs := s0.refs[e := 1]), 1, BackingOut(e));
    assert DoIncrement(s0, 1, e, s);
    FineExtend(s0, s);
    assert !Backed(s0, e) by { assert forall u :: u in s0.users ==> u in {0, 1, 2, 3}; }
    OrderlyStepRefines(s0, s);
    assert BacksOut(s.users[1], e);
  }

  /** 2 increments it before 1 has backed out and believes it holds it, 0 deletes it from the map, and
      3 stores another: at the grain of single atomic operations the sharing does not hold. */
  lemma FinerGrainLosesTheMutex()
    ensures exists s :: FineReachable(s) && TwoMutexes(s)
  {
    hide FineReachable, FineInv;
    var e, f := Entry("l", 0), Entry("l", 1);
    var s1 := TwoMeet(e);
    var s2 := Goto(s1.(refs := s1.refs[e := 2]), 2, Holding(e));
    assert DoIncrement(s1, 2, e, s2);
    FineExtend(s1, s2);
    var s3 := Goto(s2.(table := s2.table - {"l"}), 0, Finished);
    FineNext(s2, 0, CompareAndDelete(e), s3);
    var s4 := Goto(s3.(table := s3.table["l" := f], refs := s3.refs[f := 1]), 3, Holding(f));
    FineNext(s3, 3, Store(f), s4);
    assert Holds(s4.users[2], e) && Holds(s4.users[3], f);
    assert TwoMutexes(s4);
  }
}
