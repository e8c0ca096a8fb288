/** The sections of Dial and Listen under mutexes taken by single atomic operations: what the
    overlap of `LeaseLockGrain` does to a token. */
module ListenGrain {
  import opened Common
  import opened ListenSections
  import L = LeaseLocks
  import G = LeaseLockGrain
  import Q = ListenQueues

  ghost predicate FineStep(s: State, s': State) {
    || (exists step: Step :: !(step.LockStep? && step.step.Bump?) && Next(s, step, s'))
    || (s' == s.(locks := s'.locks) && exists u, e :: G.DoIncrement(s.locks, u, e, s'.locks))
    || (s' == s.(locks := s'.locks) && exists u, e :: G.DoBackOut(s.locks, u, e, s'.locks))
  }

  ghost predicate FineRun(states: seq<State>) {
    && states != [] && Init(states[0])
    && forall i :: 0 <= i < |states| - 1 ==> FineStep(states[i], states[i + 1])
  }

  ghost predicate FineReachable(s: State) { exists states :: FineRun(states) && states[|states| - 1] == s }

  lemma Extend(s: State, s': State)
    requires FineReachable(s) && FineStep(s, s')
    ensures FineReachable(s')
  {
    hide FineStep;
    var states :| FineRun(states) && states[|states| - 1] == s;
    var longer := states + [s'];
    forall i | 0 <= i < |longer| - 1 ensures FineStep(longer[i], longer[i + 1]) {
      assert longer[i] == states[i];
      if i < |states| - 1 { assert FineStep(states[i], states[i + 1]); }
    }
    assert FineRun(longer) && longer[|longer| - 1] == s';
  }

  lemma Take(s: State, step: Step, s': State)
    requires FineReachable(s) && Next(s, step, s') && !(step.LockStep? && step.step.Bump?)
    ensures FineReachable(s')
  {
    hide FineReachable;
    Extend(s, s');
  }

  // ---------------------------------------------------------------- without overlap

  /** As `FineStep`, but no attempt increments an entry that another one is backing out of. */
  ghost predicate OrderlyStep(s: State, s': State) {
    || (exists step: Step :: !(step.LockStep? && step.step.Bump?) && Next(s, step, s'))
    || (s' == s.(locks := s'.locks) && exists u, e :: G.DoIncrement(s.locks, u, e, s'.locks) && !G.Backed(s.locks, e))
    || (s' == s.(locks := s'.locks) && exists u, e :: G.DoBackOut(s.locks, u, e, s'.locks))
  }

  ghost predicate OrderlyRun(states: seq<State>) {
    && states != [] && Init(states[0])
    && forall i :: 0 <= i < |states| - 1 ==> OrderlyStep(states[i], states[i + 1])
  }

  /** The same sections under the locks seen coarsely. */
  ghost function Lift(s: State): State { s.(locks := G.Coarse(s.locks)) }

  ghost predicate GrainInv(s: State) { G.FineInv(s.locks) && Inv(Lift(s)) }

  lemma CoarseKeepsLocal(s: State, u: User)
    ensures u in G.Coarse(s.locks).users <==> u in s.locks.users
    ensures u in s.locks.users && !s.locks.users[u].pc.BackingOut? ==> G.Coarse(s.locks).users[u] == s.locks.users[u]
    ensures u in s.locks.users ==> G.Coarse(s.locks).users[u].name == s.locks.users[u].name
    ensures Inside(Lift(s), u) <==> Inside(s, u)
  {
  }

  /** Steps inside sections and outside of locks do not see the grain of the locks. */
  lemma SectionStepLifts(s: State, step: Step, s': State)
    requires SectionStep(s, step, s')
    ensures SectionStep(Lift(s), step, Lift(s')) && s'.locks == s.locks
  {
    hide G.Coarse, Q.Next;
    CoarseKeepsLocal(s, step.u);
  }

  lemma LockStepLifts(s: State, u: User, l: L.Step, s': State)
    requires G.FineInv(s.locks) && Next(s, LockStep(u, l), s') && !l.Bump?
    ensures Next(Lift(s), LockStep(u, l), Lift(s')) && G.FineInv(s'.locks)
  {
    hide G.FineInv, G.Coarse, L.Next;
    FineInvOpens(s.locks);
    G.OtherStepRefines(s.locks, u, l, s'.locks);
    G.OrderlyStepRefines(s.locks, s'.locks);
  }

  lemma FineInvOpens(l: L.State)
    requires G.FineInv(l)
    ensures L.Inv(G.Coarse(l)) && G.OneBacker(l) && G.BackedCount(l)
  {
  }

  lemma OrderlyStepKeeps(s: State, s': State)
    requires GrainInv(s) && OrderlyStep(s, s')
    ensures GrainInv(s') && (Whole(s') == Whole(s) || Q.Steps(Whole(s), Whole(s')))
  {
    hide G.FineInv, G.Coarse, L.Next, Inv, Next, Q.Steps, Whole, G.DoIncrement, G.DoBackOut, G.Backed;
    WholeIsLifted(s);
    WholeIsLifted(s');
    if step: Step :| !(step.LockStep? && step.step.Bump?) && Next(s, step, s') {
      StepLifts(s, step, s');
      StepRefines(Lift(s), step, Lift(s'));
    } else if s' == s.(locks := s'.locks) && exists u, e :: G.DoIncrement(s.locks, u, e, s'.locks) && !G.Backed(s.locks, e) {
      var u, e :| G.DoIncrement(s.locks, u, e, s'.locks) && !G.Backed(s.locks, e);
      IncrementLifts(s, u, e, s');
    } else {
      var u, e :| G.DoBackOut(s.locks, u, e, s'.locks);
      BackOutLifts(s, u, e, s');
    }
  }

  lemma WholeIsLifted(s: State)
    ensures Whole(Lift(s)) == Whole(s)
  {
    assert forall q :: Superseding(Lift(s), q) <==> Superseding(s, q);
    hide Superseding;
    assert Whole(Lift(s)).queues == Whole(s).queues;
  }

  lemma StepLifts(s: State, step: Step, s': State)
    requires G.FineInv(s.locks) && Next(s, step, s') && !(step.LockStep? && step.step.Bump?)
    ensures Next(Lift(s), step, Lift(s')) && G.FineInv(s'.locks)
  {
    hide G.FineInv, G.Coarse, L.Next, Q.Next, SectionStep;
    match step
    case LockStep(u, l) => LockStepLifts(s, u, l, s');
    case QueueStep(move) =>
    case _ => SectionStepLifts(s, step, s');
  }

  lemma BumpLifts(s: State, u: User, e: L.Entry, s': State)
    requires GrainInv(s) && s' == s.(locks := s'.locks)
    requires L.Next(G.Coarse(s.locks), u, L.Bump(e), G.Coarse(s'.locks))
    ensures Inv(Lift(s')) && (Whole(Lift(s')) == Whole(Lift(s)) || Q.Steps(Whole(Lift(s)), Whole(Lift(s'))))
  {
    hide G.FineInv, G.Coarse, L.Next, Inv, Whole, Q.Steps;
    assert Next(Lift(s), LockStep(u, L.Bump(e)), Lift(s'));
    StepRefines(Lift(s), LockStep(u, L.Bump(e)), Lift(s'));
  }

  lemma IncrementLifts(s: State, u: User, e: L.Entry, s': State)
    requires GrainInv(s) && s' == s.(locks := s'.locks) && G.DoIncrement(s.locks, u, e, s'.locks) && !G.Backed(s.locks, e)
    ensures GrainInv(s') && (Whole(Lift(s')) == Whole(Lift(s)) || Q.Steps(Whole(Lift(s)), Whole(Lift(s'))))
  {
    hide G.FineInv, G.Coarse, L.Next, Inv, Whole, Q.Steps, G.DoIncrement, G.Backed;
    G.IncrementRefines(s.locks, u, e, s'.locks);
    G.OrderlyStepRefines(s.locks, s'.locks);
    if G.Coarse(s'.locks) != G.Coarse(s.locks) { BumpLifts(s, u, e, s'); }
  }

  lemma BackOutLifts(s: State, u: User, e: L.Entry, s': State)
    requires GrainInv(s) && s' == s.(locks := s'.locks) && G.DoBackOut(s.locks, u, e, s'.locks)
    ensures GrainInv(s') && (Whole(Lift(s')) == Whole(Lift(s)) || Q.Steps(Whole(Lift(s)), Whole(Lift(s'))))
  {
    hide G.FineInv, G.Coarse, L.Next, Inv, Whole, Q.Steps, G.DoBackOut;
    G.BackOutRefines(s.locks, u, e, s'.locks);
    G.OrderlyStepRefines(s.locks, s'.locks);
    BumpLifts(s, u, e, s');
  }

  lemma InitGrain(s: State)
    requires Init(s)
    ensures GrainInv(s) && WholeReachable(Whole(s))
  {
    assert G.Coarse(s.locks) == s.locks;
    InitInv(s);
    JustStarted(Whole(s));
  }

  /** Every orderly run of single atomic operations is, section by section, a run of
      `ListenQueues`. */
  lemma {:induction false} OrderlyRunRefines(states: seq<State>, i: nat)
    requires OrderlyRun(states) && i < |states|
    ensures GrainInv(states[i]) && WholeReachable(Whole(states[i]))
  {
    hide GrainInv, Whole, WholeReachable, OrderlyStep, Init, Q.Steps;
    if i == 0 {
      InitGrain(states[0]);
    } else {
      OrderlyRunRefines(states, i - 1);
      assert OrderlyStep(states[i - 1], states[i - 1 + 1]);
      OrderlyStepKeeps(states[i - 1], states[i]);
      if Whole(states[i]) != Whole(states[i - 1]) { WholeExtend(Whole(states[i - 1]), Whole(states[i])); }
    }
  }

  /** An attempt increments an entry that another one is backing out of. */
  ghost predicate Overlaps(s: State, s': State) {
    s' == s.(locks := s'.locks) && exists u, e :: G.DoIncrement(s.locks, u, e, s'.locks) && G.Backed(s.locks, e)
  }

  /** The send goes to a queue that is current for its lease and has not been told to stop. */
  ghost predicate SendsToLive(s: State, u: User) {
    && Inside(s, u) && u in s.sections && s.sections[u].Checked?
    && var q := s.sections[u].q;
       && q in s.queues.queues && Q.Live(s.queues.queues[q]) && s.queues.queues[q].lease == NameOf(s, u)
       && NameOf(s, u) in s.queues.current && s.queues.current[NameOf(s, u)] == q
  }

  lemma GrainSendsToLive(s: State, u: User, t: Token, s': State)
    requires GrainInv(s) && Next(s, Send(u, t), s')
    ensures SendsToLive(s, u)
  {
    hide G.FineInv, G.Coarse, L.Inv, Q.Inv;
    CoarseKeepsLocal(s, u);
    CheckedIsLive(Lift(s), u);
    assert SectionInv(Lift(s), u);
  }

  /** In every run of single atomic operations: a token is sent to a queue that is open and current
      at that moment, unless an increment overlapped a back-out before. */
  lemma LostTokenNeedsOverlap(states: seq<State>, i: nat, u: User, t: Token)
    requires FineRun(states) && i + 1 < |states| && Next(states[i], Send(u, t), states[i + 1])
    ensures SendsToLive(states[i], u) || exists k :: 0 <= k < i && Overlaps(states[k], states[k + 1])
  {
    hide Next, FineStep, OrderlyStep, Overlaps, Init, SendsToLive;
    if forall k :: 0 <= k < i ==> !Overlaps(states[k], states[k + 1]) {
      var prefix := states[..i + 1];
      forall k | 0 <= k < |prefix| - 1 ensures OrderlyStep(prefix[k], prefix[k + 1]) {
        assert FineStep(states[k], states[k + 1]) && !Overlaps(states[k], states[k + 1]);
        NoOverlapIsOrderly(states[k], states[k + 1]);
      }
      OrderlyRunRefines(prefix, i);
      GrainSendsToLive(states[i], u, t, states[i + 1]);
    }
  }

  lemma NoOverlapIsOrderly(s: State, s': State)
    requires FineStep(s, s') && !Overlaps(s, s')
    ensures OrderlyStep(s, s')
  {
    hide Next, G.DoIncrement, G.DoBackOut, G.Backed;
  }

  // ---------------------------------------------------------------- only locks

  const NO_QUEUES := Q.State(map[], map[], {})

  function OnlyLocks(l: L.State): State { State(l, NO_QUEUES, map[], map[]) }

  lemma LockRunLifts(l: L.State, l': L.State)
    requires G.FineSteps(l, l') && FineReachable(OnlyLocks(l))
    ensures FineReachable(OnlyLocks(l'))
  {
    hide FineReachable, L.Next;
    var s, s' := OnlyLocks(l), OnlyLocks(l');
    if u, step: L.Step :| !step.Bump? && L.Next(l, u, step, l') {
      assert Moved(s, u, step, l') == s';
      assert Next(s, LockStep(u, step), s');
      Take(s, LockStep(u, step), s');
    } else {
      Extend(s, s');
    }
  }

  lemma {:induction false} LocksLift(states: seq<L.State>, i: nat)
    requires G.FineRun(states) && i < |states|
    ensures FineReachable(OnlyLocks(states[i]))
  {
    if i == 0 {
      var s := OnlyLocks(states[0]);
      assert FineRun([s]) && [s][0] == s;
    } else {
      LocksLift(states, i - 1);
      hide FineReachable, G.FineSteps;
      assert G.FineSteps(states[i - 1], states[i - 1 + 1]);
      LockRunLifts(states[i - 1], states[i]);
    }
  }

  lemma OnlyLocksGrain(l: L.State)
    requires G.FineInv(l)
    ensures GrainInv(OnlyLocks(l))
  {
    hide G.FineInv, L.Inv;
    FineInvOpens(l);
    assert Whole(Lift(OnlyLocks(l))).queues == map[];
  }
}
