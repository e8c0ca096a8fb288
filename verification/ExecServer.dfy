/** The exec server's lifecycle: handler threads that spawn, register, reap and unregister
    children, and shutdown threads that mark the server as stopping and signal the children
    registered at that moment. The flag and the registered set share one mutex, so each
    operation on them is one step. */
module ExecServer {
  import opened Common

  type Pid = nat
  type HandlerId = nat
  type ShutdownId = nat

  // ---------------------------------------------------------------- the guarded state

  datatype Lifecycle = Lifecycle(shutdown: bool, children: set<Pid>)

  function Stopping(life: Lifecycle): Lifecycle { life.(shutdown := true) }

  function Enrolled(life: Lifecycle, pid: Pid): Lifecycle {
    if life.shutdown then life else life.(children := life.children + {pid})
  }

  function Struck(life: Lifecycle, pid: Pid): Lifecycle { life.(children := life.children - {pid}) }

  class RuntimeState {
    var shutdown: bool
    var children: set<Pid>

    function Value(): Lifecycle reads this { Lifecycle(shutdown, children) }

    constructor ()
      ensures Value() == Lifecycle(false, {})
    {
      shutdown, children := false, {};
    }

    method BeginShutdown() returns (pids: set<Pid>)
      modifies this
      ensures Value() == Stopping(old(Value())) && pids == children
    {
      shutdown := true;
      pids := children;
    }

    method RegisterChild(pid: Pid) returns (ok: bool)
      modifies this
      ensures ok == !old(shutdown) && Value() == Enrolled(old(Value()), pid)
    {
      if shutdown { return false; }
      children := children + {pid};
      return true;
    }

    method UnregisterChild(pid: Pid)
      modifies this
      ensures Value() == Struck(old(Value()), pid)
    {
      children := children - {pid};
    }
  }

  // ---------------------------------------------------------------- threads

  datatype Phase =
    | Spawned                     // the child runs, not yet registered
    | Registered
    | Abandoned                   // the handler failed after registering; nobody waits for the child
    | Reaped                      // waited for, not yet unregistered
    | Finished                    // unregistered
    | Rejected                    // registration refused
    | Signalled                   // refused and sent SIGTERM
    | Waited                      // refused, signalled and waited for

  datatype Handler = Handler(pid: Pid, phase: Phase)

  datatype State = State(
    life: Lifecycle, handlers: map<HandlerId, Handler>,
    snapshot: Option<set<Pid>>, toSignal: map<ShutdownId, set<Pid>>, signalled: set<Pid>)

  datatype Step =
    | Spawn(h: HandlerId, pid: Pid)
    | Register(h: HandlerId)
    | SignalRejected(h: HandlerId)
    | WaitRejected(h: HandlerId)
    | Abandon(h: HandlerId)
    | Reap(h: HandlerId)
    | Unregister(h: HandlerId)
    | BeginShutdown(t: ShutdownId)
    | Signal(t: ShutdownId, pid: Pid)

  predicate Init(s: State) { s == State(Lifecycle(false, {}), map[], None, map[], {}) }

  /** The kernel keeps a pid in use until the child is waited for. */
  predicate InUse(x: Handler) {
    x.phase.Spawned? || x.phase.Registered? || x.phase.Abandoned? || x.phase.Rejected? || x.phase.Signalled?
  }

  predicate PidFree(s: State, pid: Pid) { forall h :: h in s.handlers && InUse(s.handlers[h]) ==> s.handlers[h].pid != pid }

  predicate In(s: State, h: HandlerId, phase: Phase) { h in s.handlers && s.handlers[h].phase == phase }

  function Goto(s: State, h: HandlerId, phase: Phase): State
    requires h in s.handlers
  {
    s.(handlers := s.handlers[h := s.handlers[h].(phase := phase)])
  }

  predicate Next(s: State, step: Step, s': State) {
    match step
    case Spawn(h, pid) =>
      h !in s.handlers && PidFree(s, pid) && s' == s.(handlers := s.handlers[h := Handler(pid, Spawned)])
    case Register(h) =>
      && In(s, h, Spawned)
      && s' == Goto(s.(life := Enrolled(s.life, s.handlers[h].pid)), h, if s.life.shutdown then Rejected else Registered)
    case SignalRejected(h) =>
      In(s, h, Rejected) && s' == Goto(s, h, Signalled)
    case WaitRejected(h) =>
      In(s, h, Signalled) && s' == Goto(s, h, Waited)
    case Abandon(h) =>
      In(s, h, Registered) && s' == Goto(s, h, Abandoned)
    case Reap(h) =>
      In(s, h, Registered) && s' == Goto(s, h, Reaped)
    case Unregister(h) =>
      In(s, h, Reaped) && s' == Goto(s.(life := Struck(s.life, s.handlers[h].pid)), h, Finished)
    case BeginShutdown(t) =>
      && t !in s.toSignal
      && s' == s.(life := Stopping(s.life), toSignal := s.toSignal[t := s.life.children],
                  snapshot := if s.snapshot.None? then Some(s.life.children) else s.snapshot)
    case Signal(t, pid) =>
      && t in s.toSignal && pid in s.toSignal[t]
      && s' == s.(toSignal := s.toSignal[t := s.toSignal[t] - {pid}], signalled := s.signalled + {pid})
  }

  ghost predicate Steps(s: State, s': State) { exists step :: Next(s, step, s') }

  ghost predicate Run(states: seq<State>) {
    && states != [] && Init(states[0])
    && forall i :: 0 <= i < |states| - 1 ==> Steps(states[i], states[i + 1])
  }

  // ---------------------------------------------------------------- always true

  ghost predicate ShutdownInv(s: State) {
    && (s.life.shutdown <==> s.snapshot.Some?)
    && (s.life.shutdown ==> s.life.children <= s.snapshot.value)
    && (s.life.shutdown ==> forall p :: p in s.snapshot.value ==> p in s.signalled || exists t :: t in s.toSignal && p in s.toSignal[t])
  }

  lemma ShutdownInvKept(s: State, step: Step, s': State)
    requires ShutdownInv(s) && Next(s, step, s')
    ensures ShutdownInv(s')
    ensures s.life.shutdown ==> s'.life.shutdown && s'.life.children <= s.life.children && s'.snapshot == s.snapshot
  {
    if step.BeginShutdown? {
      assert step.t in s'.toSignal && s'.toSignal[step.t] == s.life.children;
      if s.life.shutdown {
        forall p | p in s.snapshot.value ensures p in s'.signalled || exists t :: t in s'.toSignal && p in s'.toSignal[t] {
          if p !in s.signalled {
            var t :| t in s.toSignal && p in s.toSignal[t];
            assert t in s'.toSignal && p in s'.toSignal[t];
          }
        }
      }
    } else if s.life.shutdown {
      forall p | p in s.snapshot.value ensures p in s'.signalled || exists t :: t in s'.toSignal && p in s'.toSignal[t] {
        if p !in s'.signalled {
          var t :| t in s.toSignal && p in s.toSignal[t];
          assert t in s'.toSignal && p in s'.toSignal[t];
        }
      }
    }
  }

  lemma {:induction false} RunShutdownInv(states: seq<State>, i: nat)
    requires Run(states) && i < |states|
    ensures ShutdownInv(states[i])
  {
    if i > 0 {
      RunShutdownInv(states, i - 1);
      assert Steps(states[i - 1], states[i - 1 + 1]);
      var step :| Next(states[i - 1], step, states[i]);
      ShutdownInvKept(states[i - 1], step, states[i]);
    }
  }

  /** In every interleaving: once shutdown is marked the registered set only shrinks, and stays
      within the first shutdown's snapshot, which never changes. */
  lemma {:induction false} RegisteredOnlyShrinks(states: seq<State>, i: nat, j: nat)
    requires Run(states) && i <= j < |states| && states[i].life.shutdown
    ensures states[j].life.shutdown && states[j].life.children <= states[i].life.children
    ensures states[i].snapshot.Some? && states[j].snapshot == states[i].snapshot
    ensures states[j].life.children <= states[i].snapshot.value
    decreases j
  {
    hide Next, Init;
    RunShutdownInv(states, i);
    RunShutdownInv(states, j);
    if i < j {
      RegisteredOnlyShrinks(states, i, j - 1);
      RunShutdownInv(states, j - 1);
      assert Steps(states[j - 1], states[j - 1 + 1]);
      var step :| Next(states[j - 1], step, states[j]);
      ShutdownInvKept(states[j - 1], step, states[j]);
    }
  }

  /** Once every shutdown thread has finished, everything in the snapshot was signalled. */
  lemma SnapshotIsSignalled(states: seq<State>, i: nat)
    requires Run(states) && i < |states| && states[i].life.shutdown
    requires forall t :: t in states[i].toSignal ==> states[i].toSignal[t] == {}
    ensures states[i].snapshot.Some? && states[i].snapshot.value <= states[i].signalled
  {
    RunShutdownInv(states, i);
  }

  // ---------------------------------------------------------------- no child goes missing

  /** From a successful registration to the unregistration. */
  predicate IsTracked(x: Handler) { x.phase.Registered? || x.phase.Abandoned? || x.phase.Reaped? }

  /** Every registered child is in the set the next shutdown will signal. */
  ghost predicate NoneMissing(s: State) {
    forall h :: h in s.handlers && IsTracked(s.handlers[h]) ==> s.handlers[h].pid in s.life.children
  }

  /** What a handler could check before it registers: the pid it was given is not still in the
      set on behalf of a child already waited for. */
  predicate FreshRegistration(s: State, step: Step) {
    step.Register? && step.h in s.handlers && !s.life.shutdown ==> s.handlers[step.h].pid !in s.life.children
  }

  ghost predicate FreshSteps(s: State, s': State) { exists step :: Next(s, step, s') && FreshRegistration(s, step) }

  ghost predicate FreshRun(states: seq<State>) {
    && states != [] && Init(states[0])
    && forall i :: 0 <= i < |states| - 1 ==> FreshSteps(states[i], states[i + 1])
  }

  predicate TracksPid(s: State, h: HandlerId, p: Pid) { h in s.handlers && IsTracked(s.handlers[h]) && s.handlers[h].pid == p }

  ghost predicate TrackInv(s: State) { NoneMissing(s) && PidsTracked(s) && OneTracker(s) && PidsInUseDiffer(s) }

  ghost predicate PidsTracked(s: State) { forall p :: p in s.life.children ==> exists h :: TracksPid(s, h, p) }

  ghost predicate OneTracker(s: State) { forall g, h, p :: TracksPid(s, g, p) && TracksPid(s, h, p) ==> g == h }

  ghost predicate PidsInUseDiffer(s: State) {
    forall g, h :: g in s.handlers && h in s.handlers && g != h && InUse(s.handlers[g]) && InUse(s.handlers[h]) ==>
      s.handlers[g].pid != s.handlers[h].pid
  }

  lemma PidsTrackedKept(s: State, step: Step, s': State)
    requires PidsTracked(s) && Next(s, step, s')
    ensures PidsTracked(s')
  {
    forall p | p in s'.life.children ensures exists h :: TracksPid(s', h, p) {
      if step.Register? && !s.life.shutdown && p == s.handlers[step.h].pid {
        assert TracksPid(s', step.h, p);
      } else {
        var h :| TracksPid(s, h, p);
        assert TracksPid(s', h, p);
      }
    }
  }

  lemma OneTrackerKept(s: State, step: Step, s': State)
    requires NoneMissing(s) && OneTracker(s) && Next(s, step, s') && FreshRegistration(s, step)
    ensures OneTracker(s')
  {
    forall g, h, p | TracksPid(s', g, p) && TracksPid(s', h, p) ensures g == h {
      if step.Register? && !s.life.shutdown {
        assert g != step.h ==> TracksPid(s, g, p);
        assert h != step.h ==> TracksPid(s, h, p);
      } else {
        assert TracksPid(s, g, p) && TracksPid(s, h, p);
      }
    }
  }

  lemma PidsInUseKept(s: State, step: Step, s': State)
    requires PidsInUseDiffer(s) && Next(s, step, s')
    ensures PidsInUseDiffer(s')
  {
  }

  lemma TrackInvKept(s: State, step: Step, s': State)
    requires TrackInv(s) && Next(s, step, s') && FreshRegistration(s, step)
    ensures TrackInv(s')
  {
    hide Next, NoneMissing, PidsTracked, OneTracker, PidsInUseDiffer;
    PidsTrackedKept(s, step, s');
    OneTrackerKept(s, step, s');
    PidsInUseKept(s, step, s');
    StepAfterFresh(s, step, s');
  }

  lemma {:induction false} RunTrackInv(states: seq<State>, i: nat)
    requires FreshRun(states) && i < |states|
    ensures TrackInv(states[i]) && ShutdownInv(states[i])
  {
    if i > 0 {
      RunTrackInv(states, i - 1);
      assert FreshSteps(states[i - 1], states[i - 1 + 1]);
      var step :| Next(states[i - 1], step, states[i]) && FreshRegistration(states[i - 1], step);
      TrackInvKept(states[i - 1], step, states[i]);
      ShutdownInvKept(states[i - 1], step, states[i]);
    }
  }

  /** Never registered. */
  predicate Outside(x: Handler) { x.phase.Spawned? || x.phase.Rejected? || x.phase.Signalled? || x.phase.Waited? }

  /** In every interleaving: a child not registered by the time of the shutdown never is; it can
      only be refused, sent SIGTERM and waited for, in that order. */
  lemma {:induction false} NoneRegisteredAfterShutdown(states: seq<State>, i: nat, j: nat, h: HandlerId)
    requires Run(states) && i <= j < |states| && states[i].life.shutdown && h in states[j].handlers
    requires h in states[i].handlers ==> Outside(states[i].handlers[h])
    ensures Outside(states[j].handlers[h])
    decreases j
  {
    hide Next, Init, Outside;
    if i < j {
      RegisteredOnlyShrinks(states, i, j - 1);
      assert Steps(states[j - 1], states[j - 1 + 1]);
      var step :| Next(states[j - 1], step, states[j]);
      if h in states[j - 1].handlers { NoneRegisteredAfterShutdown(states, i, j - 1, h); }
      StaysOutside(states[j - 1], step, states[j], h);
    }
  }

  /** In every interleaving a refused child is waited for only after it was sent SIGTERM, and sent
      SIGTERM only after it was refused. */
  lemma {:induction false} RefusedIsTerminated(states: seq<State>, i: nat, h: HandlerId) returns (j: nat)
    requires Run(states) && i < |states| && h in states[i].handlers
    requires states[i].handlers[h].phase.Waited? || states[i].handlers[h].phase.Signalled?
    ensures j < i && h in states[j].handlers
    ensures states[i].handlers[h].phase.Waited? ==> states[j].handlers[h].phase.Signalled?
    ensures states[i].handlers[h].phase.Signalled? ==> states[j].handlers[h].phase.Rejected?
  {
    hide Next;
    assert i > 0;
    assert Steps(states[i - 1], states[i - 1 + 1]);
    var step :| Next(states[i - 1], step, states[i]);
    PhaseBefore(states[i - 1], step, states[i], h);
    if states[i - 1].handlers[h].phase == states[i].handlers[h].phase {
      j := RefusedIsTerminated(states, i - 1, h);
    } else {
      j := i - 1;
    }
  }

  lemma PhaseBefore(s: State, step: Step, s': State, h: HandlerId)
    requires Next(s, step, s') && h in s'.handlers && (s'.handlers[h].phase.Waited? || s'.handlers[h].phase.Signalled?)
    ensures h in s.handlers
    ensures s.handlers[h].phase == s'.handlers[h].phase
            || (s'.handlers[h].phase.Waited? && s.handlers[h].phase.Signalled?)
            || (s'.handlers[h].phase.Signalled? && s.handlers[h].phase.Rejected?)
  {
  }

  lemma StaysOutside(s: State, step: Step, s': State, h: HandlerId)
    requires Next(s, step, s') && s.life.shutdown && h in s'.handlers
    requires h in s.handlers ==> Outside(s.handlers[h])
    ensures Outside(s'.handlers[h])
  {
  }

  /** The freshness condition is exact. From any state where nothing is missing, registering a
      child can be followed by a step that loses it exactly when its pid is still in the set:
      the handler of the reaped child then unregisters the new one. */
  lemma StaleRegistrationLosesChild(s: State, h: HandlerId, s': State)
    requires TrackInv(s) && Next(s, Register(h), s') && !s.life.shutdown
    ensures s.handlers[h].pid in s.life.children <==> exists step, s'' :: Next(s', step, s'') && !NoneMissing(s'')
  {
    var p := s.handlers[h].pid;
    if p in s.life.children {
      var g :| TracksPid(s, g, p);
      assert g != h;
      assert s.handlers[g].phase.Reaped?;
      var s'' := Goto(s'.(life := Struck(s'.life, p)), g, Finished);
      assert In(s', g, Reaped) && s'.handlers[g].pid == p;
      assert Next(s', Unregister(g), s'');
      assert h in s''.handlers && IsTracked(s''.handlers[h]) && s''.handlers[h].pid !in s''.life.children;
    } else {
      TrackInvKept(s, Register(h), s');
      forall step, s'' | Next(s', step, s'') ensures NoneMissing(s'') {
        StepAfterFresh(s', step, s'');
      }
    }
  }

  /** One step from a state where pids are tracked exactly never loses a child. */
  lemma StepAfterFresh(s: State, step: Step, s': State)
    requires TrackInv(s) && Next(s, step, s')
    ensures NoneMissing(s')
  {
    forall h | h in s'.handlers && IsTracked(s'.handlers[h]) ensures s'.handlers[h].pid in s'.life.children {
      if h in s.handlers && IsTracked(s.handlers[h]) {
        assert TracksPid(s, h, s.handlers[h].pid);
        if step.Unregister? { assert TracksPid(s, step.h, s.handlers[step.h].pid); }
      }
    }
  }

  // ---------------------------------------------------------------- exactly which children are kept

  /** Registered, and not waited for yet. */
  predicate Running(x: Handler) { x.phase.Registered? || x.phase.Abandoned? }

  predicate Enlisted(x: Handler) { Running(x) || x.phase.Reaped? || x.phase.Finished? }

  /** The step unregisters a child with this pid. */
  ghost predicate Strikes(s: State, s': State, pid: Pid) {
    exists h :: h in s.handlers && s.handlers[h].pid == pid && Next(s, Unregister(h), s')
  }

  lemma {:induction false} RunPidsDiffer(states: seq<State>, i: nat)
    requires Run(states) && i < |states|
    ensures PidsInUseDiffer(states[i])
  {
    if i > 0 {
      RunPidsDiffer(states, i - 1);
      assert Steps(states[i - 1], states[i - 1 + 1]);
      var step :| Next(states[i - 1], step, states[i]);
      PidsInUseKept(states[i - 1], step, states[i]);
    }
  }

  lemma {:induction false} AfterRegistration(states: seq<State>, r: nat, i: nat, h: HandlerId)
    requires Run(states) && r <= i < |states| && h in states[r].handlers && Enlisted(states[r].handlers[h])
    ensures h in states[i].handlers && states[i].handlers[h].pid == states[r].handlers[h].pid && Enlisted(states[i].handlers[h])
    decreases i
  {
    hide Next, Enlisted, Init;
    if r < i {
      AfterRegistration(states, r, i - 1, h);
      assert Steps(states[i - 1], states[i - 1 + 1]);
      var step :| Next(states[i - 1], step, states[i]);
      StaysEnlisted(states[i - 1], step, states[i], h);
    }
  }

  lemma StaysEnlisted(s: State, step: Step, s': State, h: HandlerId)
    requires Next(s, step, s') && h in s.handlers && Enlisted(s.handlers[h])
    ensures h in s'.handlers && s'.handlers[h].pid == s.handlers[h].pid && Enlisted(s'.handlers[h])
    ensures Running(s'.handlers[h]) ==> Running(s.handlers[h])
  {
  }

  /** No child with this pid is unregistered in this part of the run. */
  ghost predicate NeverStruck(states: seq<State>, lo: nat, hi: nat, pid: Pid)
    requires hi < |states|
  {
    forall k :: lo <= k < hi ==> !Strikes(states[k], states[k + 1], pid)
  }

  lemma NeverStruckExtends(states: seq<State>, lo: nat, hi: nat, pid: Pid)
    requires lo < hi < |states|
    ensures NeverStruck(states, lo, hi, pid) <==> NeverStruck(states, lo, hi - 1, pid) && !Strikes(states[hi - 1], states[hi], pid)
  {
    hide Strikes;
    assert Strikes(states[hi - 1], states[hi - 1 + 1], pid) == Strikes(states[hi - 1], states[hi], pid);
  }

  lemma StepKeepsChild(s: State, step: Step, s': State, h: HandlerId)
    requires PidsInUseDiffer(s) && Next(s, step, s') && h in s.handlers && Enlisted(s.handlers[h])
    requires h in s'.handlers && Running(s'.handlers[h])
    ensures Running(s.handlers[h])
    ensures s.handlers[h].pid in s'.life.children <==> s.handlers[h].pid in s.life.children && !Strikes(s, s', s.handlers[h].pid)
  {
    var pid := s.handlers[h].pid;
    if step.Unregister? && s.handlers[step.h].pid == pid { assert Strikes(s, s', pid); }
    if step.Register? { assert InUse(s.handlers[step.h]) && InUse(s.handlers[h]); }
  }

  /** In every interleaving, pids reused or not: a registered child that still runs is in the set
      exactly when no child with its pid was unregistered since. */
  lemma {:induction false} ChildKeptIff(states: seq<State>, r: nat, i: nat, h: HandlerId)
    requires Run(states) && r < i < |states| && !states[r].life.shutdown && Next(states[r], Register(h), states[r + 1])
    requires h in states[i].handlers && Running(states[i].handlers[h])
    ensures states[i].handlers[h].pid in states[i].life.children <==> NeverStruck(states, r + 1, i, states[i].handlers[h].pid)
    decreases i
  {
    hide Next, Strikes, Init, Enlisted, Running, PidsInUseDiffer;
    JustRegistered(states[r], h, states[r + 1]);
    if r + 1 < i {
      hide NeverStruck;
      AfterRegistration(states, r + 1, i - 1, h);
      AfterRegistration(states, r + 1, i, h);
      RunPidsDiffer(states, i - 1);
      assert Steps(states[i - 1], states[i - 1 + 1]);
      var step :| Next(states[i - 1], step, states[i]);
      StepKeepsChild(states[i - 1], step, states[i], h);
      ChildKeptIff(states, r, i - 1, h);
      NeverStruckExtends(states, r + 1, i, states[i].handlers[h].pid);
    }
  }

  lemma JustRegistered(s: State, h: HandlerId, s': State)
    requires Next(s, Register(h), s') && !s.life.shutdown
    ensures h in s'.handlers && Enlisted(s'.handlers[h]) && s'.handlers[h].pid in s'.life.children
  {
  }

  lemma {:induction false} RunningBefore(states: seq<State>, r: nat, b: nat, i: nat, h: HandlerId)
    requires Run(states) && r <= b <= i < |states| && h in states[r].handlers && Enlisted(states[r].handlers[h])
    requires h in states[i].handlers && Running(states[i].handlers[h])
    ensures h in states[b].handlers && Running(states[b].handlers[h]) && states[b].handlers[h].pid == states[i].handlers[h].pid
    decreases i
  {
    hide Next, Enlisted, Running, Init;
    AfterRegistration(states, r, i, h);
    if b < i {
      AfterRegistration(states, r, i - 1, h);
      assert Steps(states[i - 1], states[i - 1 + 1]);
      var step :| Next(states[i - 1], step, states[i]);
      StaysEnlisted(states[i - 1], step, states[i], h);
      RunningBefore(states, r, b, i - 1, h);
    }
  }

  /** In every interleaving: a child registered at `r` that still runs after the shutdown at `b` is
      in the first snapshot exactly when no child with its pid was unregistered in between; and it
      is then signalled, once the shutdown threads are done. */
  lemma RunningChildInSnapshot(states: seq<State>, r: nat, b: nat, i: nat, h: HandlerId, t: ShutdownId)
    requires Run(states) && r < b < i < |states| && Next(states[r], Register(h), states[r + 1])
    requires !states[r].life.shutdown && !states[b].life.shutdown && Next(states[b], BeginShutdown(t), states[b + 1])
    requires h in states[i].handlers && Running(states[i].handlers[h])
    ensures states[i].snapshot.Some?
    ensures states[i].handlers[h].pid in states[i].snapshot.value <==> NeverStruck(states, r + 1, b, states[i].handlers[h].pid)
    ensures (NeverStruck(states, r + 1, b, states[i].handlers[h].pid)
             && forall u :: u in states[i].toSignal ==> states[i].toSignal[u] == {})
            ==> states[i].handlers[h].pid in states[i].signalled
  {
    RunningBefore(states, r + 1, b, i, h);
    ChildKeptIff(states, r, b, h);
    RunShutdownInv(states, b);
    RegisteredOnlyShrinks(states, b + 1, i);
    RunShutdownInv(states, i);
  }

  /** In every interleaving: a child registered at `r` and still tracked after the shutdown at `b`,
      running or waited for, is in the snapshot and gets signalled unless a child with its pid was
      unregistered before the shutdown. */
  lemma EveryChildAccountedFor(states: seq<State>, r: nat, b: nat, i: nat, h: HandlerId, t: ShutdownId)
    requires Run(states) && r < b < i < |states| && Next(states[r], Register(h), states[r + 1])
    requires !states[r].life.shutdown && !states[b].life.shutdown && Next(states[b], BeginShutdown(t), states[b + 1])
    requires h in states[i].handlers && IsTracked(states[i].handlers[h])
    ensures states[i].snapshot.Some?
    ensures NeverStruck(states, r + 1, b, states[i].handlers[h].pid) ==>
              && states[i].handlers[h].pid in states[i].snapshot.value
              && ((forall u :: u in states[i].toSignal ==> states[i].toSignal[u] == {}) ==> states[i].handlers[h].pid in states[i].signalled)
  {
    JustRegistered(states[r], h, states[r + 1]);
    AfterRegistration(states, r + 1, i, h);
    if NeverStruck(states, r + 1, b, states[i].handlers[h].pid) { StaysInSet(states, r + 1, b, states[i].handlers[h].pid); }
    RunShutdownInv(states, b);
    RegisteredOnlyShrinks(states, b + 1, i);
    RunShutdownInv(states, i);
  }

  lemma {:induction false} StaysInSet(states: seq<State>, lo: nat, hi: nat, pid: Pid)
    requires Run(states) && lo <= hi < |states| && pid in states[lo].life.children && NeverStruck(states, lo, hi, pid)
    ensures pid in states[hi].life.children
    decreases hi
  {
    hide Next, Init, Strikes, NeverStruck;
    if lo < hi {
      NeverStruckExtends(states, lo, hi, pid);
      StaysInSet(states, lo, hi - 1, pid);
      assert Steps(states[hi - 1], states[hi - 1 + 1]);
      var step :| Next(states[hi - 1], step, states[hi]);
      OnlyStrikesRemove(states[hi - 1], step, states[hi], pid);
    }
  }

  lemma OnlyStrikesRemove(s: State, step: Step, s': State, pid: Pid)
    requires Next(s, step, s') && pid in s.life.children && !Strikes(s, s', pid)
    ensures pid in s'.life.children
  {
    assert step.Unregister? && s.handlers[step.h].pid == pid ==> Strikes(s, s', pid);
  }

  /** With fresh registrations nothing is ever lost. */
  lemma FreshRunsLoseNothing(states: seq<State>, i: nat, h: HandlerId)
    requires FreshRun(states) && i < |states| && h in states[i].handlers && IsTracked(states[i].handlers[h])
    ensures states[i].handlers[h].pid in states[i].life.children
  {
    RunTrackInv(states, i);
  }

  // ---------------------------------------------------------------- a child that is lost

  ghost predicate Reachable(s: State) { exists states :: Run(states) && states[|states| - 1] == s }

  lemma Extend(s: State, step: Step, s': State)
    requires Reachable(s) && Next(s, step, s')
    ensures Reachable(s')
  {
    var states :| Run(states) && states[|states| - 1] == s;
    var longer := states + [s'];
    forall i | 0 <= i < |longer| - 1 ensures Steps(longer[i], longer[i + 1]) {
      assert longer[i] == states[i];
      if i < |states| - 1 { assert Steps(states[i], states[i + 1]); }
    }
    assert Run(longer) && longer[|longer| - 1] == s';
  }

  /** It does happen: the kernel hands the pid of a child that was just waited for to the next
      one, whose registration the first handler then takes away. */
  lemma ReusedPidLosesChild(pid: Pid)
    ensures exists s :: Reachable(s) && !s.life.shutdown && !NoneMissing(s)
  {
    var s0 := State(Lifecycle(false, {}), map[], None, map[], {});
    assert Run([s0]) && [s0][0] == s0;
    var s1 := s0.(handlers := s0.handlers[0 := Handler(pid, Spawned)]);
    Extend(s0, Spawn(0, pid), s1);
    var s2 := Goto(s1.(life := Enrolled(s1.life, pid)), 0, Registered);
    Extend(s1, Register(0), s2);
    var s3 := Goto(s2, 0, Reaped);
    Extend(s2, Reap(0), s3);
    var s4 := s3.(handlers := s3.handlers[1 := Handler(pid, Spawned)]);
    Extend(s3, Spawn(1, pid), s4);
    var s5 := Goto(s4.(life := Enrolled(s4.life, pid)), 1, Registered);
    Extend(s4, Register(1), s5);
    var s6 := Goto(s5.(life := Struck(s5.life, pid)), 0, Finished);
    Extend(s5, Unregister(0), s6);
    assert 1 in s6.handlers && IsTracked(s6.handlers[1]) && s6.handlers[1].pid !in s6.life.children;
  }
}
