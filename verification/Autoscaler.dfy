/** One reconciliation of an ExporterSet: delete drained and finished instances, else create
    one instance if a rule asks for it, else disable one idle instance per cooldown. */
module Autoscaler {
  import opened Common
  import opened LeaseTimes

  datatype PodPhase = Pending | Live | Succeeded | Failed

  /** One owned exporter and the phases of its pods. */
  datatype Instance = Instance(name: string, enabled: bool, online: bool, leased: bool, pods: seq<PodPhase>)

  type Pool = seq<Instance>

  datatype Spec = Spec(minReplicas: nat, maxReplicas: nat, minAvailable: nat, cooldown: int, inPlaceReuse: bool)

  // ---------------------------------------------------------------- counting

  function Count(pool: Pool, p: Instance -> bool): nat {
    if pool == [] then 0 else (if p(pool[0]) then 1 else 0) + Count(pool[1..], p)
  }

  function Select(pool: Pool, p: Instance -> bool): Pool {
    if pool == [] then [] else (if p(pool[0]) then [pool[0]] else []) + Select(pool[1..], p)
  }

  predicate IsLeased(x: Instance) { x.leased }
  predicate IsOnline(x: Instance) { x.online }
  predicate IsEnabled(x: Instance) { x.enabled }
  predicate IsAvailable(x: Instance) { x.online && x.enabled && !x.leased }

  lemma {:induction false} CountConcat(a: Pool, b: Pool, p: Instance -> bool)
    ensures Count(a + b, p) == Count(a, p) + Count(b, p)
  {
    if a == [] {
      assert a + b == b;
    } else {
      assert (a + b)[1..] == a[1..] + b;
      CountConcat(a[1..], b, p);
    }
  }

  lemma CountAppend(a: Pool, x: Instance, p: Instance -> bool)
    ensures Count(a + [x], p) == Count(a, p) + if p(x) then 1 else 0
  {
    CountConcat(a, [x], p);
  }

  lemma CountUpdate(pool: Pool, i: nat, x: Instance, p: Instance -> bool)
    requires i < |pool|
    ensures Count(pool[i := x], p) == Count(pool, p) - (if p(pool[i]) then 1 else 0) + (if p(x) then 1 else 0)
  {
    assert pool == pool[..i] + [pool[i]] + pool[i + 1..];
    assert pool[i := x] == pool[..i] + [x] + pool[i + 1..];
    CountConcat(pool[..i] + [pool[i]], pool[i + 1..], p);
    CountConcat(pool[..i] + [x], pool[i + 1..], p);
    CountAppend(pool[..i], pool[i], p);
    CountAppend(pool[..i], x, p);
  }

  /** A weaker condition holds of at least as many; two conditions apart add up. */
  lemma {:induction false} CountImplied(pool: Pool, p: Instance -> bool, q: Instance -> bool)
    requires forall x :: p(x) ==> q(x)
    ensures Count(pool, p) <= Count(pool, q) <= |pool|
  {
    if pool != [] { CountImplied(pool[1..], p, q); }
  }

  lemma {:induction false} CountComplement(pool: Pool, p: Instance -> bool, q: Instance -> bool)
    requires forall x :: q(x) <==> !p(x)
    ensures Count(pool, p) + Count(pool, q) == |pool|
  {
    if pool != [] { CountComplement(pool[1..], p, q); }
  }

  lemma {:induction false} CountZero(pool: Pool, p: Instance -> bool)
    ensures Count(pool, p) == 0 <==> forall x :: x in pool ==> !p(x)
  {
    if pool != [] {
      assert pool == [pool[0]] + pool[1..];
      CountZero(pool[1..], p);
    }
  }

  /** Selecting keeps every count of a condition the selection implies or contains. */
  lemma {:induction false} CountSelect(pool: Pool, keep: Instance -> bool, p: Instance -> bool)
    requires forall x :: p(x) ==> keep(x)
    ensures Count(Select(pool, keep), p) == Count(pool, p)
    ensures |Select(pool, keep)| == Count(pool, keep)
    ensures forall x :: x in Select(pool, keep) <==> x in pool && keep(x)
  {
    if pool != [] {
      CountSelect(pool[1..], keep, p);
      assert pool == [pool[0]] + pool[1..];
      var rest := Select(pool[1..], keep);
      if keep(pool[0]) {
        var kept := [pool[0]] + rest;
        assert kept[1..] == rest;
      } else {
        assert !p(pool[0]) && Select(pool, keep) == rest;
      }
    }
  }

  lemma {:induction false} SelectSelect(pool: Pool, keep: Instance -> bool, p: Instance -> bool)
    requires forall x :: p(x) ==> keep(x)
    ensures Select(Select(pool, keep), p) == Select(pool, p)
  {
    if pool != [] {
      SelectSelect(pool[1..], keep, p);
      var rest := Select(pool[1..], keep);
      if keep(pool[0]) {
        var kept := [pool[0]] + rest;
        assert Select(pool, keep) == kept && kept[1..] == rest;
      } else {
        assert Select(pool, keep) == rest;
      }
    }
  }

  lemma {:induction false} SelectConcat(a: Pool, b: Pool, p: Instance -> bool)
    ensures Select(a + b, p) == Select(a, p) + Select(b, p)
  {
    if a == [] {
      assert a + b == b;
    } else {
      assert (a + b)[0] == a[0] && (a + b)[1..] == a[1..] + b;
      SelectConcat(a[1..], b, p);
      var head := if p(a[0]) then [a[0]] else [];
      var x, y := Select(a[1..], p), Select(b, p);
      assert Select(a + b, p) == head + (x + y) && Select(a, p) == head + x;
      assert head + (x + y) == (head + x) + y;
    }
  }

  // ---------------------------------------------------------------- the pool state

  datatype PoolState = PoolState(replicas: int, ready: int, available: int, leased: int)

  function StateOf(pool: Pool): PoolState {
    PoolState(|pool|, Count(pool, IsOnline), Count(pool, IsAvailable), Count(pool, IsLeased))
  }

  method ComputePoolState(pool: Pool) returns (s: PoolState)
    ensures s == StateOf(pool)
    ensures s.available + s.leased <= s.replicas && s.available <= s.ready
  {
    s := PoolState(0, 0, 0, 0);
    for i := 0 to |pool|
      invariant s == StateOf(pool[..i])
    {
      var x := pool[i];
      assert pool[..i + 1] == pool[..i] + [x];
      CountAppend(pool[..i], x, IsOnline);
      CountAppend(pool[..i], x, IsAvailable);
      CountAppend(pool[..i], x, IsLeased);
      s := s.(replicas := s.replicas + 1);
      if x.online { s := s.(ready := s.ready + 1); }
      if x.leased { s := s.(leased := s.leased + 1); }
      if x.online && x.enabled && !x.leased { s := s.(available := s.available + 1); }
    }
    assert pool[..|pool|] == pool;
    CountImplied(pool, IsAvailable, IsOnline);
    CountImplied(pool, IsAvailable, IsFree);
    CountComplement(pool, IsLeased, IsFree);
  }

  predicate IsFree(x: Instance) { !x.leased }

  // ---------------------------------------------------------------- cleanup

  predicate Drained(x: Instance) { !x.enabled && !x.leased }

  predicate AllTerminal(pods: seq<PodPhase>) {
    pods != [] && forall i :: 0 <= i < |pods| ==> pods[i].Succeeded? || pods[i].Failed?
  }

  predicate Finished(x: Instance) { !x.leased && AllTerminal(x.pods) }

  predicate NotDrained(x: Instance) { !Drained(x) }
  predicate NotFinished(x: Instance) { !Finished(x) }

  /** The deletion loops, over the drained instances or over the finished ones. */
  method Delete(pool: Pool, keep: Instance -> bool) returns (deleted: bool, rest: Pool)
    ensures rest == Select(pool, keep)
    ensures deleted <==> exists x :: x in pool && !keep(x)
  {
    deleted, rest := false, [];
    for i := 0 to |pool|
      invariant rest == Select(pool[..i], keep)
      invariant deleted <==> exists x :: x in pool[..i] && !keep(x)
    {
      assert pool[..i + 1] == pool[..i] + [pool[i]];
      SelectConcat(pool[..i], [pool[i]], keep);
      if keep(pool[i]) { rest := rest + [pool[i]]; } else { deleted := true; }
    }
    assert pool[..|pool|] == pool;
  }

  // ---------------------------------------------------------------- scale up

  const INT32_MAX := 0x7fff_ffff

  predicate AtMaxReplicas(spec: Spec, current: int) { spec.maxReplicas > 0 && current >= spec.maxReplicas }

  function MaxScaleUp(spec: Spec, current: int): int {
    if spec.maxReplicas <= 0 then INT32_MAX
    else if spec.maxReplicas - current < 0 then 0
    else spec.maxReplicas - current
  }

  /** The floor, warm-buffer and demand rules, in that order. */
  predicate ScalesUp(spec: Spec, s: PoolState, pendingLeases: int) {
    var potentiallyAvailable := s.replicas - s.leased;
    if s.replicas < spec.minReplicas && potentiallyAvailable < spec.minReplicas then
      MaxScaleUp(spec, s.replicas) > 0
    else if s.available < spec.minAvailable && potentiallyAvailable < spec.minAvailable && !AtMaxReplicas(spec, s.replicas) then
      MaxScaleUp(spec, s.replicas) > 0
    else
      !AtMaxReplicas(spec, s.replicas) && pendingLeases > 0 && s.available == 0 && MaxScaleUp(spec, s.replicas) > 0
  }

  function NewInstance(name: string): Instance { Instance(name, true, false, false, []) }

  // ---------------------------------------------------------------- scale down

  datatype Annotation = Missing | Unparsable | SurplusSince(at: int)

  datatype Readings = Readings(guard: int, surplus: int, action: int, stamp: int)

  predicate Monotone(c: Readings) { 0 < c.guard <= c.surplus <= c.action <= c.stamp }

  predicate HasSurplus(spec: Spec, s: PoolState) {
    s.replicas - spec.minReplicas > 0 && s.available - spec.minAvailable > 0
  }

  /** The in-memory guard: a full cooldown since this process last disabled an instance. */
  predicate GuardOpen(spec: Spec, last: Option<int>, now: int) {
    last.None? || spec.cooldown - Since(now, last.value) <= 0
  }

  predicate CooldownElapsed(spec: Spec, a: Annotation, now: int) {
    a.SurplusSince? && Since(now, a.at) >= spec.cooldown
  }

  predicate Disables(spec: Spec, s: PoolState, last: Option<int>, a: Annotation, c: Readings) {
    HasSurplus(spec, s) && GuardOpen(spec, last, c.guard) && CooldownElapsed(spec, a, c.surplus)
  }

  /** The annotation remembers, in whole seconds, since when there has been surplus or when an
      instance was last disabled; it goes when the surplus does. */
  function AnnotationAfter(spec: Spec, s: PoolState, last: Option<int>, a: Annotation, c: Readings): Annotation {
    if !HasSurplus(spec, s) then Missing
    else if GuardOpen(spec, last, c.guard) && (!a.SurplusSince? || CooldownElapsed(spec, a, c.surplus))
    then SurplusSince(WholeSeconds(c.stamp))
    else a
  }

  /** What is left of the cooldown that holds the next disable back. */
  function RequeueAfter(spec: Spec, s: PoolState, last: Option<int>, a: Annotation, c: Readings): int {
    if !HasSurplus(spec, s) then 0
    else if !GuardOpen(spec, last, c.guard) then spec.cooldown - Since(c.guard, last.value)
    else if a.SurplusSince? && !CooldownElapsed(spec, a, c.surplus) then spec.cooldown - Since(c.surplus, a.at)
    else spec.cooldown
  }

  predicate Idle(x: Instance, online: bool) { x.enabled && !x.leased && x.online == online }

  /** The first idle online instance or, failing that, the first idle offline one. */
  predicate IsCandidate(pool: Pool, i: nat) {
    && i < |pool| && pool[i].enabled && !pool[i].leased
    && (forall j :: 0 <= j < i ==> !Idle(pool[j], pool[i].online))
    && (!pool[i].online ==> forall j :: 0 <= j < |pool| ==> !Idle(pool[j], true))
  }

  /** The two passes over the owned exporters. */
  method FindCandidate(pool: Pool) returns (found: Option<nat>)
    ensures found.Some? ==> IsCandidate(pool, found.value)
    ensures found.None? ==> forall j :: 0 <= j < |pool| ==> !Idle(pool[j], true) && !Idle(pool[j], false)
  {
    var wantOnline, pass := true, 0;
    while pass < 2
      invariant 0 <= pass <= 2 && wantOnline == (pass == 0)
      invariant pass > 0 ==> forall j :: 0 <= j < |pool| ==> !Idle(pool[j], true)
      invariant pass > 1 ==> forall j :: 0 <= j < |pool| ==> !Idle(pool[j], false)
    {
      for i := 0 to |pool|
        invariant forall j :: 0 <= j < i ==> !Idle(pool[j], wantOnline)
      {
        if !pool[i].enabled || pool[i].leased { continue; }
        if pool[i].online != wantOnline { continue; }
        return Some(i);
      }
      pass, wantOnline := pass + 1, false;
    }
    return None;
  }

  /** Whenever scale-down gets past its guards, the first pass finds an instance that is online,
      enabled and not leased, and disabling it leaves the warm buffer at its minimum or above. */
  lemma CandidateIsAvailable(spec: Spec, pool: Pool, i: nat)
    requires HasSurplus(spec, StateOf(pool)) && IsCandidate(pool, i)
    ensures IsAvailable(pool[i])
    ensures Count(Disabled(pool, i), IsAvailable) == Count(pool, IsAvailable) - 1 >= spec.minAvailable
  {
    CountZero(pool, IsAvailable);
    if !pool[i].online {
      var x :| x in pool && IsAvailable(x);
      var j :| 0 <= j < |pool| && pool[j] == x;
      assert Idle(pool[j], true);
      assert false;
    }
    CountUpdate(pool, i, pool[i].(enabled := false), IsAvailable);
  }

  /** ... and such an instance exists. */
  lemma CandidateExists(spec: Spec, pool: Pool)
    requires HasSurplus(spec, StateOf(pool))
    ensures exists j :: 0 <= j < |pool| && Idle(pool[j], true)
  {
    CountZero(pool, IsAvailable);
    var x :| x in pool && IsAvailable(x);
    var j :| 0 <= j < |pool| && pool[j] == x;
    assert Idle(pool[j], true);
  }

  function Disabled(pool: Pool, i: nat): Pool
    requires i < |pool|
  {
    pool[i := pool[i].(enabled := false)]
  }

  /** Leases, connections and pods may have changed; the enabled flags have not. */
  predicate SameFlags(pool: Pool, later: Pool) {
    |later| == |pool| && forall j :: 0 <= j < |pool| ==> later[j].enabled == pool[j].enabled
  }

  /** Whenever drained instances are deleted after disabling `i`, the minimum remains. */
  ghost predicate DrainKeepsMinimum(spec: Spec, pool: Pool, i: nat)
    requires i < |pool|
  {
    forall later :: SameFlags(Disabled(pool, i), later) ==> |Select(later, NotDrained)| >= spec.minReplicas
  }

  /** The later deletion leaves the minimum, whatever leases and pods do until then, exactly
      when more than the minimum was enabled; with surplus and nothing disabled before, it was. */
  lemma DrainLeavesMinimum(spec: Spec, pool: Pool, i: nat)
    requires HasSurplus(spec, StateOf(pool)) && IsCandidate(pool, i)
    ensures DrainKeepsMinimum(spec, pool, i) <==> Count(pool, IsEnabled) > spec.minReplicas
    ensures (forall x :: x in pool ==> x.enabled) ==> Count(pool, IsEnabled) > spec.minReplicas
  {
    CountUpdate(pool, i, pool[i].(enabled := false), IsEnabled);
    forall later | SameFlags(Disabled(pool, i), later)
      ensures |Select(later, NotDrained)| >= Count(pool, IsEnabled) - 1
    {
      CountSelect(later, NotDrained, NotDrained);
      CountImplied(later, IsEnabled, NotDrained);
      CountSame(later, Disabled(pool, i), IsEnabled);
    }
    var released := seq(|pool|, j requires 0 <= j < |pool| => Disabled(pool, i)[j].(leased := false));
    assert SameFlags(Disabled(pool, i), released);
    CountSelect(released, NotDrained, NotDrained);
    CountSame(released, Disabled(pool, i), IsEnabled);
    CountAgree(released, NotDrained, IsEnabled);
    CountZero(pool, NotEnabled);
    CountComplement(pool, IsEnabled, NotEnabled);
  }

  /** It does happen: of two instances one is disabled but leased; the other is disabled too, and
      both are deleted once the lease is over. */
  lemma DrainBelowMinimum()
    ensures var spec, pool := Spec(1, 0, 0, 0, true), [Instance("a", true, true, false, []), Instance("b", false, true, true, [])];
            && HasSurplus(spec, StateOf(pool)) && IsCandidate(pool, 0) && Count(pool, Drained) == 0
            && !DrainKeepsMinimum(spec, pool, 0)
  {
    var a, b := Instance("a", true, true, false, []), Instance("b", false, true, true, []);
    var spec, pool := Spec(1, 0, 0, 0, true), [a, b];
    assert pool[1..] == [b];
    TwoCount(a, b, IsAvailable);
    TwoCount(a, b, Drained);
    TwoCount(a, b, IsEnabled);
    assert IsCandidate(pool, 0);
    DrainLeavesMinimum(spec, pool, 0);
  }

  lemma TwoCount(a: Instance, b: Instance, p: Instance -> bool)
    ensures Count([a, b], p) == (if p(a) then 1 else 0) + (if p(b) then 1 else 0)
  {
    assert [a, b][1..] == [b] && [b][1..] == [];
    assert Count([b], p) == (if p(b) then 1 else 0) + Count([], p);
  }

  lemma {:induction false} CountAgree(pool: Pool, p: Instance -> bool, q: Instance -> bool)
    requires forall j :: 0 <= j < |pool| ==> p(pool[j]) == q(pool[j])
    ensures Count(pool, p) == Count(pool, q)
  {
    if pool != [] {
      assert forall j :: 0 <= j < |pool| - 1 ==> pool[1..][j] == pool[j + 1];
      CountAgree(pool[1..], p, q);
    }
  }

  predicate NotEnabled(x: Instance) { !x.enabled }

  lemma {:induction false} CountSame(a: Pool, b: Pool, p: Instance -> bool)
    requires |a| == |b| && forall j :: 0 <= j < |a| ==> p(a[j]) == p(b[j])
    ensures Count(a, p) == Count(b, p)
  {
    if a != [] {
      assert forall j :: 0 <= j < |a| - 1 ==> a[1..][j] == a[j + 1] && b[1..][j] == b[j + 1];
      CountSame(a[1..], b[1..], p);
    }
  }

  // ---------------------------------------------------------------- one reconciliation

  datatype Action =
    | Deleted(rest: Pool)
    | Created
    | DisabledOne(i: nat)
    | NoChange

  predicate Acts(spec: Spec, pool: Pool, pendingLeases: int, last: Option<int>, a: Annotation, c: Readings, action: Action) {
    if Count(pool, Drained) > 0 then action == Deleted(Select(pool, NotDrained))
    else if !spec.inPlaceReuse && Count(pool, Finished) > 0 then action == Deleted(Select(pool, NotFinished))
    else if ScalesUp(spec, StateOf(pool), pendingLeases) then action == Created
    else if Disables(spec, StateOf(pool), last, a, c) then action.DisabledOne? && IsCandidate(pool, action.i)
    else action == NoChange
  }

  // ---------------------------------------------------------------- what the action means

  /** Online, enabled and not leased, counted. */
  function AvailableNow(pool: Pool): nat { Count(pool, (x: Instance) => x.online && x.enabled && !x.leased) }

  function Unleased(pool: Pool): nat { Count(pool, (x: Instance) => !x.leased) }

  /** Disabled and let go. */
  predicate IsDrained(x: Instance) { x.enabled == false && x.leased == false }

  /** All its pods, and it has some, have succeeded or failed. */
  predicate HasFinished(x: Instance) {
    x.leased == false && |x.pods| > 0 && forall p :: p in x.pods ==> p in {Succeeded, Failed}
  }

  ghost predicate NothingToDelete(spec: Spec, pool: Pool) {
    forall x :: x in pool ==> !IsDrained(x) && (spec.inPlaceReuse || !HasFinished(x))
  }

  predicate HasRoom(spec: Spec, pool: Pool) { spec.maxReplicas == 0 || |pool| < spec.maxReplicas }

  /** Below the floor, below the warm buffer, or asked for with nothing to give. */
  predicate WantsMore(spec: Spec, pool: Pool, pendingLeases: int) {
    || (|pool| < spec.minReplicas && Unleased(pool) < spec.minReplicas)
    || (AvailableNow(pool) < spec.minAvailable && Unleased(pool) < spec.minAvailable)
    || (pendingLeases > 0 && AvailableNow(pool) == 0)
  }

  predicate HasTooMany(spec: Spec, pool: Pool) { |pool| > spec.minReplicas && AvailableNow(pool) > spec.minAvailable }

  lemma StateIsCounts(pool: Pool)
    ensures var s := StateOf(pool);
            s.replicas == |pool| && s.available == AvailableNow(pool) && s.replicas - s.leased == Unleased(pool)
  {
    CountAgree(pool, IsAvailable, (x: Instance) => x.online && x.enabled && !x.leased);
    CountComplement(pool, IsLeased, (x: Instance) => !x.leased);
  }

  lemma FinishedIs(x: Instance)
    ensures Finished(x) <==> HasFinished(x)
    ensures Drained(x) <==> IsDrained(x)
  {
    if HasFinished(x) {
      forall i | 0 <= i < |x.pods| ensures x.pods[i].Succeeded? || x.pods[i].Failed? { assert x.pods[i] in x.pods; }
    }
  }

  lemma DeletionIs(spec: Spec, pool: Pool)
    ensures NothingToDelete(spec, pool) <==> Count(pool, Drained) == 0 && (spec.inPlaceReuse || Count(pool, Finished) == 0)
    ensures Count(pool, Drained) == 0 <==> forall x :: x in pool ==> !IsDrained(x)
  {
    CountZero(pool, Drained);
    CountZero(pool, Finished);
    forall x { FinishedIs(x); }
    hide HasFinished, Finished, Drained, IsDrained;
  }

  lemma ScalesUpIs(spec: Spec, pool: Pool, pendingLeases: int)
    ensures ScalesUp(spec, StateOf(pool), pendingLeases) <==> HasRoom(spec, pool) && WantsMore(spec, pool, pendingLeases)
  {
    StateIsCounts(pool);
    hide AvailableNow, Unleased, StateOf;
  }

  /** Every action, from the pool and the clock alone. */
  lemma ActionIff(spec: Spec, pool: Pool, pendingLeases: int, last: Option<int>, a: Annotation, c: Readings, action: Action)
    requires Acts(spec, pool, pendingLeases, last, a, c, action)
    ensures action.Deleted? <==> !NothingToDelete(spec, pool)
    ensures action.Created? <==> NothingToDelete(spec, pool) && HasRoom(spec, pool) && WantsMore(spec, pool, pendingLeases)
    ensures action.DisabledOne? <==>
            && NothingToDelete(spec, pool) && !(HasRoom(spec, pool) && WantsMore(spec, pool, pendingLeases)) && HasTooMany(spec, pool)
            && (last.Some? ==> Since(c.guard, last.value) >= spec.cooldown)
            && a.SurplusSince? && Since(c.surplus, a.at) >= spec.cooldown
  {
    DeletionIs(spec, pool);
    ScalesUpIs(spec, pool, pendingLeases);
    StateIsCounts(pool);
    hide ScalesUp, NothingToDelete, WantsMore, AvailableNow, Unleased, StateOf, Count, Select;
  }

  /** What a deletion leaves: all but the drained instances if there are any, else all but the
      finished ones. */
  lemma DeletionLeaves(spec: Spec, pool: Pool, pendingLeases: int, last: Option<int>, a: Annotation, c: Readings, rest: Pool)
    requires Acts(spec, pool, pendingLeases, last, a, c, Deleted(rest))
    ensures if exists x :: x in pool && IsDrained(x) then forall x :: x in rest <==> x in pool && !IsDrained(x)
            else forall x :: x in rest <==> x in pool && !HasFinished(x)
  {
    DeletionIs(spec, pool);
    CountSelect(pool, NotDrained, NotDrained);
    CountSelect(pool, NotFinished, NotFinished);
    forall x { FinishedIs(x); }
    hide HasFinished, Finished, Drained, IsDrained, Count, Select, StateOf, ScalesUp;
  }

  /** What is disabled: the first instance of the listing that is available. */
  lemma DisablesFirstAvailable(spec: Spec, pool: Pool, pendingLeases: int, last: Option<int>, a: Annotation, c: Readings, i: nat)
    requires Acts(spec, pool, pendingLeases, last, a, c, DisabledOne(i))
    ensures i < |pool| && pool[i].online && pool[i].enabled && !pool[i].leased
    ensures forall j :: 0 <= j < i ==> !(pool[j].online && pool[j].enabled && !pool[j].leased)
  {
    CandidateIsAvailable(spec, pool, i);
    forall j | 0 <= j < i ensures !(pool[j].online && pool[j].enabled && !pool[j].leased) {
      assert !Idle(pool[j], pool[i].online);
    }
  }

  /** The annotation goes when there are no longer too many; it is stamped anew, in whole seconds,
      when an instance is disabled or the guard is open and there was no readable one. */
  lemma AnnotationIs(spec: Spec, pool: Pool, pendingLeases: int, last: Option<int>, a: Annotation, c: Readings, action: Action)
    requires Acts(spec, pool, pendingLeases, last, a, c, action)
    ensures NewAnnotation(spec, pool, last, a, c, action) ==
            if action.Deleted? || action.Created? then a
            else if !HasTooMany(spec, pool) then Missing
            else if action.DisabledOne? || (!a.SurplusSince? && (last.Some? ==> Since(c.guard, last.value) >= spec.cooldown))
            then SurplusSince(WholeSeconds(c.stamp))
            else a
  {
    ActionIff(spec, pool, pendingLeases, last, a, c, action);
    StateIsCounts(pool);
    hide Acts, ScalesUp, NothingToDelete, WantsMore, AvailableNow, Unleased, StateOf, Count, Select;
  }

  function Applied(pool: Pool, action: Action, name: string): Pool
    requires action.DisabledOne? ==> action.i < |pool|
  {
    match action
    case Deleted(rest) => rest
    case Created => pool + [NewInstance(name)]
    case DisabledOne(i) => Disabled(pool, i)
    case NoChange => pool
  }

  const POD_RETRY := 5 * SECOND

  /** The annotation is touched only by the scale-down stage. */
  function NewAnnotation(spec: Spec, pool: Pool, last: Option<int>, a: Annotation, c: Readings, action: Action): Annotation {
    if action.Deleted? || action.Created? then a else AnnotationAfter(spec, StateOf(pool), last, a, c)
  }

  function NewTimer(spec: Spec, pool: Pool, last: Option<int>, a: Annotation, c: Readings, action: Action, waiting: bool): int {
    var timer := if action.Deleted? || action.Created? then 0 else RequeueAfter(spec, StateOf(pool), last, a, c);
    if waiting && timer == 0 && !action.Deleted? then POD_RETRY else timer
  }

  /** Waiting pods are looked at again in five seconds, unless another timer is set or something was
      deleted. */
  lemma PodsAreRetried(spec: Spec, pool: Pool, last: Option<int>, a: Annotation, c: Readings, action: Action)
    ensures var without, timer := NewTimer(spec, pool, last, a, c, action, false), NewTimer(spec, pool, last, a, c, action, true);
            timer == if without == 0 && !action.Deleted? then 5_000_000_000 else without
    ensures action.Deleted? || action.Created? ==> NewTimer(spec, pool, last, a, c, action, false) == 0
  {
  }

  /** The reconciler's own memory: when it last disabled an instance of each set. */
  class Reconciler {
    var lastScaleDown: map<string, int>

    constructor ()
      ensures lastScaleDown == map[]
    {
      lastScaleDown := map[];
    }

    function Last(key: string): Option<int> reads this {
      if key in lastScaleDown then Some(lastScaleDown[key]) else None
    }

    method ReconcileScaleDown(key: string, spec: Spec, pool: Pool, s: PoolState, a: Annotation, c: Readings)
      returns (action: Action, a': Annotation, requeueAfter: int)
      requires s == StateOf(pool)
      modifies this
      ensures if Disables(spec, s, old(Last(key)), a, c)
              then action.DisabledOne? && IsCandidate(pool, action.i) && lastScaleDown == old(lastScaleDown)[key := c.action]
              else action == NoChange && lastScaleDown == old(lastScaleDown)
      ensures a' == AnnotationAfter(spec, s, old(Last(key)), a, c)
      ensures requeueAfter == RequeueAfter(spec, s, old(Last(key)), a, c)
    {
      if s.replicas - spec.minReplicas <= 0 || s.available - spec.minAvailable <= 0 {
        return NoChange, Missing, 0;
      }
      if key in lastScaleDown {
        var remaining := spec.cooldown - Since(c.guard, lastScaleDown[key]);
        if remaining > 0 { return NoChange, a, remaining; }
      }
      if !a.SurplusSince? {
        return NoChange, SurplusSince(WholeSeconds(c.stamp)), spec.cooldown;
      }
      var elapsed := Since(c.surplus, a.at);
      if elapsed < spec.cooldown { return NoChange, a, spec.cooldown - elapsed; }
      var found := FindCandidate(pool);
      CandidateExists(spec, pool);
      lastScaleDown := lastScaleDown[key := c.action];
      return DisabledOne(found.value), SurplusSince(WholeSeconds(c.stamp)), spec.cooldown;
    }

    /** The whole reconciliation, stage by stage. `waiting` says that some exporter still has no
        credentials for its pod. */
    method Reconcile(key: string, spec: Spec, pool: Pool, pendingLeases: int, a: Annotation, c: Readings, waiting: bool)
      returns (action: Action, a': Annotation, requeueAfter: int)
      modifies this
      ensures Acts(spec, pool, pendingLeases, old(Last(key)), a, c, action)
      ensures lastScaleDown == if action.DisabledOne? then old(lastScaleDown)[key := c.action] else old(lastScaleDown)
      ensures a' == NewAnnotation(spec, pool, old(Last(key)), a, c, action)
      ensures requeueAfter == NewTimer(spec, pool, old(Last(key)), a, c, action, waiting)
    {
      CountZero(pool, Drained);
      CountZero(pool, Finished);
      var deleted, rest := Delete(pool, NotDrained);
      if deleted { return Deleted(rest), a, 0; }
      if !spec.inPlaceReuse {
        deleted, rest := Delete(pool, NotFinished);
        if deleted { return Deleted(rest), a, 0; }
      }
      var s := ComputePoolState(pool);
      if ScalesUp(spec, s, pendingLeases) {
        action, a', requeueAfter := Created, a, 0;
      } else {
        action, a', requeueAfter := ReconcileScaleDown(key, spec, pool, s, a, c);
      }
      if waiting && requeueAfter == 0 { requeueAfter := POD_RETRY; }
    }
  }
}
