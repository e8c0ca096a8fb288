/** What becomes of a granted lease over a whole run: how a client may change its times, when it
    can outlive the maximum of the rule it was granted under, and what a late release patch can
    hit. */
module LeaseRuns {
  import opened Common
  import opened Selectors
  import opened LeaseTimes
  import opened LeaseModel
  import opened Approval
  import opened Ranking
  import opened LeaseReconcile
  import opened LeaseProtocol

  // ---------------------------------------------------------------- updating the times

  const NO_TIMES := Times(None, None, None)

  /** The fields the request gives, the others as they are. */
  function Merged(t: Times, request: Times): Times {
    var desired := Completed(request);
    Times(if request.begin.Some? then desired.begin else t.begin,
          if request.end.Some? then desired.end else t.end,
          if request.duration.Some? then desired.duration else t.duration)
  }

  predicate MovesBegin(l: Lease, request: Times) {
    request.begin.Some? && l.status.exporterRef.Some? && l.spec.times.begin != request.begin
  }

  /** An update request. `selector` says whether its selector parses, `target` whether the client
      it transfers the lease to exists in the same namespace. */
  datatype Request = Request(times: Times, selector: bool, transfer: Option<string>, target: bool)

  predicate TimesRefused(l: Lease, r: Request) {
    r.times != NO_TIMES
    && (!r.selector || Verdict(r.times).Some? || MovesBegin(l, r.times) || Verdict(Merged(l.spec.times, r.times)).Some?)
  }

  /** Only a lease that has started and not ended can be transferred. */
  predicate TransferRefused(l: Lease, r: Request) {
    r.transfer.Some? && r.transfer.value != "" && (l.status.exporterRef.None? || l.status.ended || !r.target)
  }

  function NewTimes(l: Lease, r: Request): Times {
    if r.times == NO_TIMES then l.spec.times else Stored(Completed(Merged(l.spec.times, r.times)))
  }

  function NewClient(l: Lease, r: Request): string {
    if r.transfer.Some? && r.transfer.value != "" then r.transfer.value else l.spec.client
  }

  /** The spec an update call stores, or nothing if it is refused: for another's lease, for times
      that do not add up or move the begin of a started lease, or for a transfer out of turn. */
  function Updated(l: Lease, client: string, r: Request): Option<LeaseSpec> {
    if l.spec.client != client || TimesRefused(l, r) || TransferRefused(l, r) then None
    else Some(l.spec.(times := NewTimes(l, r), client := NewClient(l, r)))
  }

  /** The call: the request is completed on its own, merged into the lease, and completed again. */
  method UpdateLease(l: Lease, client: string, r: Request) returns (spec: Option<LeaseSpec>)
    ensures spec == Updated(l, client, r)
  {
    if l.spec.client != client { return None; }
    var times := new TimeFields(l.spec.times);
    var timed := r.times.begin.Some? || r.times.duration.Some? || r.times.end.Some?;
    if timed {
      if !r.selector { return None; }
      var desired := new TimeFields(r.times);
      var err := desired.Reconcile();
      if err.Some? { return None; }
      if r.times.begin.Some? {
        if l.status.exporterRef.Some? && (l.spec.times.begin.None? || l.spec.times.begin.value != desired.begin.value) {
          return None;
        }
        times.begin := desired.begin;
      }
      if r.times.duration.Some? { times.duration := desired.duration; }
      if r.times.end.Some? { times.end := desired.end; }
    }
    var owner := l.spec.client;
    if r.transfer.Some? && r.transfer.value != "" {
      if l.status.exporterRef.None? || l.status.ended || !r.target { return None; }
      owner := r.transfer.value;
    }
    if timed {
      var err := times.Reconcile();
      if err.Some? { return None; }
      return Some(l.spec.(times := Stored(times.Value()), client := owner));
    }
    return Some(l.spec.(client := owner));
  }

  /** An update goes through exactly when the owner asks, the times it gives add up alone and with
      the lease's own and leave the begin of a started lease where it is, and a transfer is of a
      live lease to a client that exists. */
  lemma UpdateAcceptedIff(l: Lease, client: string, r: Request)
    ensures Updated(l, client, r).Some? <==>
            && client == l.spec.client
            && (r.times.begin.Some? || r.times.end.Some? || r.times.duration.Some? ==>
                  r.selector && Verdict(r.times).None? && Verdict(Merged(l.spec.times, r.times)).None?)
            && (r.times.begin.Some? && l.status.exporterRef.Some? ==> l.spec.times.begin == r.times.begin)
            && (r.transfer.Some? && r.transfer.value != "" ==> l.status.exporterRef.Some? && !l.status.ended && r.target)
  {
  }

  /** What an update stores: the times given, the lease's own where none is given and one was there,
      the new owner of a transfer, and nothing else. */
  lemma UpdateStores(l: Lease, client: string, r: Request)
    requires Updated(l, client, r).Some? && Stored(l.spec.times) == l.spec.times
    ensures var spec := Updated(l, client, r).value;
            var t, given, own := spec.times, r.times, l.spec.times;
            && spec == l.spec.(times := t, client := spec.client)
            && spec.client == (if r.transfer.Some? && r.transfer.value != "" then r.transfer.value else l.spec.client)
            && (given.begin.Some? ==> t.begin == Some(WholeSeconds(given.begin.value)))
            && (given.begin.None? && own.begin.Some? ==> t.begin == own.begin)
            && t.end == (if given.end.Some? then Some(WholeSeconds(given.end.value)) else own.end)
            && (given.duration.Some? && given.duration.value > 0 ==> t.duration == given.duration)
            && (given.duration.None? && own.duration.Some? && own.duration.value > 0 ==> t.duration == own.duration)
            && (l.status.exporterRef.Some? && own.begin.Some? ==> t.begin == own.begin)
  {
  }

  // ---------------------------------------------------------------- staying within the maximum

  /** What an edit of a lease that began at `began` would have to check: an end within the
      maximum, or a duration that exceeds it by no more than the lease began late. */
  predicate Allowed(t: Times, began: int, maximum: int) {
    if t.end.Some? then t.end.value <= began + maximum
    else t.duration.Some? ==> t.duration.value <= maximum + (if t.begin.Some? then began - t.begin.value else 0)
  }

  /** The same check on an update call's request. */
  predicate RequestAllowed(l: Lease, request: Times, began: int, maximum: int) {
    if request.end.Some? then WholeSeconds(request.end.value) <= began + maximum
    else if l.spec.times.end.Some? then l.spec.times.end.value <= began + maximum
    else
      var duration := if request.duration.Some? then request.duration else l.spec.times.duration;
      var late := if l.spec.times.begin.Some? then began - l.spec.times.begin.value else 0;
      duration.Some? ==> duration.value <= maximum + late
  }

  /** Whether an update of a started lease keeps it within a maximum is decided by the request. */
  lemma UpdateIsAllowedIff(l: Lease, client: string, r: Request, maximum: int)
    requires l.status.exporterRef.Some? && l.status.begin.Some? && Stored(l.spec.times) == l.spec.times
    requires Updated(l, client, r).Some?
    ensures Allowed(Updated(l, client, r).value.times, l.status.begin.value, maximum)
            <==> RequestAllowed(l, r.times, l.status.begin.value, maximum)
  {
  }

  /** The stored window is no longer than the duration the rule was compared with. */
  predicate WindowHeld(t: Times) { t.end.Some? ==> t.begin.Some? && t.end.value - t.begin.value <= Requested(t) }

  /** The step grants the lease what some entry grants whose rule has this maximum. */
  ghost predicate GrantedUnder(s: State, s': State, n: string, maximum: int) {
    n in s.leases && exists view, c, g, recorded, a ::
      && Next(s, WriteStatus(n, view, c, Assign(g), recorded), s')
      && IsEntry(s.leases[n], view, a) && Grant(a) == g && a.rule.maximum == Some(maximum)
  }

  lemma GrantFits(t: Times, began: int, maximum: int)
    requires WindowHeld(t) && MayBegin(t, began) && Requested(t) <= maximum
    ensures Allowed(t, began, maximum)
  {
  }

  /** The persisted begin time is cut to whole seconds, as the requested one was. */
  lemma AssignWrites(lease: Lease, view: View, c: Clock, g: Granted)
    requires StatusInv(lease.status) && Decides(lease, view, c.assign, Assign(g)) && Monotone(c) && Saved(lease.spec) == lease.spec
    ensures Written(lease, Assign(g), c).status.begin == Some(WholeSeconds(c.begin))
    ensures MayBegin(lease.spec.times, WholeSeconds(c.begin))
  {
    hide DecidesAmong;
    assert MayBegin(lease.spec.times, c.assign);
    if lease.spec.times.begin.Some? { CutKeepsOrder(lease.spec.times.begin.value, c.begin); }
  }

  lemma CutKeepsOrder(a: int, b: int)
    requires WholeSeconds(a) == a <= b
    ensures a <= WholeSeconds(b)
  {
  }

  lemma EntryIsWithin(lease: Lease, view: View, a: Approved)
    requires IsEntry(lease, view, a) && a.rule.maximum.Some?
    ensures Requested(lease.spec.times) <= a.rule.maximum.value
  {
    assert WithinRule(a.rule, lease.spec.times);
  }

  lemma WriteShape(s: State, s': State, n: string, view: View, c: Clock, d: Decision, recorded: bool)
    requires Next(s, WriteStatus(n, view, c, d, recorded), s')
    ensures n in s.leases && s'.leases == s.leases[n := Written(s.leases[n], d, c)]
    ensures Decides(s.leases[n], view, c.assign, d) && !d.Fail? && Monotone(c)
  {
    hide Decides, NewStatus, Covers;
  }

  lemma GrantIsAllowed(s: State, s': State, n: string, maximum: int)
    requires GrantedUnder(s, s', n, maximum) && Inv(s) && WindowHeld(s.leases[n].spec.times)
    ensures n in s'.leases && s'.leases[n].uid == s.leases[n].uid && s'.leases[n].status.begin.Some?
    ensures Allowed(s'.leases[n].spec.times, s'.leases[n].status.begin.value, maximum)
  {
    hide Next, Decides, NewStatus, IsEntry, Exclusive, DistinctUids, LogInv, CallsInv, StatusInv, Requested, WindowHeld, Allowed;
    var view, c, g, recorded, a :|
      && Next(s, WriteStatus(n, view, c, Assign(g), recorded), s')
      && IsEntry(s.leases[n], view, a) && Grant(a) == g && a.rule.maximum == Some(maximum);
    WriteShape(s, s', n, view, c, Assign(g), recorded);
    EntryIsWithin(s.leases[n], view, a);
    AssignWrites(s.leases[n], view, c, g);
    GrantFits(s.leases[n].spec.times, WholeSeconds(c.begin), maximum);
  }

  predicate TimesChange(s: State, s': State, n: string) {
    n in s.leases && n in s'.leases && s'.leases[n].spec.times != s.leases[n].spec.times
  }

  /** Every edit of the lease in this part of the run stored allowed times. */
  ghost predicate EditsAllowed(states: seq<State>, lo: nat, hi: nat, n: string, began: int, maximum: int)
    requires hi < |states|
  {
    forall k :: lo <= k < hi && TimesChange(states[k], states[k + 1], n) ==>
      Allowed(states[k + 1].leases[n].spec.times, began, maximum)
  }

  lemma {:induction false} StaysAllowed(states: seq<State>, lo: nat, hi: nat, n: string, maximum: int)
    requires Run(states) && lo <= hi < |states| && SameLease(states[lo], states[hi], n)
    requires states[lo].leases[n].status.exporterRef.Some? && states[lo].leases[n].status.begin.Some?
    requires Allowed(states[lo].leases[n].spec.times, states[lo].leases[n].status.begin.value, maximum)
    requires EditsAllowed(states, lo, hi, n, states[lo].leases[n].status.begin.value, maximum)
    ensures states[hi].leases[n].status.begin == states[lo].leases[n].status.begin
    ensures Allowed(states[hi].leases[n].spec.times, states[lo].leases[n].status.begin.value, maximum)
    decreases hi
  {
    hide Next, Inv, Init, WriteOnce, Allowed, EditsAllowed;
    WrittenOnceInEveryRun(states, lo, hi, n);
    BeginIsKept(states[lo].leases[n].status, states[hi].leases[n].status);
    if lo < hi {
      StillThere(states, lo, hi, n);
      EditsBefore(states, lo, hi, n, states[lo].leases[n].status.begin.value, maximum);
      StaysAllowed(states, lo, hi - 1, n, maximum);
    }
  }

  lemma BeginIsKept(before: LeaseStatus, after: LeaseStatus)
    requires WriteOnce(before, after) && before.exporterRef.Some?
    ensures after.begin == before.begin
  {
  }

  lemma EditsBefore(states: seq<State>, lo: nat, hi: nat, n: string, began: int, maximum: int)
    requires lo < hi < |states| && EditsAllowed(states, lo, hi, n, began, maximum)
    ensures EditsAllowed(states, lo, hi - 1, n, began, maximum)
    ensures TimesChange(states[hi - 1], states[hi], n) ==> Allowed(states[hi].leases[n].spec.times, began, maximum)
  {
    hide Allowed;
    assert TimesChange(states[hi - 1], states[hi - 1 + 1], n) == TimesChange(states[hi - 1], states[hi], n);
  }

  /** A lease object in two states of a run is in the ones between. */
  lemma StillThere(states: seq<State>, lo: nat, hi: nat, n: string)
    requires Run(states) && lo < hi < |states| && SameLease(states[lo], states[hi], n)
    ensures SameLease(states[lo], states[hi - 1], n)
  {
    hide Next, Inv, Init;
    RunInv(states, lo);
    RunInv(states, hi - 1);
    NextUidGrows(states, lo, hi - 1);
    UidBound(states[lo], n);
    assert Steps(states[hi - 1], states[hi - 1 + 1]);
    var step :| Next(states[hi - 1], step, states[hi]);
    UidsGrow(states[hi - 1], step, states[hi], n);
  }

  lemma UidBound(s: State, n: string)
    requires Inv(s) && n in s.leases
    ensures s.leases[n].uid < s.nextUid
  {
  }

  /** In every run: a lease granted under a rule with a maximum, its window not lengthened by
      storage, is ended by any reconciliation that reads the clock after the maximum has passed,
      unless an edit since the grant stored times that are not allowed. */
  lemma OverstayNeedsEdit(states: seq<State>, i: nat, j: nat, n: string, maximum: int, view: View, c: Clock, d: Decision, recorded: bool)
    requires Run(states) && i < j && j + 1 < |states|
    requires GrantedUnder(states[i], states[i + 1], n, maximum) && WindowHeld(states[i].leases[n].spec.times)
    requires n in states[i + 1].leases && states[i + 1].leases[n].status.begin.Some?
    requires SameLease(states[i + 1], states[j], n)
    requires Next(states[j], WriteStatus(n, view, c, d, recorded), states[j + 1])
    requires c.ended > states[i + 1].leases[n].status.begin.value + maximum
    ensures EditsAllowed(states, i + 1, j, n, states[i + 1].leases[n].status.begin.value, maximum) ==>
              states[j + 1].leases[n].status.ended
  {
    RunInv(states, i);
    GrantIsAllowed(states[i], states[i + 1], n, maximum);
    RunInv(states, i + 1);
    RunInv(states, j);
    BeginMeansAssigned(states[i + 1], n);
    if EditsAllowed(states, i + 1, j, n, states[i + 1].leases[n].status.begin.value, maximum) {
      StaysAllowed(states, i + 1, j, n, maximum);
      AllowedExpires(states[j], states[j + 1], n, view, c, d, recorded, maximum);
    }
  }

  lemma BeginMeansAssigned(s: State, n: string)
    requires Inv(s) && n in s.leases
    ensures s.leases[n].status.begin.Some? <==> s.leases[n].status.exporterRef.Some?
  {
  }

  lemma AllowedExpires(s: State, s': State, n: string, view: View, c: Clock, d: Decision, recorded: bool, maximum: int)
    requires Inv(s) && Next(s, WriteStatus(n, view, c, d, recorded), s') && s.leases[n].status.begin.Some?
    requires Allowed(s.leases[n].spec.times, s.leases[n].status.begin.value, maximum)
    requires c.ended > s.leases[n].status.begin.value + maximum
    ensures s'.leases[n].status.ended
  {
    hide DecidesAmong, Covers, Exclusive, DistinctUids, LogInv, CallsInv;
    BeginMeansAssigned(s, n);
    ExpiredLeaseEnds(s.leases[n], view, c, d);
  }

  /** An accepted request is stored with its window held exactly when storing does not lengthen it. */
  lemma StoredWindowHeld(request: Times)
    requires Verdict(request).None? && (request.duration.Some? ==> request.duration.value <= MAX_DURATION)
    ensures WindowHeld(Stored(Completed(request))) <==> WindowKept(Completed(request))
  {
  }

  // ---------------------------------------------------------------- exactly which edits overstay

  lemma {:induction false} CoveringListing(leases: map<string, Lease>) returns (active: seq<Lease>)
    ensures Covers(active, leases)
    decreases |leases|
  {
    if leases.Keys == {} {
      active := [];
    } else {
      var n :| n in leases.Keys;
      var fewer := leases - {n};
      assert fewer.Keys == leases.Keys - {n};
      assert |fewer.Keys| < |leases.Keys|;
      var rest := CoveringListing(fewer);
      active := [leases[n]] + rest;
      forall m | m in leases && !leases[m].endedLabel && leases[m].status.exporterRef.Some?
        ensures exists l :: l in active && l.status.exporterRef == leases[m].status.exporterRef
      {
        if m == n {
          assert leases[n] in active;
        } else {
          assert m in fewer && fewer[m] == leases[m];
          var l :| l in rest && l.status.exporterRef == fewer[m].status.exporterRef;
          assert l in active;
        }
      }
    }
  }

  /** Some reconciliation that reads the clock after the maximum has passed leaves the lease live. */
  ghost predicate CanOverstay(s: State, n: string, maximum: int) {
    exists view, c, d, recorded, s' :: Overstays(s, n, maximum, view, c, d, recorded, s')
  }

  ghost predicate Overstays(s: State, n: string, maximum: int, view: View, c: Clock, d: Decision, recorded: bool, s': State) {
    && n in s.leases && s.leases[n].status.begin.Some?
    && Next(s, WriteStatus(n, view, c, d, recorded), s') && n in s'.leases
    && c.ended > s.leases[n].status.begin.value + maximum && !s'.leases[n].status.ended
  }

  /** Exactly the edits that are not allowed let a live lease overstay the maximum. */
  lemma EditOverstaysIff(s: State, n: string, t: Times, maximum: int)
    requires Inv(s) && s.worker.Idle? && n in s.leases
    requires !s.leases[n].status.ended && s.leases[n].status.begin.Some? && !s.leases[n].spec.release
    requires 0 <= s.clock <= s.leases[n].status.begin.value + maximum
    ensures CanOverstay(Edited(s, n, s.leases[n].spec.(times := t)), n, maximum)
            <==> !Allowed(Stored(t), s.leases[n].status.begin.value, maximum)
  {
    var spec := s.leases[n].spec.(times := t);
    var s1 := Edited(s, n, spec);
    assert Inv(s1) by { InvKept(s, EditSpec(n, spec), s1); }
    if Allowed(Stored(t), s.leases[n].status.begin.value, maximum) {
      if CanOverstay(s1, n, maximum) {
        var view, c, d, recorded, s2 :| Overstays(s1, n, maximum, view, c, d, recorded, s2);
        AllowedExpires(s1, s2, n, view, c, d, recorded, maximum);
      }
    } else {
      NotAllowedOverstays(s1, n, maximum);
    }
  }

  lemma NotAllowedOverstays(s: State, n: string, maximum: int)
    requires Inv(s) && s.worker.Idle? && n in s.leases
    requires !s.leases[n].status.ended && s.leases[n].status.begin.Some? && !s.leases[n].spec.release
    requires 0 <= s.clock <= s.leases[n].status.begin.value + maximum
    requires !Allowed(s.leases[n].spec.times, s.leases[n].status.begin.value, maximum)
    ensures CanOverstay(s, n, maximum)
  {
    hide Inv, Covers;
    BeginMeansAssigned(s, n);
    var active := CoveringListing(s.leases);
    var view := View([], None, [], None, active);
    var now := s.leases[n].status.begin.value + maximum + 1;
    var c := At(now);
    var l := Written(s.leases[n], Keep, c);
    NotExpiredYet(s, n, now, maximum);
    hide NewStatus, Persisted, Allowed;
    var s' := s.(leases := s.leases[n := l], worker := Labelling(n, l.uid, l.version), clock := now);
    assert Next(s, WriteStatus(n, view, c, Keep, false), s');
    assert Overstays(s, n, maximum, view, c, Keep, false, s');
  }

  lemma NotExpiredYet(s: State, n: string, now: int, maximum: int)
    requires Inv(s) && n in s.leases && s.leases[n].status.begin.Some? && !s.leases[n].status.ended && !s.leases[n].spec.release
    requires !Allowed(s.leases[n].spec.times, s.leases[n].status.begin.value, maximum)
    requires now == s.leases[n].status.begin.value + maximum + 1
    ensures !Written(s.leases[n], Keep, At(now)).status.ended
  {
    hide Exclusive, DistinctUids, LogInv, CallsInv;
    BeginMeansAssigned(s, n);
    assert StatusInv(s.leases[n].status);
  }

  /** All clock readings of a reconciliation at one instant. */
  function At(now: int): Clock { Clock(now, now, now, now, now, now) }

  // ---------------------------------------------------------------- runs in which it happens

  const EVERYTHING := Selector(map[], [])

  function TheExporter(): Exporter { Exporter("e", map[], None, true, true, Available, true, None, None) }

  function TheRule(maximum: int): Rule { Rule("", 0, [EVERYTHING], Some(maximum), false) }

  function TheSpec(duration: int): LeaseSpec {
    LeaseSpec("c", EVERYTHING, Some("e"), false, false, Times(None, None, Some(duration)))
  }

  /** One exporter, one policy whose one rule has the maximum, and no active lease. */
  function TheView(maximum: int): View {
    View([], Some(TheExporter()), [Policy(EVERYTHING, [TheRule(maximum)])], Some(map[]), [])
  }

  lemma TheApproval(maximum: int, a: Approved)
    ensures var view := TheView(maximum);
            (a.existing.None? && a.exporter in [TheExporter()]
             && ApprovedUnder(view.policies, a.exporter, a.rule, map[], Times(None, None, Some(maximum))))
            <==> a == Approved(TheExporter(), None, TheRule(maximum))
  {
    var view, t, r := TheView(maximum), Times(None, None, Some(maximum)), TheRule(maximum);
    var p := view.policies[0];
    assert Accepts(EVERYTHING, map[]) && EVERYTHING in r.from;
    assert p in view.policies && Grants(p, r, TheExporter(), map[], t);
  }

  lemma TheEntry(maximum: int, lease: Lease)
    requires lease.spec == TheSpec(maximum)
    ensures var view := TheView(maximum);
            && MatchExporters(lease.spec, view) == Matched([TheExporter()])
            && !ApprovalFails([TheExporter()], view)
            && IsEntry(lease, view, Approved(TheExporter(), None, TheRule(maximum)))
            && ApprovalOf([TheExporter()], view, lease.spec.times, [Approved(TheExporter(), None, TheRule(maximum))])
  {
    forall a { TheApproval(maximum, a); }
    var view := TheView(maximum);
    assert WellFormed(EVERYTHING);
    assert forall p :: p in view.policies ==> p == Policy(EVERYTHING, [TheRule(maximum)]);
  }

  /** A new lease for exactly the maximum is granted the exporter. */
  lemma TheGrant(maximum: int, lease: Lease)
    requires lease.spec == TheSpec(maximum) && lease.status == NEW_STATUS
    ensures Decides(lease, TheView(maximum), SECOND, Assign(Granted("e", 0, false)))
  {
    TheEntry(maximum, lease);
    var view, a := TheView(maximum), Approved(TheExporter(), None, TheRule(maximum));
    var approved := [a];
    assert approved[1..] == [];
    assert Filter(approved, ReachableEntry) == [a] + Filter([], ReachableEntry);
    assert Filter(approved, Takeable) == [a] + Filter([], Takeable);
    assert Filter(approved, Ready) == [a] + Filter([], Ready);
    assert AttachAll(approved, view.active) == approved;
    assert Pipeline(approved, view.active, approved, Assign(Granted("e", 0, false)));
    assert DecidesAmong([TheExporter()], view, lease.spec.times, Assign(Granted("e", 0, false)));
  }

  /** The step grants the lease, and every rule it could be granted under has this maximum. */
  ghost predicate GrantedOnlyUnder(s: State, s': State, n: string, maximum: int) {
    n in s.leases && exists view, c, g, recorded ::
      && Next(s, WriteStatus(n, view, c, Assign(g), recorded), s')
      && forall a :: IsEntry(s.leases[n], view, a) ==> a.rule.maximum == Some(maximum)
  }

  function TheLease(maximum: int): Lease {
    Lease("l", 0, 1, TheSpec(maximum), LeaseStatus(Some(SECOND), None, Some("e"), false, 0, false, Some(true), None, false, false), false)
  }

  function NewLease(maximum: int): Lease { Lease("l", 0, 0, TheSpec(maximum), NEW_STATUS, false) }

  lemma TheWrite(maximum: int)
    requires maximum > 0
    ensures Written(NewLease(maximum), Assign(Granted("e", 0, false)), At(SECOND)) == TheLease(maximum)
  {
  }

  function Start(): State { State(map[], map["e" := TheExporter()], map[], Idle, [], 0, 0) }

  function WithLease(l: Lease, worker: Worker, clock: int): State {
    State(map["l" := l], map["e" := TheExporter()], map[], worker, [], 1, clock)
  }

  lemma TheOnlyRule(maximum: int, a: Approved)
    requires IsEntry(NewLease(maximum), TheView(maximum), a)
    ensures a.rule.maximum == Some(maximum)
  {
    TheEntry(maximum, NewLease(maximum));
    TheApproval(maximum, a.(existing := None));
  }

  lemma TheGrantStep(maximum: int)
    requires maximum > 0
    ensures var s, s' := WithLease(NewLease(maximum), Idle, 0), WithLease(TheLease(maximum), Labelling("l", 0, 1), SECOND);
            Steps(s, s') && GrantedOnlyUnder(s, s', "l", maximum)
  {
    var s, s' := WithLease(NewLease(maximum), Idle, 0), WithLease(TheLease(maximum), Labelling("l", 0, 1), SECOND);
    TheWriteStep(maximum, s, s');
    hide Next, IsEntry;
    forall a | IsEntry(NewLease(maximum), TheView(maximum), a) ensures a.rule.maximum == Some(maximum) {
      TheOnlyRule(maximum, a);
    }
  }

  lemma TheWriteStep(maximum: int, s: State, s': State)
    requires maximum > 0 && s == WithLease(NewLease(maximum), Idle, 0)
    requires s' == WithLease(TheLease(maximum), Labelling("l", 0, 1), SECOND)
    ensures Next(s, WriteStatus("l", TheView(maximum), At(SECOND), Assign(Granted("e", 0, false)), false), s')
  {
    hide Decides, NewStatus;
    TheGrant(maximum, NewLease(maximum));
    TheWrite(maximum);
    hide Written, TheView;
    assert s.leases["l" := TheLease(maximum)] == s'.leases;
    assert Covers(TheView(maximum).active, s.leases);
  }

  lemma TheOtherSteps(maximum: int)
    ensures Init(Start()) && Steps(Start(), WithLease(NewLease(maximum), Idle, 0))
    ensures Steps(WithLease(TheLease(maximum), Labelling("l", 0, 1), SECOND), WithLease(TheLease(maximum), Idle, SECOND))
  {
    hide Decides, NewStatus, Covers, LastActive, TheExporter, TheLease;
    var s1, s2 := WithLease(NewLease(maximum), Idle, 0), WithLease(TheLease(maximum), Labelling("l", 0, 1), SECOND);
    assert Start().leases["l" := NewLease(maximum)] == s1.leases;
    assert Next(Start(), CreateLease("l", TheSpec(maximum)), s1);
    assert Next(s2, LoseLabel, WithLease(TheLease(maximum), Idle, SECOND));
  }

  /** Create the lease, grant it, lose the label write. */
  lemma GrantedRun(maximum: int) returns (states: seq<State>)
    requires maximum > 0
    ensures |states| == 4 && Run(states) && GrantedOnlyUnder(states[1], states[2], "l", maximum)
    ensures states[3] == WithLease(TheLease(maximum), Idle, SECOND)
  {
    hide *;
    TheOtherSteps(maximum);
    TheGrantStep(maximum);
    states := [Start(), WithLease(NewLease(maximum), Idle, 0), WithLease(TheLease(maximum), Labelling("l", 0, 1), SECOND),
               WithLease(TheLease(maximum), Idle, SECOND)];
    FourAreARun(states);
  }

  lemma FourAreARun(states: seq<State>)
    requires |states| == 4 && Init(states[0])
    requires Steps(states[0], states[1]) && Steps(states[1], states[2]) && Steps(states[2], states[3])
    ensures Run(states)
  {
    hide Steps;
    forall i | 0 <= i < 3 ensures Steps(states[i], states[i + 1]) {
      assert i == 0 || i == 1 || i == 2;
    }
  }

  lemma Longer(states: seq<State>, step: Step, s: State)
    requires Run(states) && Next(states[|states| - 1], step, s)
    ensures Run(states + [s])
  {
    hide Next;
    var more := states + [s];
    forall i | 0 <= i < |more| - 1 ensures Steps(more[i], more[i + 1]) {
      assert more[i] == states[i];
      if i < |states| - 1 { assert Steps(states[i], states[i + 1]); }
    }
  }

  /** For every maximum and every longer duration: a lease granted under rules that all have the
      maximum is given the longer duration by its client's update call, and is then live at a
      reconciliation that reads the clock after the maximum has passed. */
  lemma OverstayHappens(maximum: int, longer: int)
    requires 0 < maximum < longer <= MAX_DURATION
    ensures exists states: seq<State> ::
              && |states| == 6 && Run(states) && GrantedOnlyUnder(states[1], states[2], "l", maximum)
              && "l" in states[3].leases && "l" in states[4].leases && "l" in states[5].leases
              && Updated(states[3].leases["l"], "c", Request(Times(None, None, Some(longer)), true, None, false)) == Some(states[4].leases["l"].spec)
              && states[5].leases["l"].status.begin.Some? && !states[5].leases["l"].status.ended
              && states[5].clock > states[5].leases["l"].status.begin.value + maximum
  {
    hide GrantedOnlyUnder, Run;
    var states := GrantedRun(maximum);
    var s3 := states[3];
    var s4 := Edited(s3, "l", TheSpec(longer));
    Longer(states, EditSpec("l", TheSpec(longer)), s4);
    var l4 := s4.leases["l"];
    var now := SECOND + maximum + 1;
    var l5 := Written(l4, Keep, At(now));
    var s5 := s4.(leases := s4.leases["l" := l5], worker := Labelling("l", 0, l5.version), clock := now);
    var view := View([], None, [], None, [l4]);
    assert Covers(view.active, s4.leases) by { assert l4 in view.active; }
    assert Next(s4, WriteStatus("l", view, At(now), Keep, false), s5);
    assert !l5.status.ended && l5.status.begin == Some(SECOND);
    hide Next, NewStatus, Decides, Covers;
    var five := states + [s4];
    Longer(five, WriteStatus("l", view, At(now), Keep, false), s5);
    var six := five + [s5];
    assert six[1] == states[1] && six[2] == states[2] && six[3] == s3 && six[4] == s4 && six[5] == s5;
  }

  /** The release patch of an exporter that held the lease when it was read hits whatever lease
      has the name by then: here one created again, that no exporter holds. */
  lemma RecreatedLeaseIsReleased(maximum: int)
    requires maximum > 0
    ensures exists states: seq<State>, i: nat, id: nat ::
              && Run(states) && i + 1 < |states| && Next(states[i], PatchRelease(id), states[i + 1])
              && states[i].calls[id].caller == ByExporter("e") && "l" in states[i + 1].leases
              && states[i + 1].leases["l"].spec.release && !HeldBy(states[i + 1].leases["l"], "e")
  {
    var states := GrantedRun(maximum);
    hide GrantedOnlyUnder, Run;
    var s3 := states[3];
    var s4 := s3.(calls := map[0 := Call("l", 0, ByExporter("e"))]);
    assert s3.calls[0 := Call("l", 0, ByExporter("e"))] == s4.calls;
    Longer(states, ReadForRelease(0, "l", ByExporter("e")), s4);
    var run4 := states + [s4];
    var s5 := s4.(leases := s4.leases - {"l"});
    Longer(run4, DeleteLease("l"), s5);
    var run5 := run4 + [s5];
    var again := Lease("l", 1, 0, TheSpec(maximum), NEW_STATUS, false);
    var s6 := s5.(leases := s5.leases["l" := again], nextUid := 2);
    Longer(run5, CreateLease("l", TheSpec(maximum)), s6);
    var run6 := run5 + [s6];
    var s7 := s6.(calls := s6.calls - {0}, leases := s6.leases["l" := MarkForRelease(again)]);
    assert Next(s6, PatchRelease(0), s7);
    Longer(run6, PatchRelease(0), s7);
    var run7 := run6 + [s7];
    assert run7[6] == s6 && run7[6 + 1] == s7;
  }
}
