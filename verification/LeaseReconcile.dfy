/** One reconciliation of one lease: pick an exporter, set the begin time, end the lease when
    it is due, and say when to look again. */
module LeaseReconcile {
  import opened Common
  import opened Selectors
  import opened LeaseTimes
  import opened LeaseModel
  import opened Approval
  import opened Ranking

  /** What one reconciliation reads. Nothing is assumed about how fresh it is. */
  datatype View = View(
    listed: seq<Exporter>, pinned: Option<Exporter>, policies: seq<Policy>,
    client: Option<Labels>, active: seq<Lease>)

  /** The clock readings of one reconciliation, in the order they are taken. */
  datatype Clock = Clock(assign: int, pending: int, poll: int, begin: int, ended: int, finish: int)

  predicate Monotone(c: Clock) {
    0 < c.assign <= c.pending <= c.poll <= c.begin <= c.ended <= c.finish
  }

  // ---------------------------------------------------------------- the pending back-off

  const MAX_PENDING_REQUEUE := 30 * SECOND

  function Backoff(elapsed: int): int {
    if elapsed <= SECOND then SECOND
    else if elapsed <= 2 * SECOND then 2 * SECOND
    else if elapsed <= 4 * SECOND then 4 * SECOND
    else if elapsed <= 8 * SECOND then 8 * SECOND
    else if elapsed <= 16 * SECOND then 16 * SECOND
    else MAX_PENDING_REQUEUE
  }

  function Pow2(k: nat): int { if k == 0 then 1 else 2 * Pow2(k - 1) }

  lemma {:induction false} Pow2Grows(k: nat)
    ensures Pow2(k) > k
  {
    if k > 0 { Pow2Grows(k - 1); }
  }

  lemma {:induction false} Pow2FromFive(k: nat)
    requires k >= 5
    ensures Pow2(k) >= 32
  {
    if k == 5 {
      assert Pow2(2) == 4 && Pow2(4) == 2 * Pow2(3);
    } else {
      Pow2FromFive(k - 1);
    }
  }

  predicate LeastPower(elapsed: int, k: nat) {
    elapsed <= Pow2(k) * SECOND && (k > 0 ==> Pow2(k - 1) * SECOND < elapsed)
  }

  lemma {:induction false} LeastPowerExists(elapsed: int, bound: nat) returns (k: nat)
    requires elapsed <= Pow2(bound) * SECOND
    ensures LeastPower(elapsed, k)
  {
    k := bound;
    if bound > 0 && elapsed <= Pow2(bound - 1) * SECOND { k := LeastPowerExists(elapsed, bound - 1); }
  }

  /** The back-off is the least power-of-two number of seconds not below the time spent
      pending, capped at thirty seconds. */
  lemma BackoffIsLeastPower(elapsed: int) returns (k: nat)
    ensures LeastPower(elapsed, k)
    ensures Backoff(elapsed) == if Pow2(k) < 30 then Pow2(k) * SECOND else 30 * SECOND
  {
    var bound := if elapsed > 0 then elapsed else 0;
    Pow2Grows(bound);
    k := LeastPowerExists(elapsed, bound);
    assert Pow2(1) == 2 && Pow2(2) == 4;
    assert Pow2(3) == 2 * Pow2(2) && Pow2(4) == 2 * Pow2(3);
    if k >= 6 { Pow2FromFive(k - 1); Pow2FromFive(k); }
    if k == 5 { Pow2FromFive(k); }
  }

  /** The doubling loop. */
  method PendingRequeueAfter(pendingSince: Option<int>, now: int) returns (r: int)
    ensures r == if pendingSince.None? then SECOND else Backoff(Since(now, pendingSince.value))
  {
    if pendingSince.None? { return SECOND; }
    var elapsed := Since(now, pendingSince.value);
    var backoff := SECOND;
    while backoff < MAX_PENDING_REQUEUE && backoff < elapsed
      invariant backoff in {SECOND, 2 * SECOND, 4 * SECOND, 8 * SECOND, 16 * SECOND, 32 * SECOND}
      invariant backoff > SECOND ==> backoff < 2 * elapsed
      decreases 64 * SECOND - backoff
    {
      backoff := 2 * backoff;
    }
    if backoff > MAX_PENDING_REQUEUE { backoff := MAX_PENDING_REQUEUE; }
    return backoff;
  }

  // ---------------------------------------------------------------- choosing an exporter

  datatype Decision =
    | Keep                        // ended, or already holding an exporter
    | WaitToBegin(wait: int)
    | MarkInvalid
    | MarkUnsatisfiable
    | MarkPending
    | Assign(grant: Granted)
    | Fail                        // an error: nothing is written

  datatype Matching = Refused | Matched(exporters: seq<Exporter>)

  function FilterExporters(s: seq<Exporter>, keep: Exporter -> bool): (r: seq<Exporter>)
    ensures forall e :: e in r <==> e in s && keep(e)
  {
    if s == [] then [] else
      assert s == [s[0]] + s[1..];
      (if keep(s[0]) then [s[0]] else []) + FilterExporters(s[1..], keep)
  }

  /** The exporters a lease asks for: the pinned one, or those its selector lists. */
  function MatchExporters(spec: LeaseSpec, view: View): Matching {
    if spec.exporterRef.Some? then
      if view.pinned.None? then Refused
      else if !IsEmpty(spec.selector) && !Accepts(spec.selector, view.pinned.value.labels) then Refused
      else if !IsEnabled(view.pinned.value) && !spec.allowDisabled then Refused
      else Matched([view.pinned.value])
    else
      var listed := FilterExporters(view.listed, (e: Exporter) => Accepts(spec.selector, e.labels));
      var enabled := FilterExporters(listed, IsEnabled);
      if enabled == [] && listed != [] then Refused else Matched(enabled)
  }

  /** What the approval step promises about the slice it returns. */
  ghost predicate ApprovalOf(exporters: seq<Exporter>, view: View, t: Times, approved: seq<Approved>) {
    forall a :: a in approved <==>
      && a.existing.None? && a.exporter in exporters
      && if view.policies == [] then a.rule == OPEN_RULE
         else view.client.Some? && ApprovedUnder(view.policies, a.exporter, a.rule, view.client.value, t)
  }

  predicate ApprovalFails(exporters: seq<Exporter>, view: View) {
    view.policies != [] && (view.client.None? || AnyBadVisit(view.policies, exporters))
  }

  predicate ReachableEntry(a: Approved) { Reachable(a.exporter) }

  function AttachAll(s: seq<Approved>, active: seq<Lease>): seq<Approved> {
    seq(|s|, i requires 0 <= i < |s| => Attached(s[i], active))
  }

  /** From the approved slice to a decision, through one ordering the sort may produce. */
  ghost predicate Pipeline(approved: seq<Approved>, active: seq<Lease>, ordered: seq<Approved>, d: Decision) {
    if approved == [] then d == MarkUnsatisfiable
    else
      var online := Filter(approved, ReachableEntry);
      if online == [] then d == MarkPending
      else
        var attached := AttachAll(online, active);
        && multiset(ordered) == multiset(attached)
        && (Rankable(attached) ==> Sorted(ordered))
        && d == match Choose(ordered)
                case SpotOnly => MarkUnsatisfiable
                case NotAvailable => MarkPending
                case NotReady => MarkPending
                case Assigned(grant) => Assign(grant)
  }

  ghost predicate DecidesAmong(exporters: seq<Exporter>, view: View, t: Times, d: Decision) {
    if ApprovalFails(exporters, view) then d == Fail
    else exists approved, ordered ::
           ApprovalOf(exporters, view, t, approved) && Pipeline(approved, view.active, ordered, d)
  }

  predicate Undecided(lease: Lease, now: int) {
    !lease.status.ended && lease.status.exporterRef.None? && MayBegin(lease.spec.times, now)
  }

  /** Every decision one reconciliation may take. */
  ghost predicate Decides(lease: Lease, view: View, now: int, d: Decision) {
    if lease.status.ended || lease.status.exporterRef.Some? then d == Keep
    else if !MayBegin(lease.spec.times, now) then d == WaitToBegin(Since(lease.spec.times.begin.value, now))
    else if !WellFormed(lease.spec.selector) then d == Fail
    else if IsEmpty(lease.spec.selector) && lease.spec.exporterRef.None? then d == MarkInvalid
    else match MatchExporters(lease.spec, view)
         case Refused => d == MarkUnsatisfiable
         case Matched(exporters) => DecidesAmong(exporters, view, lease.spec.times, d)
  }

  // ---------------------------------------------------------------- the status written

  function AfterDecision(st: LeaseStatus, d: Decision, c: Clock): LeaseStatus {
    match d
    case MarkInvalid => st.(invalid := true)
    case MarkUnsatisfiable => st.(unsatisfiable := true)
    case MarkPending => st.(pendingSince := if st.pendingSince.Some? then st.pendingSince else Some(c.pending))
    case Assign(g) => st.(priority := g.priority, spot := g.spot, exporterRef := Some(g.exporter))
    case _ => st
  }

  function TimerAfterDecision(st: LeaseStatus, d: Decision, c: Clock): int {
    match d
    case WaitToBegin(wait) => wait
    case MarkPending => Backoff(Since(c.poll, if st.pendingSince.Some? then st.pendingSince.value else c.pending))
    case _ => 0
  }

  function AfterBegin(st: LeaseStatus, c: Clock): LeaseStatus {
    if st.begin.None? && st.exporterRef.Some? then st.(begin := Some(c.begin), ready := Some(true)) else st
  }

  predicate Expired(spec: LeaseSpec, st: LeaseStatus, c: Clock) {
    st.begin.Some? && Expiration(spec.times, st.begin.value) < c.ended
  }

  function AfterEnded(spec: LeaseSpec, st: LeaseStatus, c: Clock): LeaseStatus {
    if st.ended then st
    else if st.unsatisfiable || st.invalid then st.(ended := true, end := Some(c.ended))
    else if spec.release || Expired(spec, st, c) then
      st.(ended := true, end := Some(c.finish), ready := Some(false))
    else st
  }

  function TimerAfterEnded(spec: LeaseSpec, st: LeaseStatus, timer: int, c: Clock): int {
    if !st.ended && !st.unsatisfiable && !st.invalid && !spec.release && st.begin.Some? && !Expired(spec, st, c)
    then Since(Expiration(spec.times, st.begin.value), c.ended)
    else timer
  }

  function NewStatus(lease: Lease, d: Decision, c: Clock): LeaseStatus {
    AfterEnded(lease.spec, AfterBegin(AfterDecision(lease.status, d, c), c), c)
  }

  function Timer(lease: Lease, d: Decision, c: Clock): int {
    TimerAfterEnded(lease.spec, AfterBegin(AfterDecision(lease.status, d, c), c), TimerAfterDecision(lease.status, d, c), c)
  }

  // ---------------------------------------------------------------- the reconciler

  /** The in-memory copy of the lease being reconciled, and the result being built. */
  class Reconciliation {
    const lease: Lease
    var status: LeaseStatus
    var requeueAfter: int

    constructor (lease: Lease)
      ensures this.lease == lease && status == lease.status && requeueAfter == 0
    {
      this.lease := lease;
      status := lease.status;
      requeueAfter := 0;
    }

    method SetPending(c: Clock)
      modifies this
      ensures status == AfterDecision(old(status), MarkPending, c)
      ensures requeueAfter == TimerAfterDecision(old(status), MarkPending, c)
    {
      if status.pendingSince.None? { status := status.(pendingSince := Some(c.pending)); }
      requeueAfter := PendingRequeueAfter(status.pendingSince, c.poll);
    }

    /** Everything from the approved slice on. */
    method AssignBest(approved: seq<Approved>, active: seq<Lease>, c: Clock) returns (ghost d: Decision, ghost ordered: seq<Approved>)
      requires requeueAfter == 0
      modifies this
      ensures Pipeline(approved, active, ordered, d)
      ensures status == AfterDecision(old(status), d, c)
      ensures requeueAfter == TimerAfterDecision(old(status), d, c)
    {
      ordered := [];
      if approved == [] {
        d := MarkUnsatisfiable;
        status := status.(unsatisfiable := true);
        return;
      }
      var online := Filter(approved, ReachableEntry);
      if online == [] {
        d := MarkPending;
        SetPending(c);
        return;
      }
      var attached := AttachExistingLeases(online, active);
      assert attached == AttachAll(online, active);
      var sorted := OrderApproved(attached);
      ordered := sorted;
      if sorted != [] && sorted[0].rule.spot {
        d := MarkUnsatisfiable;
        status := status.(unsatisfiable := true);
        return;
      }
      var available := Filter(sorted, Takeable);
      if available == [] {
        d := MarkPending;
        SetPending(c);
        return;
      }
      var ready := Filter(available, Ready);
      if ready == [] || ready[0].existing.Some? {
        d := MarkPending;
        SetPending(c);
        return;
      }
      d := Assign(Grant(ready[0]));
      status := status.(priority := ready[0].rule.priority, spot := ready[0].rule.spot,
                        exporterRef := Some(ready[0].exporter.name));
    }

    method ReconcileExporterRef(view: View, c: Clock) returns (ok: bool, ghost d: Decision)
      requires status == lease.status && requeueAfter == 0
      modifies this
      ensures Decides(lease, view, c.assign, d) && ok == !d.Fail?
      ensures status == AfterDecision(lease.status, d, c)
      ensures requeueAfter == TimerAfterDecision(lease.status, d, c)
    {
      ok, d := true, Keep;
      if status.ended || status.exporterRef.Some? { return; }
      var begin := lease.spec.times.begin;
      if begin.Some? && begin.value > c.assign {
        requeueAfter := Since(begin.value, c.assign);
        d := WaitToBegin(requeueAfter);
        return;
      }
      if !WellFormed(lease.spec.selector) { return false, Fail; }
      if IsEmpty(lease.spec.selector) && lease.spec.exporterRef.None? {
        status, d := status.(invalid := true), MarkInvalid;
        return;
      }
      var matching := MatchExporters(lease.spec, view);
      if matching.Refused? {
        status, d := status.(unsatisfiable := true), MarkUnsatisfiable;
        return;
      }
      var outcome := AttachMatchingPolicies(matching.exporters, view.policies, view.client, lease.spec.times);
      if outcome.ApprovalError? { return false, Fail; }
      ApprovalHolds(matching.exporters, view, lease.spec.times, outcome);
      ghost var ordered;
      d, ordered := AssignBest(outcome.approved, view.active, c);
    }

    method ReconcileBeginEndTimes(c: Clock)
      modifies this
      ensures status == AfterBegin(old(status), c) && requeueAfter == old(requeueAfter)
    {
      if status.begin.None? && status.exporterRef.Some? {
        status := status.(begin := Some(c.begin));
        status := status.(ready := Some(true));
      }
    }

    method ReconcileEnded(c: Clock)
      modifies this
      ensures status == AfterEnded(lease.spec, old(status), c)
      ensures requeueAfter == TimerAfterEnded(lease.spec, old(status), old(requeueAfter), c)
    {
      if !status.ended {
        if status.unsatisfiable || status.invalid {
          status := status.(ended := true, end := Some(c.ended));
        } else if lease.spec.release {
          status := status.(ready := Some(false), ended := true, end := Some(c.finish));
        } else if status.begin.Some? {
          var expiration := Expiration(lease.spec.times, status.begin.value);
          if expiration < c.ended {
            status := status.(ready := Some(false), ended := true, end := Some(c.finish));
          } else {
            requeueAfter := Since(expiration, c.ended);
          }
        }
      }
    }

    /** The three steps in order: the status to write, and the timer to return. */
    method Reconcile(view: View, c: Clock) returns (ok: bool, ghost d: Decision)
      requires status == lease.status && requeueAfter == 0
      modifies this
      ensures Decides(lease, view, c.assign, d) && ok == !d.Fail?
      ensures ok ==> status == NewStatus(lease, d, c) && requeueAfter == Timer(lease, d, c)
    {
      ok, d := ReconcileExporterRef(view, c);
      if !ok { return; }
      ReconcileBeginEndTimes(c);
      ReconcileEnded(c);
    }
  }

  lemma ApprovalHolds(exporters: seq<Exporter>, view: View, t: Times, o: Outcome)
    requires o.Approvals?
    requires view.policies == [] ==>
               o.approved == seq(|exporters|, i requires 0 <= i < |exporters| => Approved(exporters[i], None, OPEN_RULE))
    requires view.policies != [] ==>
               && view.client.Some?
               && forall a :: a in o.approved <==>
                    a.existing.None? && a.exporter in exporters && ApprovedUnder(view.policies, a.exporter, a.rule, view.client.value, t)
    ensures ApprovalOf(exporters, view, t, o.approved)
  {
    if view.policies == [] {
      forall a ensures a in o.approved <==> a.existing.None? && a.exporter in exporters && a.rule == OPEN_RULE {
        if a.existing.None? && a.exporter in exporters && a.rule == OPEN_RULE {
          var i :| 0 <= i < |exporters| && exporters[i] == a.exporter;
          assert o.approved[i] == a;
        }
      }
    }
  }

  // ---------------------------------------------------------------- what a lease asks for

  /** An exporter the lease can get as far as its own wishes go. By selector: listed, selected and
      not disabled. Pinned: found, selected, and not disabled unless the lease allows that. */
  ghost predicate Considered(spec: LeaseSpec, view: View, e: Exporter) {
    && Accepts(spec.selector, e.labels)
    && if spec.exporterRef.Some? then view.pinned == Some(e) && (e.enabled != Some(false) || spec.allowDisabled)
       else e in view.listed && e.enabled != Some(false)
  }

  /** Refused at once: the pinned exporter cannot be had, or all that are selected are disabled. */
  ghost predicate RefusedOutright(spec: LeaseSpec, view: View) {
    && (forall e :: !Considered(spec, view, e))
    && (spec.exporterRef.None? ==> exists e :: e in view.listed && Accepts(spec.selector, e.labels))
  }

  lemma MatchingIsConsidering(spec: LeaseSpec, view: View)
    ensures MatchExporters(spec, view).Refused? <==> RefusedOutright(spec, view)
    ensures MatchExporters(spec, view).Matched? ==>
              forall e :: e in MatchExporters(spec, view).exporters <==> Considered(spec, view, e)
  {
    if spec.exporterRef.None? {
      var accepted := (e: Exporter) => Accepts(spec.selector, e.labels);
      var listed := FilterExporters(view.listed, accepted);
      var enabled := FilterExporters(listed, IsEnabled);
      assert forall e :: e in listed <==> e in view.listed && Accepts(spec.selector, e.labels);
      assert forall e :: e in enabled <==> Considered(spec, view, e);
      if enabled != [] { assert enabled[0] in enabled; }
      if listed != [] { assert listed[0] in listed; }
    } else if view.pinned.Some? {
      var e := view.pinned.value;
      assert IsEmpty(spec.selector) ==> Accepts(spec.selector, e.labels);
      assert Considered(spec, view, e) <==> MatchExporters(spec, view).Matched?;
    }
  }

  // ---------------------------------------------------------------- what gets assigned

  /** The policies, if there are any, let the client have the exporter under this rule. */
  ghost predicate Approves(lease: Lease, view: View, e: Exporter, r: Rule) {
    if view.policies == [] then r == OPEN_RULE
    else view.client.Some? && ApprovedUnder(view.policies, e, r, view.client.value, lease.spec.times)
  }

  /** A considered, approved and reachable exporter under one rule, with the lease listed on it. */
  ghost predicate IsEntry(lease: Lease, view: View, a: Approved) {
    && Considered(lease.spec, view, a.exporter) && Approves(lease, view, a.exporter, a.rule)
    && a.exporter.registered && a.exporter.online
    && a.existing == LastHolder(view.active, a.exporter.name)
  }

  lemma {:induction false} FilterKeeps(s: seq<Approved>, keep: Approved -> bool)
    ensures forall a :: a in Filter(s, keep) <==> a in s && keep(a)
  {
    if s != [] {
      FilterKeeps(s[1..], keep);
      assert s == [s[0]] + s[1..];
    }
  }

  /** The slice that is sorted holds exactly the entries. */
  lemma EntriesAreExact(lease: Lease, view: View, approved: seq<Approved>)
    requires MatchExporters(lease.spec, view).Matched?
    requires ApprovalOf(MatchExporters(lease.spec, view).exporters, view, lease.spec.times, approved)
    ensures forall a :: a in AttachAll(Filter(approved, ReachableEntry), view.active) <==> IsEntry(lease, view, a)
  {
    FilterKeeps(approved, ReachableEntry);
    MatchingIsConsidering(lease.spec, view);
    hide Filter, ApprovedUnder, MatchExporters, LastHolder, Considered;
    var online := Filter(approved, ReachableEntry);
    var attached := AttachAll(online, view.active);
    forall a ensures a in attached <==> IsEntry(lease, view, a) {
      if a in attached {
        var i :| 0 <= i < |attached| && attached[i] == a;
        assert online[i] in online && a == Attached(online[i], view.active);
      }
      if IsEntry(lease, view, a) {
        var bare := a.(existing := None);
        assert bare in approved && bare in online;
        var i :| 0 <= i < |online| && online[i] == bare;
        assert attached[i] == a;
      }
    }
  }

  ghost predicate EntriesRankable(lease: Lease, view: View) {
    forall a, b :: IsEntry(lease, view, a) && IsEntry(lease, view, b) ==> Comparable(a, b)
  }

  ghost predicate LeastEntry(lease: Lease, view: View, a: Approved, among: Approved -> bool) {
    IsEntry(lease, view, a) && among(a) && forall b :: IsEntry(lease, view, b) && among(b) ==> !Before(b, a)
  }

  /** An error: a malformed selector in a policy that has to be looked at, or an unknown client. */
  ghost predicate ApprovalErrs(lease: Lease, view: View) {
    view.policies != [] && (view.client.None? || exists e, p :: Considered(lease.spec, view, e) && p in view.policies && Offends(p, e))
  }

  /** The lease is due, its own selector makes sense, and it asks for something. */
  predicate Chooses(lease: Lease, now: int) {
    && Due(lease, now) && !Malformed(lease.spec.selector)
    && !(lease.spec.selector == Selector(map[], []) && lease.spec.exporterRef.None?)
  }

  /** Neither ended nor assigned, and not scheduled for later. */
  predicate Due(lease: Lease, now: int) {
    && !lease.status.ended && lease.status.exporterRef.None?
    && (lease.spec.times.begin.Some? ==> lease.spec.times.begin.value <= now)
  }

  ghost predicate Proceeds(lease: Lease, view: View, now: int) {
    Chooses(lease, now) && !RefusedOutright(lease.spec, view) && !ApprovalErrs(lease, view)
  }

  ghost predicate SpotEntryFirst(lease: Lease, view: View) {
    exists a :: LeastEntry(lease, view, a, Any) && a.rule.spot
  }

  ghost predicate SomeCandidate(lease: Lease, view: View) { exists a :: IsEntry(lease, view, a) && Candidate(a) }

  ghost predicate SomeApproved(lease: Lease, view: View) {
    exists e, r :: Considered(lease.spec, view, e) && Approves(lease, view, e, r)
  }

  lemma ErrsIsFails(lease: Lease, view: View)
    requires MatchExporters(lease.spec, view).Matched?
    ensures ApprovalFails(MatchExporters(lease.spec, view).exporters, view) <==> ApprovalErrs(lease, view)
  {
    MatchingIsConsidering(lease.spec, view);
    forall p, e { BadVisitIs(p, e); }
    hide MatchExporters, BadVisit, Offends, Considered;
  }

  lemma SomeApprovedIsNonempty(lease: Lease, view: View, approved: seq<Approved>)
    requires MatchExporters(lease.spec, view).Matched?
    requires ApprovalOf(MatchExporters(lease.spec, view).exporters, view, lease.spec.times, approved)
    ensures approved != [] <==> SomeApproved(lease, view)
  {
    MatchingIsConsidering(lease.spec, view);
    hide MatchExporters, ApprovedUnder, Considered;
    if approved != [] {
      assert approved[0] in approved;
      assert Approves(lease, view, approved[0].exporter, approved[0].rule);
    }
    if e, r :| Considered(lease.spec, view, e) && Approves(lease, view, e, r) { assert Approved(e, None, r) in approved; }
  }

  /** What the choice comes to, once it is made among the entries. */
  lemma ChoiceAmongEntries(lease: Lease, view: View, approved: seq<Approved>, ordered: seq<Approved>, d: Decision)
    requires MatchExporters(lease.spec, view).Matched? && EntriesRankable(lease, view)
    requires ApprovalOf(MatchExporters(lease.spec, view).exporters, view, lease.spec.times, approved)
    requires Pipeline(approved, view.active, ordered, d)
    ensures d.MarkUnsatisfiable? <==> !SomeApproved(lease, view) || SpotEntryFirst(lease, view)
    ensures d.Assign? <==> !SpotEntryFirst(lease, view) && SomeCandidate(lease, view)
    ensures d.Assign? ==> exists a :: LeastEntry(lease, view, a, Candidate) && d == Assign(Grant(a))
    ensures d.MarkUnsatisfiable? || d.Assign? || d.MarkPending?
  {
    EntriesAreExact(lease, view, approved);
    SomeApprovedIsNonempty(lease, view, approved);
    NoEntryUnapproved(lease, view);
    hide ApprovalOf, IsEntry, MatchExporters, SomeApproved, Before, Candidate, Rankable;
    var online := Filter(approved, ReachableEntry);
    var attached := AttachAll(online, view.active);
    assert approved == [] ==> online == [];
    hide Filter;
    if approved == [] || online == [] {
      assert attached == [];
    } else {
      EntriesAreRankable(lease, view, attached);
      ChoiceIsLeast(attached, ordered);
      SpotFirstIsEntry(lease, view, attached);
      assert SomeCandidate(lease, view) <==> exists a :: a in attached && Candidate(a);
      if Choose(ordered).Assigned? {
        var a :| Least(a, attached, Candidate) && Choose(ordered) == Assigned(Grant(a));
        assert LeastEntry(lease, view, a, Candidate);
      }
    }
  }

  lemma NoEntryUnapproved(lease: Lease, view: View)
    ensures SpotEntryFirst(lease, view) || SomeCandidate(lease, view) ==> SomeApproved(lease, view)
  {
  }

  lemma EntriesAreRankable(lease: Lease, view: View, s: seq<Approved>)
    requires EntriesRankable(lease, view) && forall a :: a in s <==> IsEntry(lease, view, a)
    ensures Rankable(s)
  {
    hide IsEntry;
  }

  /** Every decision, from the lease, the policies, the listing and the active leases alone. */
  lemma DecisionIff(lease: Lease, view: View, now: int, d: Decision)
    requires Decides(lease, view, now, d) && EntriesRankable(lease, view)
    ensures d.Keep? <==> lease.status.ended || lease.status.exporterRef.Some?
    ensures d.WaitToBegin? <==> !d.Keep? && lease.spec.times.begin.Some? && lease.spec.times.begin.value > now
    ensures d.MarkInvalid? <==>
            Due(lease, now) && lease.spec.selector == Selector(map[], []) && lease.spec.exporterRef.None?
    ensures d.Fail? <==>
            Due(lease, now)
            && (Malformed(lease.spec.selector)
                || (Chooses(lease, now) && !RefusedOutright(lease.spec, view) && ApprovalErrs(lease, view)))
    ensures d.MarkUnsatisfiable? <==>
            Chooses(lease, now)
            && (RefusedOutright(lease.spec, view)
                || (!ApprovalErrs(lease, view) && (!SomeApproved(lease, view) || SpotEntryFirst(lease, view))))
    ensures d.MarkPending? <==>
            Proceeds(lease, view, now) && SomeApproved(lease, view) && !SpotEntryFirst(lease, view) && !SomeCandidate(lease, view)
    ensures d.Assign? <==> Proceeds(lease, view, now) && !SpotEntryFirst(lease, view) && SomeCandidate(lease, view)
  {
    WellFormedIs(lease.spec.selector);
    assert Malformed(lease.spec.selector) ==> lease.spec.selector != Selector(map[], []);
    hide EntriesRankable, SpotEntryFirst, SomeCandidate, SomeApproved, ApprovalErrs, RefusedOutright, MatchExporters, DecidesAmong,
         WellFormed, Malformed;
    NoEntryUnapproved(lease, view);
    MatchingIsConsidering(lease.spec, view);
    if Chooses(lease, now) && MatchExporters(lease.spec, view).Matched? {
      ErrsIsFails(lease, view);
      AmongEntries(lease, view, d);
    }
  }

  lemma AmongEntries(lease: Lease, view: View, d: Decision)
    requires MatchExporters(lease.spec, view).Matched? && EntriesRankable(lease, view)
    requires DecidesAmong(MatchExporters(lease.spec, view).exporters, view, lease.spec.times, d)
    ensures ApprovalFails(MatchExporters(lease.spec, view).exporters, view) ==> d.Fail?
    ensures !ApprovalFails(MatchExporters(lease.spec, view).exporters, view) ==>
              && (d.MarkUnsatisfiable? <==> !SomeApproved(lease, view) || SpotEntryFirst(lease, view))
              && (d.Assign? <==> !SpotEntryFirst(lease, view) && SomeCandidate(lease, view))
              && (d.Assign? ==> exists a :: LeastEntry(lease, view, a, Candidate) && d == Assign(Grant(a)))
              && (d.MarkUnsatisfiable? || d.Assign? || d.MarkPending?)
  {
    hide ApprovalOf, Pipeline, MatchExporters, EntriesRankable, SpotEntryFirst, SomeCandidate, SomeApproved, LeastEntry, ApprovalFails;
    var exporters := MatchExporters(lease.spec, view).exporters;
    if !ApprovalFails(exporters, view) {
      var approved, ordered :| ApprovalOf(exporters, view, lease.spec.times, approved) && Pipeline(approved, view.active, ordered, d);
      ChoiceAmongEntries(lease, view, approved, ordered, d);
    }
  }

  /** Who is assigned: a lease that gets as far as choosing gets an exporter exactly when some entry
      is free and ready and the least entry is not a spot one, and then the least free and ready
      entry. */
  lemma AssignmentIsLeast(lease: Lease, view: View, now: int, d: Decision)
    requires Decides(lease, view, now, d) && Proceeds(lease, view, now) && EntriesRankable(lease, view)
    ensures d.Assign? <==> !SpotEntryFirst(lease, view) && SomeCandidate(lease, view)
    ensures d.Assign? ==> exists a :: LeastEntry(lease, view, a, Candidate) && d == Assign(Grant(a))
  {
    WellFormedIs(lease.spec.selector);
    hide EntriesRankable, SpotEntryFirst, SomeCandidate, SomeApproved, MatchExporters, DecidesAmong, LeastEntry, WellFormed, Malformed,
         RefusedOutright, ApprovalErrs;
    MatchingIsConsidering(lease.spec, view);
    ErrsIsFails(lease, view);
    AmongEntries(lease, view, d);
  }

  lemma SpotFirstIsEntry(lease: Lease, view: View, s: seq<Approved>)
    requires forall a :: a in s <==> IsEntry(lease, view, a)
    ensures SpotFirst(s) <==> SpotEntryFirst(lease, view)
  {
    hide IsEntry, Before;
    if SpotFirst(s) {
      var a :| Least(a, s, Any) && a.rule.spot;
      assert LeastEntry(lease, view, a, Any);
    }
    if SpotEntryFirst(lease, view) {
      var a :| LeastEntry(lease, view, a, Any) && a.rule.spot;
      assert Least(a, s, Any);
    }
  }

  /** Without policies no entry is spot and every priority is zero, so the spot refusal never fires
      and the first name in the alphabet wins. */
  lemma OpenClusterHasNoSpot(lease: Lease, view: View)
    requires view.policies == []
    ensures forall a :: IsEntry(lease, view, a) ==> !a.rule.spot && a.rule.priority == 0 && a.rule.maximum.None?
    ensures !SpotEntryFirst(lease, view) && EntriesRankable(lease, view) && !ApprovalErrs(lease, view)
  {
  }

  /** Whatever the view, an assignment is the grant of a free and ready entry. */
  lemma AssignedIsEntry(lease: Lease, view: View, now: int, g: Granted) returns (a: Approved)
    requires Decides(lease, view, now, Assign(g))
    ensures IsEntry(lease, view, a) && Candidate(a) && Grant(a) == g
  {
    var exporters := MatchExporters(lease.spec, view).exporters;
    var approved, ordered :| ApprovalOf(exporters, view, lease.spec.times, approved)
                             && Pipeline(approved, view.active, ordered, Assign(g));
    EntriesAreExact(lease, view, approved);
    var i := ChoiceIsFree(ordered);
    a := ordered[i];
    assert a in multiset(ordered) && a in AttachAll(Filter(approved, ReachableEntry), view.active);
  }

  /** Whatever the view, an exporter is assigned only if no listed lease references it. */
  lemma AssignedIsUnlisted(lease: Lease, view: View, now: int, g: Granted)
    requires Decides(lease, view, now, Assign(g))
    ensures forall l :: l in view.active ==> l.status.exporterRef != Some(g.exporter)
    ensures Undecided(lease, now)
  {
    var _ := AssignedIsEntry(lease, view, now, g);
    LastHolderNone(view.active, g.exporter);
  }

  /** A lease granted what a rule with a maximum grants, whose requested window survives storage,
      expires no later than that maximum after the begin time written with the assignment. */
  lemma GrantedWithinMaximum(request: Times, lease: Lease, view: View, c: Clock, g: Granted)
    requires Verdict(request).None? && (request.duration.Some? ==> request.duration.value <= MAX_DURATION)
    requires lease.spec.times == Stored(Completed(request)) && WindowKept(Completed(request))
    requires Decides(lease, view, c.assign, Assign(g)) && Monotone(c)
    ensures forall a :: IsEntry(lease, view, a) && Grant(a) == g && a.rule.maximum.Some? ==>
              Expiration(lease.spec.times, c.begin) <= c.begin + a.rule.maximum.value
  {
    hide DecidesAmong, LastHolder;
    MaximumDurationRespected(request);
    forall a | IsEntry(lease, view, a) && Grant(a) == g && a.rule.maximum.Some?
      ensures Expiration(lease.spec.times, c.begin) <= c.begin + a.rule.maximum.value
    {
      assert WithinRule(a.rule, lease.spec.times);
      assert WithinMaximum(lease.spec.times, c.begin, a.rule.maximum.value);
    }
  }

  // ---------------------------------------------------------------- every written status

  /** What holds of every lease ever persisted. */
  predicate StatusInv(st: LeaseStatus) {
    && (st.ready == Some(true) <==> st.exporterRef.Some? && !st.ended)
    && (st.begin.Some? <==> st.exporterRef.Some?)
    && (st.end.Some? <==> st.ended)
    && (st.unsatisfiable || st.invalid ==> st.ended && st.exporterRef.None?)
  }

  /** Ended, the exporter reference and the begin time are written once. */
  predicate WriteOnce(before: LeaseStatus, after: LeaseStatus) {
    && (before.ended ==> after == before)
    && (before.exporterRef.Some? ==>
          after.exporterRef == before.exporterRef && after.begin == before.begin
          && after.priority == before.priority && after.spot == before.spot)
    && (before.unsatisfiable ==> after.unsatisfiable)
  }

  lemma StatusInvKept(lease: Lease, view: View, c: Clock, d: Decision)
    requires StatusInv(lease.status) && Decides(lease, view, c.assign, d) && !d.Fail?
    ensures StatusInv(NewStatus(lease, d, c)) && WriteOnce(lease.status, NewStatus(lease, d, c))
  {
  }

  /** What one reconciliation writes, field by field, whatever the decision. */
  lemma NewStatusIs(lease: Lease, view: View, c: Clock, d: Decision)
    requires StatusInv(lease.status) && Decides(lease, view, c.assign, d) && !d.Fail?
    ensures var before, after := lease.status, NewStatus(lease, d, c);
            && after.exporterRef == (if d.Assign? then Some(d.grant.exporter) else before.exporterRef)
            && after.priority == (if d.Assign? then d.grant.priority else before.priority)
            && after.spot == (if d.Assign? then d.grant.spot else before.spot)
            && after.begin == (if d.Assign? then Some(c.begin) else before.begin)
            && (after.unsatisfiable <==> before.unsatisfiable || d.MarkUnsatisfiable?)
            && (after.invalid <==> before.invalid || d.MarkInvalid?)
            && after.pendingSince == (if d.MarkPending? && before.pendingSince.None? then Some(c.pending) else before.pendingSince)
            && after.ready == (if !before.ended && after.ended && !d.MarkUnsatisfiable? && !d.MarkInvalid? then Some(false)
                               else if d.Assign? then Some(true) else before.ready)
            && after.end == (if before.ended then before.end else if !after.ended then None
                             else if d.MarkUnsatisfiable? || d.MarkInvalid? then Some(c.ended) else Some(c.finish))
  {
    hide DecidesAmong, MatchExporters, WellFormed, IsEmpty;
    var matching := MatchExporters(lease.spec, view);
    if matching.Matched? && DecidesAmong(matching.exporters, view, lease.spec.times, d) {
      AmongDecides(matching.exporters, view, lease.spec.times, d);
    }
  }

  /** A reconciliation leaves a lease ended exactly when it was, or when it is found invalid or
      unsatisfiable, is marked for release, or holds an exporter past its expiration. */
  lemma EndedIff(lease: Lease, view: View, c: Clock, d: Decision)
    requires StatusInv(lease.status) && Decides(lease, view, c.assign, d) && !d.Fail?
    ensures var after := NewStatus(lease, d, c);
            after.ended <==>
            || lease.status.ended || d.MarkInvalid? || d.MarkUnsatisfiable? || lease.spec.release
            || (after.exporterRef.Some? && after.begin.Some? && Expiration(lease.spec.times, after.begin.value) < c.ended)
  {
    hide DecidesAmong, MatchExporters, WellFormed, IsEmpty;
  }

  /** Choosing among exporters ends in one of these. */
  lemma AmongDecides(exporters: seq<Exporter>, view: View, t: Times, d: Decision)
    requires DecidesAmong(exporters, view, t, d)
    ensures d.Fail? || d.MarkUnsatisfiable? || d.MarkPending? || d.Assign?
  {
    hide ApprovalOf, ApprovalFails, AttachAll, Filter, Choose, Sorted, Rankable;
  }

  /** No live lease is left without a timer: the wait for its begin time, the time left to its
      expiration, or the pending back-off. Only a lease expiring at the very instant of the
      clock reading gets a zero, which means no timer. */
  lemma TimerIsSet(lease: Lease, view: View, c: Clock, d: Decision)
    requires StatusInv(lease.status) && Decides(lease, view, c.assign, d) && !d.Fail? && Monotone(c)
    requires !NewStatus(lease, d, c).ended
    ensures var st, timer := NewStatus(lease, d, c), Timer(lease, d, c);
            if st.exporterRef.Some? then
              && timer == Since(Expiration(lease.spec.times, st.begin.value), c.ended) && timer >= 0
              && (timer == 0 <==> Expiration(lease.spec.times, st.begin.value) == c.ended)
            else if !MayBegin(lease.spec.times, c.assign) then
              timer == Since(lease.spec.times.begin.value, c.assign) && timer > 0
            else
              && st.pendingSince.Some? && timer == Backoff(Since(c.poll, st.pendingSince.value))
              && SECOND <= timer <= MAX_PENDING_REQUEUE
  {
    hide Backoff, DecidesAmong, MatchExporters, WellFormed, IsEmpty;
    var matching := MatchExporters(lease.spec, view);
    if matching.Matched? && DecidesAmong(matching.exporters, view, lease.spec.times, d) {
      AmongDecides(matching.exporters, view, lease.spec.times, d);
    }
    BackoffRange(Since(c.poll, if lease.status.pendingSince.Some? then lease.status.pendingSince.value else c.pending));
  }

  /** It does happen: one second after a one-second lease began, exactly, it is live without timer. */
  lemma ZeroTimerHappens(spec: LeaseSpec, view: View)
    requires spec.times == Times(None, None, Some(SECOND)) && !spec.release
    ensures var st := LeaseStatus(Some(SECOND), None, Some("e"), false, 0, false, Some(true), None, false, false);
            var lease := Lease("l", 0, 0, spec, st, false);
            var now := 2 * SECOND;
            var c := Clock(now, now, now, now, now, now);
            && StatusInv(st) && Monotone(c) && Decides(lease, view, now, Keep)
            && !NewStatus(lease, Keep, c).ended && Timer(lease, Keep, c) == 0
  {
  }

  lemma BackoffRange(elapsed: int)
    ensures SECOND <= Backoff(elapsed) <= MAX_PENDING_REQUEUE
  {
  }

  /** A reconciliation that reads the clock after the expiration ends the lease. */
  lemma ExpiredLeaseEnds(lease: Lease, view: View, c: Clock, d: Decision)
    requires StatusInv(lease.status) && Decides(lease, view, c.assign, d) && !d.Fail?
    requires lease.status.exporterRef.Some? && Expiration(lease.spec.times, lease.status.begin.value) < c.ended
    ensures NewStatus(lease, d, c).ended
  {
  }

  // ---------------------------------------------------------------- acquisition results

  datatype Acquisition = Success | Failure

  function AcquisitionResult(before: LeaseStatus, after: LeaseStatus): Option<Acquisition> {
    if before.exporterRef.None? && after.exporterRef.Some? then Some(Success)
    else if !before.unsatisfiable && after.unsatisfiable then Some(Failure)
    else None
  }
}
