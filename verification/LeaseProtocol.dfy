/** The lease protocol as a state machine: one lease worker that writes a lease's status and
    then, separately, its ended label (a write that can be lost), the exporter reconciler that
    derives each exporter's lease reference, release calls that read a lease and patch it
    later, and arbitrary edits by users and exporters in between. */
module LeaseProtocol {
  import opened Common
  import opened LeaseTimes
  import opened LeaseModel
  import opened LeaseReconcile

  /** Between the status write and the label write the worker remembers what it wrote. */
  datatype Worker = Idle | Labelling(name: string, uid: nat, version: nat)

  datatype Record = Record(uid: nat, result: Acquisition)

  datatype Caller = ByClient(client: string) | DeletedBy(client: string) | ByExporter(exporter: string)

  /** A release call between its read of the lease and its patch: which lease object it read, and
      who asked. */
  datatype Call = Call(name: string, uid: nat, caller: Caller)

  datatype State = State(
    leases: map<string, Lease>, exporters: map<string, Exporter>, calls: map<nat, Call>,
    worker: Worker, log: seq<Record>, nextUid: nat, clock: int)

  datatype Step =
    | CreateLease(name: string, spec: LeaseSpec)
    | DeleteLease(name: string)
    | EditSpec(name: string, spec: LeaseSpec)
    | ReadForRelease(id: nat, name: string, caller: Caller)
    | PatchRelease(id: nat)
    | EditExporter(exporter: string, to: Exporter)
    | RemoveExporter(exporter: string)
    | ReconcileExporter(exporter: string, listing: seq<Lease>)
    | WriteStatus(name: string, view: View, readings: Clock, decision: Decision, recorded: bool)
    | WriteLabel
    | LoseLabel
    | Tick(now: int)

  /** The listing the allocator reads has every persisted assignment not labelled as ended. */
  ghost predicate Covers(active: seq<Lease>, leases: map<string, Lease>) {
    forall n :: n in leases && !leases[n].endedLabel && leases[n].status.exporterRef.Some? ==>
      exists l :: l in active && l.status.exporterRef == leases[n].status.exporterRef
  }

  // ---------------------------------------------------------------- releasing

  /** The patch is by name and unconditional. */
  function MarkForRelease(l: Lease): Lease { l.(spec := l.spec.(release := true), version := l.version + 1) }

  predicate HeldBy(l: Lease, exporter: string) { l.status.exporterRef == Some(exporter) }

  /** What a release call checks on the lease it read: the client owns it or the exporter holds
      it, and it is neither ended nor already marked. Deleting a lease marks it too, ended or not. */
  predicate MayRelease(l: Lease, caller: Caller) {
    && !l.spec.release
    && match caller
       case ByClient(client) => l.spec.client == client && !l.status.ended
       case DeletedBy(client) => l.spec.client == client
       case ByExporter(exporter) => HeldBy(l, exporter) && !l.status.ended
  }

  // ---------------------------------------------------------------- the exporter reconciler

  predicate Holds(l: Lease, exporter: string) { !l.status.ended && HeldBy(l, exporter) }

  function LastActive(listing: seq<Lease>, exporter: string): Option<string> {
    if listing == [] then None
    else if Holds(listing[|listing| - 1], exporter) then Some(listing[|listing| - 1].name)
    else LastActive(listing[..|listing| - 1], exporter)
  }

  const ONLINE_WINDOW := 60 * SECOND

  /** The exporter status one reconciliation builds up. */
  class ExporterReconciliation {
    const seenAt: Option<int>
    const hasDevices: bool
    const name: string
    var leaseRef: Option<string>
    var online: bool
    var registered: bool
    var state: ExporterState
    var requeueAfter: int

    constructor (e: Exporter)
      ensures name == e.name && seenAt == e.lastSeen && hasDevices == e.hasDevices
      ensures leaseRef == e.leaseRef && online == e.online && registered == e.registered
      ensures state == e.state && requeueAfter == 0
    {
      name, seenAt, hasDevices := e.name, e.lastSeen, e.hasDevices;
      leaseRef, online, registered, state, requeueAfter := e.leaseRef, e.online, e.registered, e.state, 0;
    }

    /** The loop keeps the last listed lease that has not ended and names the exporter. */
    method ReconcileLeaseRef(listing: seq<Lease>)
      modifies this`leaseRef
      ensures leaseRef == LastActive(listing, name)
    {
      leaseRef := None;
      for i := 0 to |listing|
        invariant leaseRef == LastActive(listing[..i], name)
      {
        assert listing[..i + 1][..i] == listing[..i];
        if !listing[i].status.ended && listing[i].status.exporterRef.Some? {
          if listing[i].status.exporterRef.value == name { leaseRef := Some(listing[i].name); }
        }
      }
      assert listing[..|listing|] == listing;
    }

    /** Online means seen within the last minute and not reporting itself offline; an exporter
        lost for longer is put offline, one never seen keeps its state. */
    method ReconcileOnline(now: int)
      modifies this`online, this`registered, this`state, this`requeueAfter
      ensures online <==> seenAt.Some? && Since(now, seenAt.value) <= 60 * SECOND && !old(state).Offline?
      ensures state == if seenAt.Some? && Since(now, seenAt.value) > 60 * SECOND then Offline else old(state)
      ensures registered == hasDevices
      ensures requeueAfter == if online then 30 * SECOND else 0
    {
      requeueAfter := 0;
      if seenAt.None? {
        online := false;
      } else if Since(now, seenAt.value) > ONLINE_WINDOW {
        online := false;
        state := Offline;
      } else if state.Offline? {
        online := false;
      } else {
        online := true;
        requeueAfter := 30 * SECOND;
      }
      registered := hasDevices;
    }
  }

  // ---------------------------------------------------------------- steps

  predicate Init(s: State) {
    s.leases == map[] && s.calls == map[] && s.worker == Idle && s.log == []
  }

  /** Times are persisted as whole seconds. */
  function Saved(spec: LeaseSpec): LeaseSpec { spec.(times := Stored(spec.times)) }

  function Cut(instant: Option<int>): Option<int> { if instant.Some? then Some(WholeSeconds(instant.value)) else None }

  function Persisted(st: LeaseStatus): LeaseStatus {
    st.(begin := Cut(st.begin), end := Cut(st.end), pendingSince := Cut(st.pendingSince))
  }

  function Edited(s: State, name: string, spec: LeaseSpec): State
    requires name in s.leases
  {
    var l := s.leases[name];
    s.(leases := s.leases[name := l.(spec := Saved(spec), version := l.version + 1)])
  }

  function Written(l: Lease, d: Decision, c: Clock): Lease {
    l.(status := Persisted(NewStatus(l, d, c)), version := l.version + 1)
  }

  function Recorded(log: seq<Record>, uid: nat, r: Option<Acquisition>): seq<Record> {
    if r.Some? then log + [Record(uid, r.value)] else log
  }

  ghost predicate Next(s: State, step: Step, s': State) {
    match step
    case CreateLease(name, spec) =>
      && name !in s.leases
      && s' == s.(leases := s.leases[name := Lease(name, s.nextUid, 0, Saved(spec), NEW_STATUS, false)], nextUid := s.nextUid + 1)
    case DeleteLease(name) =>
      s' == s.(leases := s.leases - {name})
    case EditSpec(name, spec) =>
      name in s.leases && s' == Edited(s, name, spec)
    case ReadForRelease(id, name, caller) =>
      && id !in s.calls && name in s.leases && MayRelease(s.leases[name], caller)
      && s' == s.(calls := s.calls[id := Call(name, s.leases[name].uid, caller)])
    case PatchRelease(id) =>
      && id in s.calls
      && var name := s.calls[id].name;
         s' == s.(calls := s.calls - {id},
                  leases := if name in s.leases then s.leases[name := MarkForRelease(s.leases[name])] else s.leases)
    case EditExporter(exporter, to) =>
      && (exporter in s.exporters ==> to.leaseRef == s.exporters[exporter].leaseRef)
      && s' == s.(exporters := s.exporters[exporter := to])
    case RemoveExporter(exporter) =>
      s' == s.(exporters := s.exporters - {exporter})
    case ReconcileExporter(exporter, listing) =>
      && exporter in s.exporters
      && s' == s.(exporters := s.exporters[exporter := s.exporters[exporter].(leaseRef := LastActive(listing, exporter))])
    case WriteStatus(name, view, c, d, recorded) =>
      && s.worker == Idle && name in s.leases
      && Covers(view.active, s.leases) && Monotone(c) && s.clock <= c.assign
      && Decides(s.leases[name], view, c.assign, d) && !d.Fail?
      && var l := Written(s.leases[name], d, c);
         s' == s.(leases := s.leases[name := l],
                  worker := Labelling(name, l.uid, l.version),
                  log := if recorded then Recorded(s.log, l.uid, AcquisitionResult(s.leases[name].status, l.status)) else s.log,
                  clock := c.finish)
    case WriteLabel =>
      && s.worker.Labelling? && s.worker.name in s.leases
      && var l := s.leases[s.worker.name];
         && l.uid == s.worker.uid && l.version == s.worker.version
         && s' == s.(leases := s.leases[s.worker.name := l.(endedLabel := l.endedLabel || l.status.ended, version := l.version + 1)],
                     worker := Idle)
    case LoseLabel =>
      s' == s.(worker := Idle)
    case Tick(now) =>
      s.clock <= now && s' == s.(clock := now)
  }

  ghost predicate Steps(s: State, s': State) { exists step :: Next(s, step, s') }

  ghost predicate Run(states: seq<State>) {
    && states != [] && Init(states[0])
    && forall i :: 0 <= i < |states| - 1 ==> Steps(states[i], states[i + 1])
  }

  // ---------------------------------------------------------------- the invariant

  predicate LeaseInv(name: string, l: Lease, nextUid: nat) {
    && l.name == name && l.uid < nextUid && StatusInv(l.status) && (l.endedLabel ==> l.status.ended)
    && Persisted(l.status) == l.status && Saved(l.spec) == l.spec
  }

  /** No two leases that have not ended reference the same exporter. */
  ghost predicate Exclusive(leases: map<string, Lease>) {
    forall m, n :: (m in leases && n in leases && m != n && leases[m].status.exporterRef.Some?
                    && !leases[m].status.ended && !leases[n].status.ended) ==>
      leases[m].status.exporterRef != leases[n].status.exporterRef
  }

  ghost predicate DistinctUids(leases: map<string, Lease>) {
    forall m, n :: m in leases && n in leases && m != n ==> leases[m].uid != leases[n].uid
  }

  /** The acquisition log never has two results for one lease, and agrees with the status. */
  ghost predicate LogInv(s: State) {
    && (forall i, j :: 0 <= i < j < |s.log| ==> s.log[i].uid != s.log[j].uid)
    && (forall i :: 0 <= i < |s.log| ==> s.log[i].uid < s.nextUid)
    && (forall i, n :: 0 <= i < |s.log| && n in s.leases && s.leases[n].uid == s.log[i].uid ==>
          if s.log[i].result.Success? then s.leases[n].status.exporterRef.Some? else s.leases[n].status.unsatisfiable)
  }

  /** As long as the lease a call read is still there, the exporter it checked still holds it. */
  ghost predicate CallsInv(s: State) {
    forall id :: id in s.calls ==>
      var call := s.calls[id];
      && call.uid < s.nextUid
      && (call.caller.ByExporter? && call.name in s.leases && s.leases[call.name].uid == call.uid ==>
            HeldBy(s.leases[call.name], call.caller.exporter))
  }

  ghost predicate Inv(s: State) {
    && (forall n :: n in s.leases ==> LeaseInv(n, s.leases[n], s.nextUid))
    && Exclusive(s.leases) && DistinctUids(s.leases) && LogInv(s) && CallsInv(s)
  }

  predicate FewerCalls(s: State, s': State) {
    forall id :: id in s'.calls ==> id in s.calls && s'.calls[id] == s.calls[id]
  }

  /** Steps that touch one lease without its status: spec edits, release marks, the label. */
  lemma SameStatusKeepsInv(s: State, s': State, name: string, l: Lease)
    requires Inv(s) && name in s.leases
    requires l.name == name && l.uid == s.leases[name].uid && l.status == s.leases[name].status
    requires (l.endedLabel ==> l.status.ended) && Saved(l.spec) == l.spec
    requires s'.leases == s.leases[name := l] && s'.log == s.log && s'.nextUid == s.nextUid && FewerCalls(s, s')
    ensures Inv(s')
  {
    hide Persisted, Saved, StatusInv;
  }

  lemma SavedTwice(spec: LeaseSpec)
    ensures Saved(Saved(spec)) == Saved(spec)
  {
  }

  lemma CreateKeepsInv(s: State, s': State, name: string, spec: LeaseSpec)
    requires Inv(s) && Next(s, CreateLease(name, spec), s')
    ensures Inv(s')
  {
    hide Saved, Decides, NewStatus, Covers;
    SavedTwice(spec);
    CreateKeepsApart(s, s', name, spec);
    hide Exclusive, DistinctUids;
  }

  lemma CreateKeepsApart(s: State, s': State, name: string, spec: LeaseSpec)
    requires Exclusive(s.leases) && DistinctUids(s.leases) && Next(s, CreateLease(name, spec), s')
    requires forall n :: n in s.leases ==> s.leases[n].uid < s.nextUid
    ensures Exclusive(s'.leases) && DistinctUids(s'.leases)
  {
    hide Saved, Decides, NewStatus, Covers;
  }

  /** Cutting the times to whole seconds changes nothing the invariants speak of. */
  lemma WrittenKept(l: Lease, view: View, c: Clock, d: Decision)
    requires StatusInv(l.status) && Persisted(l.status) == l.status && Decides(l, view, c.assign, d) && !d.Fail?
    ensures var st := Written(l, d, c).status;
            && StatusInv(st) && WriteOnce(l.status, st) && Persisted(st) == st
            && st.exporterRef == NewStatus(l, d, c).exporterRef && st.ended == NewStatus(l, d, c).ended
  {
    hide NewStatus, Decides;
    StatusInvKept(l, view, c, d);
    CutTwice(NewStatus(l, d, c));
  }

  lemma CutTwice(st: LeaseStatus)
    ensures Persisted(Persisted(st)) == Persisted(st)
  {
  }

  lemma WriteKeepsExclusive(s: State, name: string, view: View, c: Clock, d: Decision)
    requires Inv(s) && name in s.leases && Covers(view.active, s.leases)
    requires Decides(s.leases[name], view, c.assign, d) && !d.Fail?
    ensures Exclusive(s.leases[name := Written(s.leases[name], d, c)])
  {
    hide LogInv, CallsInv, DistinctUids, StatusInv, DecidesAmong, MatchExporters, Persisted, Saved;
    var l, l' := s.leases[name], Written(s.leases[name], d, c);
    WrittenKept(l, view, c, d);
    forall m | m in s.leases && m != name && !s.leases[m].status.ended && s.leases[m].status.exporterRef.Some? && !l'.status.ended
      ensures s.leases[m].status.exporterRef != l'.status.exporterRef
    {
      if d.Assign? {
        AssignedIsUnlisted(l, view, c.assign, d.grant);
        assert !s.leases[m].endedLabel;
        var held :| held in view.active && held.status.exporterRef == s.leases[m].status.exporterRef;
      } else {
        assert l'.status.exporterRef == l.status.exporterRef;
      }
    }
  }

  lemma WriteKeepsLog(s: State, s': State, name: string, view: View, c: Clock, d: Decision, recorded: bool)
    requires Inv(s) && Next(s, WriteStatus(name, view, c, d, recorded), s')
    ensures LogInv(s')
  {
    hide NewStatus, Decides, Exclusive, CallsInv, Covers, Monotone, Persisted, Saved;
    var l, l' := s.leases[name], Written(s.leases[name], d, c);
    WrittenKept(l, view, c, d);
    assert l'.uid == l.uid;
    var r := AcquisitionResult(l.status, l'.status);
    if recorded && r.Some? {
      assert forall i :: 0 <= i < |s.log| ==> s.log[i].uid != l.uid;
    }
  }

  lemma WriteKeepsInv(s: State, s': State, name: string, view: View, c: Clock, d: Decision, recorded: bool)
    requires Inv(s) && Next(s, WriteStatus(name, view, c, d, recorded), s')
    ensures Inv(s')
  {
    hide NewStatus, Decides, Exclusive, DistinctUids, LogInv, StatusInv, Covers, Monotone;
    var l := s.leases[name];
    WrittenKept(l, view, c, d);
    assert WriteOnce(l.status, Written(l, d, c).status) && (l.endedLabel ==> l.status.ended);
    WriteKeepsCalls(s, s', name, view, c, d, recorded);
    hide CallsInv;
    WriteKeepsExclusive(s, name, view, c, d);
    WriteKeepsLog(s, s', name, view, c, d, recorded);
    UidsKept(s.leases, name, Written(l, d, c));
  }

  lemma WriteKeepsCalls(s: State, s': State, name: string, view: View, c: Clock, d: Decision, recorded: bool)
    requires CallsInv(s) && Next(s, WriteStatus(name, view, c, d, recorded), s')
    requires WriteOnce(s.leases[name].status, Written(s.leases[name], d, c).status)
    ensures CallsInv(s')
  {
    hide NewStatus, Decides, Covers, Monotone;
  }

  lemma UidsKept(leases: map<string, Lease>, name: string, l: Lease)
    requires DistinctUids(leases) && name in leases && l.uid == leases[name].uid
    ensures DistinctUids(leases[name := l])
  {
  }

  lemma DeleteKeepsInv(s: State, s': State, name: string)
    requires Inv(s) && s' == s.(leases := s.leases - {name})
    ensures Inv(s')
  {
  }

  lemma SameLeasesKeepInv(s: State, s': State)
    requires Inv(s) && s'.leases == s.leases && s'.log == s.log && s'.nextUid == s.nextUid && FewerCalls(s, s')
    ensures Inv(s')
  {
  }

  lemma ReadKeepsInv(s: State, s': State, id: nat, name: string, caller: Caller)
    requires Inv(s) && Next(s, ReadForRelease(id, name, caller), s')
    ensures Inv(s')
  {
    hide Exclusive, DistinctUids;
  }

  lemma LeaseOf(s: State, name: string)
    requires Inv(s) && name in s.leases
    ensures s.leases[name].name == name && (s.leases[name].endedLabel ==> s.leases[name].status.ended)
    ensures Saved(s.leases[name].spec) == s.leases[name].spec
  {
  }

  /** Every step keeps the invariant. */
  lemma InvKept(s: State, step: Step, s': State)
    requires Inv(s) && Next(s, step, s')
    ensures Inv(s')
  {
    hide Inv, NewStatus, Decides, Covers, Monotone, LastActive;
    match step
    case CreateLease(name, spec) => CreateKeepsInv(s, s', name, spec);
    case DeleteLease(name) => DeleteKeepsInv(s, s', name);
    case EditSpec(name, spec) => LeaseOf(s, name); SavedTwice(spec); SameStatusKeepsInv(s, s', name, s'.leases[name]);
    case ReadForRelease(id, name, caller) => ReadKeepsInv(s, s', id, name, caller);
    case PatchRelease(id) =>
      var name := s.calls[id].name;
      if name in s.leases {
        LeaseOf(s, name);
        SameStatusKeepsInv(s, s', name, s'.leases[name]);
      } else {
        SameLeasesKeepInv(s, s');
      }
    case WriteLabel => LeaseOf(s, s.worker.name); SameStatusKeepsInv(s, s', s.worker.name, s'.leases[s.worker.name]);
    case WriteStatus(name, view, c, d, recorded) => WriteKeepsInv(s, s', name, view, c, d, recorded);
    case _ => SameLeasesKeepInv(s, s');
  }

  lemma {:induction false} RunInv(states: seq<State>, i: nat)
    requires Run(states) && i < |states|
    ensures Inv(states[i])
  {
    if i > 0 {
      RunInv(states, i - 1);
      assert Steps(states[i - 1], states[i - 1 + 1]);
      var step :| Next(states[i - 1], step, states[i]);
      InvKept(states[i - 1], step, states[i]);
    }
  }

  // ---------------------------------------------------------------- main results

  /** Over every run: an exporter is never held by two leases that have not ended. */
  lemma ExclusivityInEveryRun(states: seq<State>, i: nat, m: string, n: string)
    requires Run(states) && i < |states| && m in states[i].leases && n in states[i].leases
    requires states[i].leases[m].status.exporterRef.Some?
    requires states[i].leases[m].status.exporterRef == states[i].leases[n].status.exporterRef
    ensures m == n || states[i].leases[m].status.ended || states[i].leases[n].status.ended
  {
    RunInv(states, i);
  }

  /** Over every run: each persisted lease has a consistent status. */
  lemma StatusInEveryRun(states: seq<State>, i: nat, n: string)
    requires Run(states) && i < |states| && n in states[i].leases
    ensures StatusInv(states[i].leases[n].status)
    ensures states[i].leases[n].endedLabel ==> states[i].leases[n].status.ended
  {
    RunInv(states, i);
  }

  /** Over every run: at most one acquisition result per lease, and only a true one. */
  lemma OneAcquisitionPerLease(states: seq<State>, i: nat, a: nat, b: nat)
    requires Run(states) && i < |states| && a < b < |states[i].log|
    ensures states[i].log[a].uid != states[i].log[b].uid
  {
    RunInv(states, i);
  }

  predicate Whole(instant: Option<int>) { instant.Some? ==> instant.value % SECOND == 0 }

  /** Over every run: every persisted time is a whole second. */
  lemma TimesInEveryRun(states: seq<State>, i: nat, n: string)
    requires Run(states) && i < |states| && n in states[i].leases
    ensures var l := states[i].leases[n];
            && Whole(l.status.begin) && Whole(l.status.end) && Whole(l.status.pendingSince)
            && Whole(l.spec.times.begin) && Whole(l.spec.times.end)
  {
    hide Exclusive, DistinctUids, LogInv, CallsInv, StatusInv;
    RunInv(states, i);
    var l := states[i].leases[n];
    assert Persisted(l.status) == l.status && Saved(l.spec) == l.spec;
    CutIsWhole(l.status.begin);
    CutIsWhole(l.status.end);
    CutIsWhole(l.status.pendingSince);
    CutIsWhole(l.spec.times.begin);
    CutIsWhole(l.spec.times.end);
  }

  lemma CutIsWhole(instant: Option<int>)
    ensures Whole(Cut(instant)) && Cut(instant).Some? == instant.Some?
    ensures instant.Some? ==> instant.value - SECOND < Cut(instant).value <= instant.value
  {
  }

  ghost predicate SameLease(s: State, s': State, n: string) {
    n in s.leases && n in s'.leases && s.leases[n].uid == s'.leases[n].uid
  }

  lemma StepWritesOnce(s: State, step: Step, s': State, n: string)
    requires Inv(s) && Next(s, step, s') && SameLease(s, s', n)
    ensures WriteOnce(s.leases[n].status, s'.leases[n].status)
    ensures s.leases[n].endedLabel ==> s'.leases[n].endedLabel
  {
    hide NewStatus, Decides, Exclusive, DistinctUids, LogInv, CallsInv, Covers, Monotone, StatusInv, LastActive, WriteOnce, Persisted, Saved, MayRelease;
    WriteOnceTransitive(s.leases[n].status, s.leases[n].status, s.leases[n].status);
    match step
    case WriteStatus(name, view, c, d, recorded) => WrittenKept(s.leases[name], view, c, d);
    case _ =>
  }

  lemma UidsGrow(s: State, step: Step, s': State, n: string)
    requires Inv(s) && Next(s, step, s') && n in s'.leases && s'.leases[n].uid < s.nextUid
    ensures s.nextUid <= s'.nextUid && SameLease(s, s', n)
  {
    hide NewStatus, Decides, Exclusive, DistinctUids, LogInv, CallsInv, Covers, Monotone, StatusInv, LastActive, Persisted, Saved, MayRelease;
  }

  /** Over every run: whatever happens in between, a lease object that is still there never
      loses its ended mark, its exporter, its begin time or its label, and an ended status is
      never written again. */
  lemma {:induction false} WrittenOnceInEveryRun(states: seq<State>, i: nat, j: nat, n: string)
    requires Run(states) && i <= j < |states| && SameLease(states[i], states[j], n)
    ensures WriteOnce(states[i].leases[n].status, states[j].leases[n].status)
    ensures states[i].leases[n].endedLabel ==> states[j].leases[n].endedLabel
    decreases j
  {
    hide Next, Exclusive, DistinctUids, LogInv, StatusInv, WriteOnce;
    RunInv(states, i);
    if i == j {
      WriteOnceTransitive(states[i].leases[n].status, states[i].leases[n].status, states[i].leases[n].status);
    } else {
      RunInv(states, j - 1);
      assert Steps(states[j - 1], states[j - 1 + 1]);
      var step :| Next(states[j - 1], step, states[j]);
      NextUidGrows(states, i, j - 1);
      UidsGrow(states[j - 1], step, states[j], n);
      WrittenOnceInEveryRun(states, i, j - 1, n);
      StepWritesOnce(states[j - 1], step, states[j], n);
      WriteOnceTransitive(states[i].leases[n].status, states[j - 1].leases[n].status, states[j].leases[n].status);
    }
  }

  lemma WriteOnceTransitive(a: LeaseStatus, b: LeaseStatus, c: LeaseStatus)
    ensures WriteOnce(a, a)
    ensures WriteOnce(a, b) && WriteOnce(b, c) ==> WriteOnce(a, c)
  {
  }

  lemma {:induction false} NextUidGrows(states: seq<State>, i: nat, j: nat)
    requires Run(states) && i <= j < |states|
    ensures states[i].nextUid <= states[j].nextUid
    decreases j
  {
    if i < j {
      NextUidGrows(states, i, j - 1);
      assert Steps(states[j - 1], states[j - 1 + 1]);
    }
  }

  /** A listing as fresh as the state: exactly the leases without the ended label. */
  ghost predicate Fresh(listing: seq<Lease>, s: State) {
    && (forall l :: l in listing ==> l.name in s.leases && s.leases[l.name] == l && !l.endedLabel)
    && (forall n :: n in s.leases && !s.leases[n].endedLabel ==> s.leases[n] in listing)
  }

  lemma {:induction false} LastActiveIsActive(listing: seq<Lease>, exporter: string)
    ensures LastActive(listing, exporter).None? ==> forall l :: l in listing ==> !Holds(l, exporter)
    ensures LastActive(listing, exporter).Some? ==>
              exists l :: l in listing && Holds(l, exporter) && LastActive(listing, exporter) == Some(l.name)
  {
    if listing != [] {
      var n := |listing| - 1;
      assert listing == listing[..n] + [listing[n]];
      LastActiveIsActive(listing[..n], exporter);
      if LastActive(listing[..n], exporter).Some? && !Holds(listing[n], exporter) {
        var l :| l in listing[..n] && Holds(l, exporter) && LastActive(listing[..n], exporter) == Some(l.name);
        assert l in listing;
      }
    }
  }

  /** After an exporter reconciliation with a fresh listing, in any order, its lease reference
      names exactly the lease that holds it, or nothing. */
  lemma LeaseRefIsExact(states: seq<State>, i: nat, exporter: string, listing: seq<Lease>, n: string)
    requires Run(states) && i + 1 < |states| && Fresh(listing, states[i])
    requires Next(states[i], ReconcileExporter(exporter, listing), states[i + 1])
    ensures states[i + 1].exporters[exporter].leaseRef == Some(n) <==>
            n in states[i + 1].leases && Holds(states[i + 1].leases[n], exporter)
  {
    var s := states[i];
    RunInv(states, i);
    LastActiveIsActive(listing, exporter);
    if n in s.leases && Holds(s.leases[n], exporter) {
      assert s.leases[n] in listing;
      var l :| l in listing && Holds(l, exporter) && LastActive(listing, exporter) == Some(l.name);
      assert s.leases[l.name] == l;
    }
  }

  /** A release mark is honoured by the next successful reconciliation, whatever it reads. */
  lemma ReleaseEndsLease(s: State, s': State, name: string, view: View, c: Clock, d: Decision, recorded: bool)
    requires Inv(s) && Next(s, WriteStatus(name, view, c, d, recorded), s') && s.leases[name].spec.release
    ensures s'.leases[name].status.ended
  {
  }

  /** A lost label write is made up for: reconciling an ended lease again changes nothing of its
      status and writes the label. */
  lemma LostLabelIsBackfilled(s: State, s1: State, s2: State, name: string, view: View, c: Clock, d: Decision, recorded: bool)
    requires Inv(s) && Next(s, WriteStatus(name, view, c, d, recorded), s1) && Next(s1, WriteLabel, s2)
    requires s.leases[name].status.ended
    ensures s2.leases[name].endedLabel && s2.leases[name].status == s.leases[name].status && s2.log == s.log
  {
  }

  /** In every run, whatever happened between a release call's read and its patch: the patch marks
      the lease of that name and changes nothing else, and if the lease it read is still there, an
      exporter that asked holds it. */
  lemma ReleaseMarksHeldLease(states: seq<State>, i: nat, id: nat, n: string)
    requires Run(states) && i + 1 < |states| && Next(states[i], PatchRelease(id), states[i + 1]) && n in states[i].leases
    ensures n in states[i + 1].leases && states[i + 1].leases[n].status == states[i].leases[n].status
    ensures n != states[i].calls[id].name ==> states[i + 1].leases[n] == states[i].leases[n]
    ensures n == states[i].calls[id].name ==> states[i + 1].leases[n].spec == states[i].leases[n].spec.(release := true)
    ensures (n == states[i].calls[id].name && states[i].leases[n].uid == states[i].calls[id].uid
             && states[i].calls[id].caller.ByExporter?) ==> HeldBy(states[i + 1].leases[n], states[i].calls[id].caller.exporter)
  {
    RunInv(states, i);
  }

  /** A call that may be made on a lease in this state: by its owner or its holder, not yet marked,
      and not ended unless the owner deletes it. */
  predicate Entitled(s: State, call: Call) {
    && call.name in s.leases && s.leases[call.name].uid == call.uid && !s.leases[call.name].spec.release
    && (call.caller.ByClient? || call.caller.DeletedBy? ==> s.leases[call.name].spec.client == call.caller.client)
    && (call.caller.ByExporter? ==> s.leases[call.name].status.exporterRef == Some(call.caller.exporter))
    && (s.leases[call.name].status.ended ==> call.caller.DeletedBy?)
  }

  /** In every run a call that is going to patch a lease was entitled to when it read it. */
  lemma {:induction false} ReleaseWasEntitled(states: seq<State>, i: nat, id: nat) returns (j: nat)
    requires Run(states) && i < |states| && id in states[i].calls
    ensures j < i && Entitled(states[j], states[i].calls[id])
  {
    hide Next, Entitled;
    assert i > 0;
    assert Steps(states[i - 1], states[i - 1 + 1]);
    var step :| Next(states[i - 1], step, states[i]);
    if id in states[i - 1].calls {
      CallKept(states[i - 1], step, states[i], id);
      j := ReleaseWasEntitled(states, i - 1, id);
    } else {
      NewCallIsEntitled(states[i - 1], step, states[i], id);
      j := i - 1;
    }
  }

  lemma CallKept(s: State, step: Step, s': State, id: nat)
    requires Next(s, step, s') && id in s.calls && id in s'.calls
    ensures s'.calls[id] == s.calls[id]
  {
    hide NewStatus, Decides, Covers, LastActive;
  }

  lemma NewCallIsEntitled(s: State, step: Step, s': State, id: nat)
    requires Next(s, step, s') && id !in s.calls && id in s'.calls
    ensures Entitled(s, s'.calls[id])
  {
    hide NewStatus, Decides, Covers, LastActive;
  }

  // ---------------------------------------------------------------- what a write means

  /** In every run a lease becomes ended only in a status write, and then it is unsatisfiable or
      invalid, was marked for release, or has passed its expiration. */
  lemma EndedForCause(states: seq<State>, i: nat, n: string)
    requires Run(states) && i + 1 < |states| && SameLease(states[i], states[i + 1], n)
    requires !states[i].leases[n].status.ended && states[i + 1].leases[n].status.ended
    ensures var l, after := states[i].leases[n], states[i + 1].leases[n].status;
            || after.unsatisfiable || after.invalid || l.spec.release
            || (after.begin.Some? && Expiration(l.spec.times, after.begin.value) < states[i + 1].clock)
  {
    hide Next;
    RunInv(states, i);
    assert Steps(states[i], states[i + 1]);
    var step :| Next(states[i], step, states[i + 1]);
    EndingStep(states[i], step, states[i + 1], n);
  }

  lemma EndingStep(s: State, step: Step, s': State, n: string)
    requires Inv(s) && Next(s, step, s') && SameLease(s, s', n) && !s.leases[n].status.ended && s'.leases[n].status.ended
    ensures var l, after := s.leases[n], s'.leases[n].status;
            || after.unsatisfiable || after.invalid || l.spec.release
            || (after.begin.Some? && Expiration(l.spec.times, after.begin.value) < s'.clock)
  {
    hide NewStatus, Decides, Covers, LastActive, Exclusive, DistinctUids, LogInv, CallsInv, Expiration;
    if step.WriteStatus? && step.name == n {
      EndedIff(s.leases[n], step.view, step.readings, step.decision);
      NewStatusIs(s.leases[n], step.view, step.readings, step.decision);
      var st := NewStatus(s.leases[n], step.decision, step.readings);
      if st.begin.Some? { EarlierBegin(s.leases[n].spec.times, st.begin.value); }
    }
  }

  lemma EarlierBegin(t: Times, began: int)
    ensures Expiration(t, WholeSeconds(began)) <= Expiration(t, began)
  {
  }

  /** A write that is recorded logs a success exactly when it assigns an exporter, a failure exactly
      when it finds the lease unsatisfiable, and otherwise nothing. */
  lemma RecordedIff(s: State, s': State, name: string, view: View, c: Clock, d: Decision)
    requires Inv(s) && Next(s, WriteStatus(name, view, c, d, true), s')
    ensures s'.log == s.log + (if d.Assign? then [Record(s.leases[name].uid, Success)]
                               else if d.MarkUnsatisfiable? then [Record(s.leases[name].uid, Failure)] else [])
  {
    hide NewStatus, Covers, LastActive, Exclusive, DistinctUids, LogInv, CallsInv, DecidesAmong, MatchExporters;
    NewStatusIs(s.leases[name], view, c, d);
  }
}
