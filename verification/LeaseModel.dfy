/** The records of the lease protocol: exporters, access policies and leases. */
module LeaseModel {
  import opened Common
  import opened Selectors
  import opened LeaseTimes

  datatype ExporterState =
    Unset | Unspecified | Offline | Available | BeforeLeaseHook | LeaseReady | AfterLeaseHook
    | BeforeLeaseHookFailed | AfterLeaseHookFailed

  datatype Exporter = Exporter(
    name: string, labels: Labels, enabled: Option<bool>,
    registered: bool, online: bool, state: ExporterState,
    hasDevices: bool, lastSeen: Option<int>, leaseRef: Option<string>)

  predicate IsEnabled(e: Exporter) { e.enabled.None? || e.enabled.value }

  /** Both conditions a lease needs of an exporter before it is considered at all. */
  predicate Reachable(e: Exporter) { e.registered && e.online }

  /** Ready for a new lease; unset states are those of exporters that never report one. */
  predicate ReadyForLease(e: Exporter) { e.state.Available? || e.state.Unspecified? || e.state.Unset? }

  datatype Rule = Rule(description: string, priority: int, from: seq<Selector>, maximum: Option<int>, spot: bool)

  datatype Policy = Policy(exporterSelector: Selector, rules: seq<Rule>)

  datatype LeaseSpec = LeaseSpec(
    client: string, selector: Selector, exporterRef: Option<string>, allowDisabled: bool,
    release: bool, times: Times)

  /** A condition is what it was last set to; `pendingSince` is when Pending last became true. */
  datatype LeaseStatus = LeaseStatus(
    begin: Option<int>, end: Option<int>, exporterRef: Option<string>, ended: bool,
    priority: int, spot: bool,
    ready: Option<bool>, pendingSince: Option<int>, unsatisfiable: bool, invalid: bool)

  const NEW_STATUS := LeaseStatus(None, None, None, false, 0, false, None, None, false, false)

  datatype Lease = Lease(name: string, uid: nat, version: nat, spec: LeaseSpec, status: LeaseStatus, endedLabel: bool)

  /** An exporter approved under a rule, with the active lease already on it, if any. */
  datatype Approved = Approved(exporter: Exporter, existing: Option<Lease>, rule: Rule)
}
