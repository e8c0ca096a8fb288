/** The begin time, end time and duration of a lease: how a request is completed, when a lease
    expires, and how long a granted lease can run under a rule with a maximum duration.
    Instants are nanoseconds since the zero time; durations are 64-bit nanosecond counts. */
module LeaseTimes {
  import opened Common

  const SECOND := 1_000_000_000
  const MAX_DURATION := 0x7fff_ffff_ffff_ffff
  const MIN_DURATION := -0x8000_0000_0000_0000

  /** The difference of two instants, saturating at the ends of the duration range. */
  function Since(later: int, earlier: int): int {
    var d := later - earlier;
    if d > MAX_DURATION then MAX_DURATION else if d < MIN_DURATION then MIN_DURATION else d
  }

  /** Exact where a duration can hold the difference, and never of the wrong sign. */
  lemma SinceIs(later: int, earlier: int)
    ensures MIN_DURATION <= Since(later, earlier) <= MAX_DURATION
    ensures MIN_DURATION <= later - earlier <= MAX_DURATION ==> Since(later, earlier) == later - earlier
    ensures Since(later, earlier) > 0 <==> later > earlier
  {
  }

  datatype Times = Times(begin: Option<int>, end: Option<int>, duration: Option<int>)

  datatype TimeError = DurationConflict | DurationRequired | DurationNotPositive

  predicate PositiveDuration(t: Times) { t.duration.Some? && t.duration.value > 0 }

  predicate ConflictingRequest(t: Times) {
    && t.begin.Some? && t.end.Some? && PositiveDuration(t)
    && t.duration.value != Since(t.end.value, t.begin.value)
  }

  /** The request, completed: the duration of a window, or the begin of an end with a duration. */
  function Completed(t: Times): Times {
    if t.begin.Some? && t.end.Some? then
      t.(duration := Some(Since(t.end.value, t.begin.value)))
    else if t.end.Some? && PositiveDuration(t) then
      t.(begin := Some(t.end.value - t.duration.value))
    else t
  }

  function Verdict(t: Times): Option<TimeError> {
    if ConflictingRequest(t) then Some(DurationConflict)
    else if Completed(t).duration.None? then Some(DurationRequired)
    else if Completed(t).duration.value <= 0 then Some(DurationNotPositive)
    else None
  }

  /** The three fields `ReconcileLeaseTimeFields` updates for its caller. */
  class TimeFields {
    var begin: Option<int>
    var end: Option<int>
    var duration: Option<int>

    function Value(): Times reads this { Times(begin, end, duration) }

    constructor (t: Times)
      ensures Value() == t
    {
      begin, end, duration := t.begin, t.end, t.duration;
    }

    /** Fields are completed before the duration is validated, so a refused request may have
        been rewritten; a conflicting one never is. */
    method Reconcile() returns (err: Option<TimeError>)
      modifies this
      ensures err == Verdict(old(Value()))
      ensures Value() == if err == Some(DurationConflict) then old(Value()) else Completed(old(Value()))
    {
      if begin.Some? && end.Some? {
        var calculated := Since(end.value, begin.value);
        if duration.Some? && duration.value > 0 && duration.value != calculated {
          return Some(DurationConflict);
        }
        duration := Some(calculated);
      } else if end.Some? && duration.Some? && duration.value > 0 {
        begin := Some(end.value - duration.value);
      }
      if duration.None? { return Some(DurationRequired); }
      if duration.value <= 0 { return Some(DurationNotPositive); }
      return None;
    }
  }

  /** Accepted requests are the documented patterns: duration alone; begin with duration; begin
      with a later end; end with duration; all three when they agree. */
  lemma AcceptedPatterns(t: Times)
    ensures Verdict(t).None? <==>
            || (t.end.None? && PositiveDuration(t))
            || (t.end.Some? && t.begin.None? && PositiveDuration(t))
            || (t.end.Some? && t.begin.Some? && t.begin.value < t.end.value
                && (PositiveDuration(t) ==> t.duration.value == Since(t.end.value, t.begin.value)))
    ensures Verdict(t).None? && t.end.Some? ==>
              Completed(t).begin.Some? && Completed(t).begin.value < t.end.value
  {
  }

  /** Completing an accepted request twice changes nothing the second time. */
  lemma CompletionIsIdempotent(t: Times)
    requires Verdict(t).None?
    requires t.duration.Some? ==> t.duration.value <= MAX_DURATION
    ensures Verdict(Completed(t)).None? && Completed(Completed(t)) == Completed(t)
  {
  }

  /** Each refusal has its cause: a duration that contradicts the window, no way to tell the
      duration, or a duration that is not positive. */
  lemma RefusedFor(t: Times)
    ensures Verdict(t) == Some(DurationConflict) <==>
            t.begin.Some? && t.end.Some? && PositiveDuration(t) && t.duration.value != Since(t.end.value, t.begin.value)
    ensures Verdict(t) == Some(DurationRequired) <==> t.duration.None? && (t.begin.None? || t.end.None?)
    ensures Verdict(t) == Some(DurationNotPositive) <==>
            if t.begin.Some? && t.end.Some? then !PositiveDuration(t) && t.end.value <= t.begin.value
            else t.duration.Some? && t.duration.value <= 0
  {
  }

  // ---------------------------------------------------------------- expiration

  /** When a lease that began at `began` expires; the zero time if its spec has no bound. */
  function Expiration(t: Times, began: int): int {
    if t.end.Some? then t.end.value
    else if t.begin.Some? && t.duration.Some? then t.begin.value + t.duration.value
    else if t.duration.Some? then began + t.duration.value
    else 0
  }

  /** The duration a policy rule compares with its maximum. */
  function Requested(t: Times): int {
    if t.duration.Some? then t.duration.value
    else if t.begin.Some? && t.end.Some? then Since(t.end.value, t.begin.value)
    else 0
  }

  /** Instants are stored with whole seconds, durations exactly. */
  function WholeSeconds(instant: int): int { instant - instant % SECOND }

  function Stored(t: Times): Times {
    Times(if t.begin.Some? then Some(WholeSeconds(t.begin.value)) else None,
          if t.end.Some? then Some(WholeSeconds(t.end.value)) else None,
          t.duration)
  }

  /** The last whole second not after the instant. */
  lemma WholeSecondsIs(instant: int, second: int)
    requires second % SECOND == 0
    ensures WholeSeconds(instant) % SECOND == 0 && WholeSeconds(instant) <= instant
    ensures second <= instant ==> second <= WholeSeconds(instant)
  {
  }

  /** A lease on accepted times runs for its duration, from the begin it asked for or else from when
      it was granted, and that duration is what rules are compared with. */
  lemma RunsItsDuration(t: Times, began: int)
    requires Verdict(t).None? && (t.duration.Some? ==> t.duration.value <= MAX_DURATION)
    requires t.begin.Some? && t.end.Some? ==> t.end.value - t.begin.value <= MAX_DURATION
    ensures var c := Completed(t);
            && c.duration.Some? && c.duration.value > 0 && Requested(c) == c.duration.value
            && Expiration(c, began) == (if c.begin.Some? then c.begin.value else began) + c.duration.value
            && (PositiveDuration(t) ==> c.duration == t.duration)
            && (t.begin.Some? ==> c.begin == t.begin) && c.end == t.end
  {
  }

  /** A lease stored with a window and no duration is compared by the length of its window. */
  lemma WindowIsRequested(t: Times, began: int)
    requires t.begin.Some? && t.end.Some? && t.duration.None? && 0 <= t.end.value - t.begin.value <= MAX_DURATION
    ensures Expiration(t, began) == t.begin.value + Requested(t)
  {
  }

  /** An exporter is assigned only once a requested begin time has passed. */
  predicate MayBegin(t: Times, now: int) { t.begin.Some? ==> t.begin.value <= now }

  predicate WithinMaximum(t: Times, began: int, maximum: int) {
    MayBegin(t, began) && Requested(t) <= maximum ==> Expiration(t, began) <= began + maximum
  }

  /** However late it begins, a lease a rule allows never outlives that rule's maximum. */
  ghost predicate NeverOutlives(t: Times) {
    forall began, maximum :: WithinMaximum(t, began, maximum)
  }

  /** What a caller can check: cut to whole seconds, the requested window is no longer than
      it was, and it is short enough for a duration to hold. */
  predicate WindowKept(t: Times) {
    t.end.Some? && t.begin.Some? ==>
      var window := WholeSeconds(t.end.value) - WholeSeconds(t.begin.value);
      window <= t.end.value - t.begin.value && window <= MAX_DURATION
  }

  /** For every accepted request, as stored: the maximum duration is respected whenever the
      lease begins, exactly when the requested window survives storage. */
  lemma MaximumDurationRespected(t: Times)
    requires Verdict(t).None? && (t.duration.Some? ==> t.duration.value <= MAX_DURATION)
    ensures NeverOutlives(Stored(Completed(t))) <==> WindowKept(Completed(t))
  {
    var c := Completed(t);
    var s := Stored(c);
    if c.end.Some? {
      if NeverOutlives(s) {
        assert WithinMaximum(s, s.begin.value, Requested(s));
      }
    }
  }

  /** Storing lengthens a window by less than a second, so a window a duration can hold
      oversteps the maximum by less than that. */
  lemma MaximumDurationSlack(t: Times, began: int, maximum: int)
    requires Verdict(t).None? && (t.duration.Some? ==> t.duration.value <= MAX_DURATION)
    requires Completed(t).end.Some? ==> Completed(t).end.value - Completed(t).begin.value <= MAX_DURATION
    requires MayBegin(Stored(Completed(t)), began) && Requested(Stored(Completed(t))) <= maximum
    ensures Expiration(Stored(Completed(t)), began) < began + maximum + SECOND
  {
    var c := Completed(t);
    if c.end.Some? {
      assert c.duration.value == c.end.value - c.begin.value;
    }
  }

  /** Ending at 10s with a duration of 0.5s is stored as beginning at 9s: half a second over. */
  lemma HalfSecondOver()
    ensures var t := Times(None, Some(10 * SECOND), Some(SECOND / 2));
            && Verdict(t).None? && !NeverOutlives(Stored(Completed(t)))
  {
    var s := Stored(Completed(Times(None, Some(10 * SECOND), Some(SECOND / 2))));
    assert s == Times(Some(9 * SECOND), Some(10 * SECOND), Some(SECOND / 2));
    assert !WithinMaximum(s, 9 * SECOND, SECOND / 2);
  }
}
