/** Handing router tokens from Dial to the exporter's Listen stream. Each Listen call owns one
    bounded queue; a reconnecting Listen swaps its own queue in and tells the old one to stop.
    The swap, the send and the close of a leaving listener are single steps here, which
    `ListenSections` justifies by the lease's mutex; taking a token from a queue and removing a
    queue from the map are not under it. */
module ListenQueues {

  type Token = nat
  type QueueId = nat

  const CAPACITY := 8

  /** Where the Listen call that owns a queue stands. `superseded` remembers which way it left:
      after draining, or because its stream failed or was cancelled. */
  datatype Phase =
    | Opened
    | Running
    | Draining
    | Leaving(superseded: bool)
    | Closed(superseded: bool)
    | Gone(superseded: bool)

  /** A queue with the history of its tokens. */
  datatype Queue = Queue(
    lease: string, buffer: seq<Token>, done: bool, phase: Phase,
    accepted: seq<Token>, delivered: seq<Token>, dropped: seq<Token>)

  datatype State = State(queues: map<QueueId, Queue>, current: map<string, QueueId>, issued: set<Token>)

  datatype DialResult = Accepted | Unavailable | ResourceExhausted

  // ---------------------------------------------------------------- the critical sections

  function CloseDone(queues: map<QueueId, Queue>, q: QueueId): map<QueueId, Queue> {
    if q in queues then queues[q := queues[q].(done := true)] else queues
  }

  /** Swap the new queue in and close the one it supersedes. */
  function SwapEffect(s: State, q: QueueId): State
    requires q in s.queues
  {
    var lease := s.queues[q].lease;
    var queues := if lease in s.current then CloseDone(s.queues, s.current[lease]) else s.queues;
    s.(queues := queues[q := s.queues[q].(phase := Running)], current := s.current[lease := q])
  }

  function DialOutcome(s: State, lease: string): DialResult {
    if lease !in s.current || s.current[lease] !in s.queues then Unavailable
    else if s.queues[s.current[lease]].done then Unavailable
    else if |s.queues[s.current[lease]].buffer| >= CAPACITY then ResourceExhausted
    else Accepted
  }

  function Appended(q: Queue, t: Token): Queue {
    q.(buffer := q.buffer + [t], accepted := q.accepted + [t])
  }

  function DialEffect(s: State, lease: string, t: Token): State {
    var issued := s.(issued := s.issued + {t});
    if DialOutcome(s, lease).Accepted?
    then issued.(queues := s.queues[s.current[lease] := Appended(s.queues[s.current[lease]], t)])
    else issued
  }

  /** The two maps of the service, changed in place. */
  class ControllerService {
    var queues: map<QueueId, Queue>
    var current: map<string, QueueId>
    ghost var issued: set<Token>

    ghost function Abstract(): State reads this { State(queues, current, issued) }

    constructor ()
      ensures Abstract() == State(map[], map[], {})
    {
      queues, current, issued := map[], map[], {};
    }

    method SwapListenQueue(q: QueueId)
      requires q in queues
      requires queues[q].lease in current ==> current[queues[q].lease] != q
      modifies this
      ensures Abstract() == SwapEffect(old(Abstract()), q)
    {
      var lease := queues[q].lease;
      if lease in current {
        var old_ := current[lease];
        if old_ in queues { queues := queues[old_ := queues[old_].(done := true)]; }
      }
      current := current[lease := q];
      queues := queues[q := queues[q].(phase := Running)];
    }

    /** Never blocks: a missing or superseded queue and a full one are refused. */
    method SendToListener(lease: string, t: Token) returns (r: DialResult)
      modifies this
      ensures r == DialOutcome(old(Abstract()), lease)
      ensures Abstract() == DialEffect(old(Abstract()), lease, t)
    {
      issued := issued + {t};
      if lease !in current || current[lease] !in queues { return Unavailable; }
      var q := current[lease];
      if queues[q].done { return Unavailable; }
      if |queues[q].buffer| >= CAPACITY { return ResourceExhausted; }
      queues := queues[q := Appended(queues[q], t)];
      return Accepted;
    }
  }

  // ---------------------------------------------------------------- steps

  datatype Step =
    | Open(q: QueueId, lease: string)
    | Swap(q: QueueId)
    | Dial(lease: string, t: Token)
    | Deliver(q: QueueId)
    | FailToDeliver(q: QueueId)
    | NoticeDone(q: QueueId)
    | FinishDraining(q: QueueId)
    | Cancel(q: QueueId)
    | Close(q: QueueId)
    | Remove(q: QueueId)

  predicate Init(s: State) { s == State(map[], map[], {}) }

  predicate In(s: State, q: QueueId, phase: Phase) { q in s.queues && s.queues[q].phase == phase }

  predicate Reading(s: State, q: QueueId) { (In(s, q, Running) || In(s, q, Draining)) && s.queues[q].buffer != [] }

  function Taken(q: Queue): Queue
    requires q.buffer != []
  {
    q.(buffer := q.buffer[1..])
  }

  predicate Next(s: State, step: Step, s': State) {
    match step
    case Open(q, lease) =>
      q !in s.queues && s' == s.(queues := s.queues[q := Queue(lease, [], false, Opened, [], [], [])])
    case Swap(q) =>
      In(s, q, Opened) && s' == SwapEffect(s, q)
    case Dial(lease, t) =>
      t !in s.issued && s' == DialEffect(s, lease, t)
    case Deliver(q) =>
      && Reading(s, q)
      && var x := s.queues[q];
         s' == s.(queues := s.queues[q := Taken(x).(delivered := x.delivered + [x.buffer[0]])])
    case FailToDeliver(q) =>
      && Reading(s, q)
      && var x := s.queues[q];
         s' == s.(queues := s.queues[q := Taken(x).(dropped := x.dropped + [x.buffer[0]], phase := Leaving(false))])
    case NoticeDone(q) =>
      In(s, q, Running) && s.queues[q].done && s' == s.(queues := s.queues[q := s.queues[q].(phase := Draining)])
    case FinishDraining(q) =>
      && In(s, q, Draining) && s.queues[q].buffer == []
      && s' == s.(queues := s.queues[q := s.queues[q].(phase := Leaving(true))])
    case Cancel(q) =>
      In(s, q, Running) && s' == s.(queues := s.queues[q := s.queues[q].(phase := Leaving(false))])
    case Close(q) =>
      && q in s.queues && s.queues[q].phase.Leaving?
      && s' == s.(queues := s.queues[q := s.queues[q].(done := true, phase := Closed(s.queues[q].phase.superseded))])
    case Remove(q) =>
      && q in s.queues && s.queues[q].phase.Closed?
      && var x := s.queues[q];
         s' == s.(queues := s.queues[q := x.(phase := Gone(x.phase.superseded))],
                  current := if x.lease in s.current && s.current[x.lease] == q then s.current - {x.lease} else s.current)
  }

  ghost predicate Steps(s: State, s': State) { exists step :: Next(s, step, s') }

  ghost predicate Run(states: seq<State>) {
    && states != [] && Init(states[0])
    && forall i :: 0 <= i < |states| - 1 ==> Steps(states[i], states[i + 1])
  }

  // ---------------------------------------------------------------- the invariant

  predicate LeftDrained(x: Queue) {
    x.phase == Leaving(true) || x.phase == Closed(true) || x.phase == Gone(true)
  }

  predicate LeftEarly(x: Queue) {
    x.phase == Leaving(false) || x.phase == Closed(false) || x.phase == Gone(false)
  }

  /** Conservation: what was accepted is what was delivered, then a token the stream refused,
      then what is still buffered, in order. */
  predicate QueueInv(x: Queue) {
    && x.accepted == x.delivered + x.dropped + x.buffer
    && |x.buffer| <= CAPACITY && |x.dropped| <= 1
    && (x.dropped != [] ==> LeftEarly(x))
    && (x.phase.Opened? ==> x.accepted == [] && !x.done)
    && (x.phase.Draining? || LeftDrained(x) || x.phase.Closed? || x.phase.Gone? ==> x.done)
    && (LeftDrained(x) ==> x.buffer == [] && x.dropped == [])
  }

  /** The listener a lease's tokens go to: swapped in and not told to stop. */
  predicate Live(x: Queue) { !x.phase.Opened? && !x.done }

  ghost predicate CurrentInv(s: State) {
    && (forall q :: q in s.queues && Live(s.queues[q]) ==> s.queues[q].lease in s.current && s.current[s.queues[q].lease] == q)
    && (forall l :: l in s.current ==> s.current[l] in s.queues && s.queues[s.current[l]].lease == l && !s.queues[s.current[l]].phase.Opened?)
  }

  ghost predicate TokensInv(s: State) {
    && (forall q, i :: q in s.queues && 0 <= i < |s.queues[q].accepted| ==> s.queues[q].accepted[i] in s.issued)
    && (forall q, r, i, j :: (q in s.queues && r in s.queues && 0 <= i < |s.queues[q].accepted| && 0 <= j < |s.queues[r].accepted|
                              && s.queues[q].accepted[i] == s.queues[r].accepted[j]) ==> q == r && i == j)
  }

  ghost predicate QueuesInv(s: State) { forall q :: q in s.queues ==> QueueInv(s.queues[q]) }

  ghost predicate Inv(s: State) { QueuesInv(s) && CurrentInv(s) && TokensInv(s) }

  /** How one step may change one queue. */
  predicate Evolves(x: Queue, x': Queue) {
    && x'.lease == x.lease
    && x.accepted <= x'.accepted && x.delivered <= x'.delivered
    && (x.done ==> x'.done && x'.accepted == x.accepted)
    && (LeftDrained(x) ==> LeftDrained(x') && x'.delivered == x.delivered)
  }

  lemma TakenConserves(x: Queue)
    requires QueueInv(x) && x.buffer != [] && x.dropped == []
    ensures x.accepted == (x.delivered + [x.buffer[0]]) + x.dropped + x.buffer[1..]
    ensures x.accepted == x.delivered + (x.dropped + [x.buffer[0]]) + x.buffer[1..]
  {
    assert x.buffer == [x.buffer[0]] + x.buffer[1..];
  }

  lemma OneQueueKept(s: State, s': State, q: QueueId, x: Queue)
    requires QueuesInv(s) && s'.queues == s.queues[q := x] && QueueInv(x)
    ensures QueuesInv(s')
  {
    hide QueueInv;
  }

  /** What one step leaves of the queue it works on. */
  lemma StepKeepsQueue(x: Queue, x': Queue, step: Step)
    requires QueueInv(x)
    requires
      || (step.Deliver? && x.buffer != [] && x.dropped == [] && x' == Taken(x).(delivered := x.delivered + [x.buffer[0]]))
      || (step.FailToDeliver? && x.buffer != [] && x.dropped == []
          && x' == Taken(x).(dropped := x.dropped + [x.buffer[0]], phase := Leaving(false)))
      || (step.Dial? && Live(x) && |x.buffer| < CAPACITY && x' == Appended(x, step.t))
    requires step.Deliver? ==> x.phase.Running? || x.phase.Draining?
    ensures QueueInv(x')
  {
    if step.Dial? {
      assert x.accepted + [step.t] == x.delivered + x.dropped + (x.buffer + [step.t]);
    } else {
      TakenConserves(x);
    }
  }

  lemma QueuesKept(s: State, step: Step, s': State)
    requires Inv(s) && Next(s, step, s')
    ensures QueuesInv(s')
  {
    hide TokensInv, QueuesInv;
    match step
    case Open(q, lease) => OneQueueKept(s, s', q, s'.queues[q]);
    case Swap(q) => SwapKeepsQueues(s, s', q);
    case Dial(lease, t) =>
      if DialOutcome(s, lease).Accepted? {
        var q := s.current[lease];
        QueueOf(s, q);
        StepKeepsQueue(s.queues[q], s'.queues[q], step);
        OneQueueKept(s, s', q, s'.queues[q]);
      } else {
        SameQueues(s, s');
      }
    case Deliver(q) =>
      QueueOf(s, q);
      StepKeepsQueue(s.queues[q], s'.queues[q], step);
      OneQueueKept(s, s', q, s'.queues[q]);
    case FailToDeliver(q) =>
      QueueOf(s, q);
      StepKeepsQueue(s.queues[q], s'.queues[q], step);
      OneQueueKept(s, s', q, s'.queues[q]);
    case _ =>
      QueueOf(s, step.q);
      OneQueueKept(s, s', step.q, s'.queues[step.q]);
  }

  lemma QueueOf(s: State, q: QueueId)
    requires QueuesInv(s) && q in s.queues
    ensures QueueInv(s.queues[q])
  {
  }

  lemma SameQueues(s: State, s': State)
    requires QueuesInv(s) && s'.queues == s.queues
    ensures QueuesInv(s')
  {
  }

  lemma SwapKeepsQueues(s: State, s': State, q: QueueId)
    requires Inv(s) && Next(s, Swap(q), s')
    ensures QueuesInv(s')
  {
    hide TokensInv;
    forall r | r in s'.queues ensures QueueInv(s'.queues[r]) { assert QueueInv(s.queues[r]); }
  }

  /** Steps that move one queue along without opening, swapping or removing it. */
  lemma CurrentKeptLocally(s: State, s': State, q: QueueId)
    requires CurrentInv(s) && q in s.queues && q in s'.queues && s'.queues == s.queues[q := s'.queues[q]] && s'.current == s.current
    requires s'.queues[q].lease == s.queues[q].lease && !s.queues[q].phase.Opened? && !s'.queues[q].phase.Opened?
    requires s.queues[q].done ==> s'.queues[q].done
    ensures CurrentInv(s')
  {
  }

  lemma SwapKeepsCurrent(s: State, s': State, q: QueueId)
    requires CurrentInv(s) && Next(s, Swap(q), s')
    ensures CurrentInv(s')
  {
    var lease := s.queues[q].lease;
    forall r | r in s'.queues && Live(s'.queues[r])
      ensures s'.queues[r].lease in s'.current && s'.current[s'.queues[r].lease] == r
    {
      if r != q { assert Live(s.queues[r]); }
    }
  }

  lemma RemoveKeepsCurrent(s: State, s': State, q: QueueId)
    requires CurrentInv(s) && Next(s, Remove(q), s') && s.queues[q].done
    ensures CurrentInv(s')
  {
    forall r | r in s'.queues && Live(s'.queues[r])
      ensures s'.queues[r].lease in s'.current && s'.current[s'.queues[r].lease] == r
    {
      assert r != q && Live(s.queues[r]);
    }
  }

  lemma CurrentKept(s: State, step: Step, s': State)
    requires Inv(s) && Next(s, step, s')
    ensures CurrentInv(s')
  {
    match step
    case Open(q, lease) =>
    case Swap(q) => SwapKeepsCurrent(s, s', q);
    case Dial(lease, t) =>
      if DialOutcome(s, lease).Accepted? { CurrentKeptLocally(s, s', s.current[lease]); }
    case Remove(q) =>
      assert QueueInv(s.queues[q]);
      RemoveKeepsCurrent(s, s', q);
    case _ => CurrentKeptLocally(s, s', step.q);
  }

  function AcceptedBy(s: State, q: QueueId): seq<Token> { if q in s.queues then s.queues[q].accepted else [] }

  lemma TokensSame(s: State, s': State)
    requires TokensInv(s) && s.issued <= s'.issued
    requires forall q :: q in s'.queues ==> s'.queues[q].accepted == AcceptedBy(s, q)
    ensures TokensInv(s')
  {
    assert forall q :: q in s'.queues && s'.queues[q].accepted != [] ==> q in s.queues;
  }

  lemma TokensDialled(s: State, s': State, q0: QueueId, t: Token)
    requires TokensInv(s) && q0 in s.queues && t !in s.issued && s'.issued == s.issued + {t}
    requires s'.queues == s.queues[q0 := Appended(s.queues[q0], t)]
    ensures TokensInv(s')
  {
    assert s'.queues[q0].accepted == s.queues[q0].accepted + [t];
    forall q, i | q in s'.queues && 0 <= i < |s'.queues[q].accepted|
      ensures q in s.queues
      ensures if q == q0 && i == |s.queues[q].accepted| then s'.queues[q].accepted[i] == t
              else i < |s.queues[q].accepted| && s'.queues[q].accepted[i] == s.queues[q].accepted[i]
    {
    }
  }

  lemma TokensKept(s: State, step: Step, s': State)
    requires Inv(s) && Next(s, step, s')
    ensures TokensInv(s')
  {
    hide QueuesInv, QueueInv, TokensInv;
    if step.Dial? && DialOutcome(s, step.lease).Accepted? {
      TokensDialled(s, s', s.current[step.lease], step.t);
    } else {
      TokensSame(s, s');
    }
  }

  lemma InvKept(s: State, step: Step, s': State)
    requires Inv(s) && Next(s, step, s')
    ensures Inv(s')
  {
    hide QueuesInv, CurrentInv, TokensInv, Next;
    QueuesKept(s, step, s');
    CurrentKept(s, step, s');
    TokensKept(s, step, s');
  }

  lemma StepEvolves(s: State, step: Step, s': State, q: QueueId)
    requires Inv(s) && Next(s, step, s') && q in s.queues
    ensures q in s'.queues && Evolves(s.queues[q], s'.queues[q])
  {
    hide CurrentInv, TokensInv, QueueInv, Evolves;
    QueueOf(s, q);
    EvolvesToItself(s.queues[q]);
    match step
    case Open(r, lease) =>
    case Swap(r) => SwapEvolves(s, r, s', q);
    case Dial(lease, t) => DialEvolves(s, lease, t, s', q);
    case _ => if q == step.q { OwnStepEvolves(s, step, s', q); }
  }

  lemma EvolvesToItself(x: Queue)
    ensures Evolves(x, x)
  {
  }

  lemma SwapEvolves(s: State, r: QueueId, s': State, q: QueueId)
    requires q in s.queues && QueueInv(s.queues[q]) && Next(s, Swap(r), s')
    ensures q in s'.queues && Evolves(s.queues[q], s'.queues[q])
  {
  }

  lemma DialEvolves(s: State, lease: string, t: Token, s': State, q: QueueId)
    requires q in s.queues && QueueInv(s.queues[q]) && Next(s, Dial(lease, t), s')
    ensures q in s'.queues && Evolves(s.queues[q], s'.queues[q])
  {
  }

  lemma OwnStepEvolves(s: State, step: Step, s': State, q: QueueId)
    requires q in s.queues && QueueInv(s.queues[q]) && Next(s, step, s')
    requires !step.Open? && !step.Swap? && !step.Dial? && step.q == q
    ensures q in s'.queues && Evolves(s.queues[q], s'.queues[q])
  {
  }

  lemma {:induction false} RunInv(states: seq<State>, i: nat)
    requires Run(states) && i < |states|
    ensures Inv(states[i])
  {
    if i > 0 {
      RunInv(states, i - 1);
      assert Steps(states[i - 1], states[i - 1 + 1]);
      var step :| Next(states[i - 1], step, states[i]);
      InvKept(states[i - 1], step, states[i]);
    }
  }

  lemma {:induction false} RunEvolves(states: seq<State>, i: nat, j: nat, q: QueueId)
    requires Run(states) && i <= j < |states| && q in states[i].queues
    ensures q in states[j].queues && Evolves(states[i].queues[q], states[j].queues[q])
    decreases j
  {
    if i < j {
      RunEvolves(states, i, j - 1, q);
      RunInv(states, j - 1);
      assert Steps(states[j - 1], states[j - 1 + 1]);
      var step :| Next(states[j - 1], step, states[j]);
      hide Next, Inv;
      StepEvolves(states[j - 1], step, states[j], q);
    }
  }

  // ---------------------------------------------------------------- main results

  /** In every run at most one listener per lease is live, and it is the current one. */
  lemma OneLiveListener(states: seq<State>, i: nat, q: QueueId, r: QueueId)
    requires Run(states) && i < |states| && q in states[i].queues && r in states[i].queues
    requires Live(states[i].queues[q]) && Live(states[i].queues[r]) && states[i].queues[q].lease == states[i].queues[r].lease
    ensures q == r
  {
    RunInv(states, i);
  }

  /** In every run an accepted token goes to the queue that is current and not superseded at
      that moment, at its end, and nowhere else. */
  lemma AcceptedByTheLiveListener(states: seq<State>, i: nat, lease: string, t: Token, q: QueueId)
    requires Run(states) && i + 1 < |states| && Next(states[i], Dial(lease, t), states[i + 1]) && q in states[i].queues
    ensures q in states[i + 1].queues
    ensures states[i + 1].queues[q].accepted ==
              states[i].queues[q].accepted
              + (if DialOutcome(states[i], lease).Accepted? && Live(states[i].queues[q]) && states[i].queues[q].lease == lease then [t] else [])
  {
    RunInv(states, i);
  }

  /** A dial is accepted exactly when the lease has a live listener with room. */
  lemma DialAcceptedIff(states: seq<State>, i: nat, lease: string)
    requires Run(states) && i < |states|
    ensures DialOutcome(states[i], lease).Accepted? <==>
            exists q :: q in states[i].queues && Live(states[i].queues[q]) && states[i].queues[q].lease == lease
                        && |states[i].queues[q].buffer| < CAPACITY
  {
    RunInv(states, i);
    var s := states[i];
    if DialOutcome(s, lease).Accepted? {
      var q := s.current[lease];
      assert Live(s.queues[q]);
    }
  }

  /** A refused dial says why: there is no live listener, or there is one and its eight places are
      taken. */
  lemma DialRefusedFor(states: seq<State>, i: nat, lease: string)
    requires Run(states) && i < |states|
    ensures DialOutcome(states[i], lease).Unavailable? <==>
            !exists q :: q in states[i].queues && Live(states[i].queues[q]) && states[i].queues[q].lease == lease
    ensures DialOutcome(states[i], lease).ResourceExhausted? <==>
            exists q :: q in states[i].queues && Live(states[i].queues[q]) && states[i].queues[q].lease == lease
                        && |states[i].queues[q].buffer| == 8
  {
    RunInv(states, i);
    var s := states[i];
    if lease in s.current {
      var q := s.current[lease];
      assert q in s.queues && QueueInv(s.queues[q]);
      assert !s.queues[q].done <==> Live(s.queues[q]);
    }
  }

  /** In every run each listener delivers its tokens in the order they were accepted. */
  lemma DeliveredInOrder(states: seq<State>, i: nat, q: QueueId)
    requires Run(states) && i < |states| && q in states[i].queues
    ensures states[i].queues[q].delivered <= states[i].queues[q].accepted
  {
    RunInv(states, i);
    assert QueueInv(states[i].queues[q]);
  }

  /** In every run a token is delivered at most once, by at most one listener. */
  lemma DeliveredAtMostOnce(states: seq<State>, i: nat, q: QueueId, r: QueueId, a: nat, b: nat)
    requires Run(states) && i < |states| && q in states[i].queues && r in states[i].queues
    requires a < |states[i].queues[q].delivered| && b < |states[i].queues[r].delivered|
    requires states[i].queues[q].delivered[a] == states[i].queues[r].delivered[b]
    ensures q == r && a == b
  {
    RunInv(states, i);
    DeliveredInOrder(states, i, q);
    DeliveredInOrder(states, i, r);
    var x, y := states[i].queues[q], states[i].queues[r];
    assert x.accepted[a] == x.delivered[a] && y.accepted[b] == y.delivered[b];
  }

  /** A listener that leaves because it was superseded has delivered every token it ever
      accepted, and its queue stays empty for the rest of the run. */
  lemma SupersededLeavesNothing(states: seq<State>, i: nat, j: nat, q: QueueId)
    requires Run(states) && i <= j < |states| && q in states[i].queues && LeftDrained(states[i].queues[q])
    ensures q in states[j].queues
    ensures states[j].queues[q].buffer == [] && states[j].queues[q].delivered == states[i].queues[q].accepted
  {
    RunEvolves(states, i, j, q);
    RunInv(states, i);
    RunInv(states, j);
    assert QueueInv(states[i].queues[q]) && QueueInv(states[j].queues[q]);
  }

  /** A queue told to stop accepts nothing more, in every continuation. */
  lemma DoneNeverRefills(states: seq<State>, i: nat, j: nat, q: QueueId)
    requires Run(states) && i <= j < |states| && q in states[i].queues && states[i].queues[q].done
    ensures q in states[j].queues && states[j].queues[q].accepted == states[i].queues[q].accepted
  {
    RunEvolves(states, i, j, q);
  }

  /** No token is lost while a listener stays up: the only way out of the accepted tokens but
      not delivered is a stream that failed or was cancelled. */
  lemma LostOnlyByLeavingEarly(states: seq<State>, i: nat, q: QueueId)
    requires Run(states) && i < |states| && q in states[i].queues && !LeftEarly(states[i].queues[q])
    ensures states[i].queues[q].accepted == states[i].queues[q].delivered + states[i].queues[q].buffer
  {
    RunInv(states, i);
    assert QueueInv(states[i].queues[q]);
  }
}
