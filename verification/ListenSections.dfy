/** The critical sections of Dial and Listen statement by statement, under the mutexes of
    `LeaseLocks`: locking, each access to the shared maps and queues, and unlocking are steps of
    their own. Every run of this machine is, seen section by section, a run of `ListenQueues`. */
module ListenSections {
  import opened Common
  import L = LeaseLocks
  import Q = ListenQueues

  type User = L.User
  type QueueId = Q.QueueId
  type Token = Q.Token

  /** How far a goroutine is inside its section. */
  datatype Section =
    | Swapped(prior: Option<QueueId>)  // its queue is in the map, the superseded one not told yet
    | Chosen(q: QueueId)             // a dial has loaded the queue
    | Checked(q: QueueId)            // and found it open
    | Over

  /** `listener` is the goroutine that runs the Listen call of a queue: it keeps its reference to
      the lease's lock from before the queue exists until the queue is gone. */
  datatype State = State(locks: L.State, queues: Q.State, sections: map<User, Section>, listener: map<QueueId, User>)

  predicate Inside(s: State, u: User) { u in s.locks.users && s.locks.users[u].pc.Critical? }

  function NameOf(s: State, u: User): string
    requires u in s.locks.users
  {
    s.locks.users[u].name
  }

  predicate Entering(s: State, u: User) { Inside(s, u) && u !in s.sections }

  predicate At(s: State, u: User, section: Section) { Inside(s, u) && u in s.sections && s.sections[u] == section }

  datatype Step =
    | LockStep(u: User, step: L.Step)
    | QueueStep(move: Q.Step)
    | Open(u: User, q: QueueId)
    | SwapMap(u: User, q: QueueId)
    | CloseOld(u: User)
    | LoadQueue(u: User, t: Token)
    | CheckDone(u: User, t: Token)
    | Send(u: User, t: Token)
    | CloseOwn(u: User, q: QueueId)

  /** A goroutine leaves its section only when it is over, and a listener gives up its reference
      only when its queue is gone. */
  predicate MayMove(s: State, u: User, step: L.Step) {
    && (step.Unlock? && u in s.sections ==> s.sections[u].Over?)
    && (step.LoadForRelease? ==> forall q :: q in s.listener && s.listener[q] == u && q in s.queues.queues ==> s.queues.queues[q].phase.Gone?)
  }

  function Moved(s: State, u: User, step: L.Step, locks: L.State): State {
    s.(locks := locks, sections := if step.Unlock? then s.sections - {u} else s.sections)
  }

  function Done(q: Q.State, x: QueueId): Q.State { q.(queues := Q.CloseDone(q.queues, x)) }

  function Issued(q: Q.State, t: Token): Q.State { q.(issued := q.issued + {t}) }

  /** The steps that touch the queues from inside a section, and the opening of a queue. */
  predicate SectionStep(s: State, step: Step, s': State) {
    match step
    case LockStep(_, _) => false
    case QueueStep(_) => false
    case Open(u, q) =>
      && u in s.locks.users && s.locks.users[u].pc.Holding?
      && var queue := Q.Open(q, NameOf(s, u));
         Q.Next(s.queues, queue, s'.queues) && s' == s.(queues := s'.queues, listener := s.listener[q := u])
    case SwapMap(u, q) =>
      && Entering(s, u) && Q.In(s.queues, q, Q.Opened) && s.queues.queues[q].lease == NameOf(s, u)
      && var name := NameOf(s, u);
         var prior := if name in s.queues.current then Some(s.queues.current[name]) else None;
         s' == s.(queues := s.queues.(queues := s.queues.queues[q := s.queues.queues[q].(phase := Q.Running)],
                                      current := s.queues.current[name := q]),
                  sections := s.sections[u := Swapped(prior)])
    case CloseOld(u) =>
      && Inside(s, u) && u in s.sections && s.sections[u].Swapped?
      && var prior := s.sections[u].prior;
         s' == s.(queues := if prior.Some? then Done(s.queues, prior.value) else s.queues, sections := s.sections[u := Over])
    case LoadQueue(u, t) =>
      && Entering(s, u) && t !in s.queues.issued
      && var name := NameOf(s, u);
         s' == if name in s.queues.current then s.(sections := s.sections[u := Chosen(s.queues.current[name])])
               else s.(queues := Issued(s.queues, t), sections := s.sections[u := Over])
    case CheckDone(u, t) =>
      && Inside(s, u) && u in s.sections && s.sections[u].Chosen? && t !in s.queues.issued
      && var q := s.sections[u].q;
         && q in s.queues.queues
         && s' == if s.queues.queues[q].done then s.(queues := Issued(s.queues, t), sections := s.sections[u := Over])
                  else s.(sections := s.sections[u := Checked(q)])
    case Send(u, t) =>
      && Inside(s, u) && u in s.sections && s.sections[u].Checked? && t !in s.queues.issued
      && var q := s.sections[u].q;
         && q in s.queues.queues
         && s' == s.(queues := if |s.queues.queues[q].buffer| >= Q.CAPACITY then Issued(s.queues, t)
                               else Issued(s.queues, t).(queues := s.queues.queues[q := Q.Appended(s.queues.queues[q], t)]),
                     sections := s.sections[u := Over])
    case CloseOwn(u, q) =>
      && Entering(s, u) && q in s.listener && s.listener[q] == u
      && q in s.queues.queues && s.queues.queues[q].lease == NameOf(s, u)
      && Q.Next(s.queues, Q.Close(q), s'.queues)
      && s' == s.(queues := s'.queues, sections := s.sections[u := Over])
  }

  predicate Next(s: State, step: Step, s': State) {
    match step
    case LockStep(u, l) => L.Next(s.locks, u, l, s'.locks) && MayMove(s, u, l) && s' == Moved(s, u, l, s'.locks)
    case QueueStep(q) => Outside(q) && Q.Next(s.queues, q, s'.queues) && s' == s.(queues := s'.queues)
    case _ => SectionStep(s, step, s')
  }

  /** What happens to queues without the lock: delivering, leaving the loop, removing. */
  predicate Outside(step: Q.Step) { !step.Open? && !step.Swap? && !step.Dial? && !step.Close? }

  predicate Init(s: State) { L.Init(s.locks) && Q.Init(s.queues) && s.sections == map[] && s.listener == map[] }

  ghost predicate Steps(s: State, s': State) { exists step :: Next(s, step, s') }

  ghost predicate Run(states: seq<State>) {
    && states != [] && Init(states[0])
    && forall i :: 0 <= i < |states| - 1 ==> Steps(states[i], states[i + 1])
  }

  // ---------------------------------------------------------------- section by section

  /** A queue that is out of the map and about to be told. */
  ghost predicate Superseding(s: State, q: QueueId) { exists u :: u in s.sections && s.sections[u] == Swapped(Some(q)) }

  /** The queues as if the swap told the superseded queue at once. */
  ghost function Whole(s: State): Q.State {
    s.queues.(queues := map q | q in s.queues.queues ::
                          if Superseding(s, q) then s.queues.queues[q].(done := true) else s.queues.queues[q])
  }

  ghost predicate SectionInv(s: State, u: User) {
    && u in s.sections && Inside(s, u)
    && var name := NameOf(s, u);
       match s.sections[u]
       case Swapped(prior) => prior.Some? ==> prior.value in s.queues.queues && s.queues.queues[prior.value].lease == name
       case Chosen(q) => LoadedFor(s, q, name)
       case Checked(q) => LoadedFor(s, q, name) && !s.queues.queues[q].done
       case Over => true
  }

  ghost predicate LoadedFor(s: State, q: QueueId, name: string) {
    && q in s.queues.queues && s.queues.queues[q].lease == name && !s.queues.queues[q].phase.Opened?
    && (name in s.queues.current ==> s.queues.current[name] == q)
  }

  ghost predicate SectionsInv(s: State) { forall u :: u in s.sections ==> SectionInv(s, u) }

  ghost predicate Inv(s: State) { L.Inv(s.locks) && Q.Inv(Whole(s)) && SectionsInv(s) }

  /** The mutex keeps goroutines of one lease out of each other's sections. */
  lemma OneInside(s: State, u: User, v: User)
    requires L.Inv(s.locks) && Inside(s, u) && Inside(s, v) && NameOf(s, u) == NameOf(s, v)
    ensures u == v
  {
    assert L.UserInv(s.locks, u, s.locks.users[u]) && L.UserInv(s.locks, v, s.locks.users[v]);
  }

  /** Nobody supersedes a queue of a lease another goroutine has the mutex of. */
  lemma NotSuperseding(s: State, u: User, q: QueueId)
    requires L.Inv(s.locks) && SectionsInv(s) && Inside(s, u) && q in s.queues.queues && s.queues.queues[q].lease == NameOf(s, u)
    requires u in s.sections ==> !s.sections[u].Swapped?
    ensures !Superseding(s, q)
  {
    if Superseding(s, q) {
      var v :| v in s.sections && s.sections[v] == Swapped(Some(q));
      assert SectionInv(s, v);
      OneInside(s, u, v);
    }
  }

  // ---------------------------------------------------------------- each step, seen whole

  /** A goroutine that is not between swap and close moves, and does not get there. */
  lemma SupersedingSame(s: State, s': State, u: User)
    requires forall v :: v != u ==> (v in s'.sections <==> v in s.sections) && (v in s.sections ==> s'.sections[v] == s.sections[v])
    requires u in s.sections ==> !s.sections[u].Swapped?
    requires u in s'.sections ==> !s'.sections[u].Swapped?
    ensures forall q :: Superseding(s', q) <==> Superseding(s, q)
  {
    forall q ensures Superseding(s', q) <==> Superseding(s, q) {
      if v :| v in s.sections && s.sections[v] == Swapped(Some(q)) { assert v in s'.sections && s'.sections[v] == Swapped(Some(q)); }
      if v :| v in s'.sections && s'.sections[v] == Swapped(Some(q)) { assert v in s.sections && s.sections[v] == Swapped(Some(q)); }
    }
  }

  lemma LockStepRefines(s: State, u: User, l: L.Step, s': State)
    requires Inv(s) && Next(s, LockStep(u, l), s')
    ensures Whole(s') == Whole(s) && SectionsInv(s')
  {
    hide L.Next, L.Inv, Q.Inv, Superseding, SectionInv, MayMove;
    LockStepMovesOne(s, u, l, s');
    SupersedingSame(s, s', u);
    WholeSame(s, s');
    forall v | v in s'.sections ensures SectionInv(s', v) {
      assert v in s.sections && s'.sections[v] == s.sections[v] && v != u;
      SectionFramed(s, s', v);
    }
  }

  lemma WholeSame(s: State, s': State)
    requires s'.queues == s.queues && forall q :: Superseding(s', q) <==> Superseding(s, q)
    ensures Whole(s') == Whole(s)
  {
    hide Superseding;
    assert Whole(s').queues == Whole(s).queues;
  }

  lemma SectionFramed(s: State, s': State, v: User)
    requires SectionInv(s, v) && s'.queues == s.queues && v in s'.sections && s'.sections[v] == s.sections[v]
    requires v in s.locks.users ==> v in s'.locks.users && s'.locks.users[v] == s.locks.users[v]
    ensures SectionInv(s', v)
  {
  }

  lemma LockStepMovesOne(s: State, u: User, l: L.Step, s': State)
    requires SectionsInv(s) && Next(s, LockStep(u, l), s')
    ensures forall v :: v != u && v in s.locks.users ==> v in s'.locks.users && s'.locks.users[v] == s.locks.users[v]
    ensures u in s.sections ==> l.Unlock? && s.sections[u].Over?
  {
    if u in s.sections { assert SectionInv(s, u); }
  }

  /** Goroutines in other sections do not notice a change to one queue of this lease. */
  lemma OthersKeep(s: State, s': State, u: User, x: QueueId)
    requires L.Inv(s.locks) && SectionsInv(s) && Inside(s, u) && s'.locks == s.locks
    requires forall v :: v != u ==> (v in s'.sections <==> v in s.sections) && (v in s.sections ==> s'.sections[v] == s.sections[v])
    requires forall q :: q in s.queues.queues && q != x ==> q in s'.queues.queues && s'.queues.queues[q] == s.queues.queues[q]
    requires x in s.queues.queues ==>
               && x in s'.queues.queues && s.queues.queues[x].lease == NameOf(s, u) && s'.queues.queues[x].lease == NameOf(s, u)
    requires forall n :: n != NameOf(s, u) ==> (n in s'.queues.current <==> n in s.queues.current)
    requires forall n :: n != NameOf(s, u) && n in s.queues.current ==> s'.queues.current[n] == s.queues.current[n]
    ensures forall v :: v in s'.sections && v != u ==> SectionInv(s', v)
  {
    hide L.Inv;
    forall v | v in s'.sections && v != u ensures SectionInv(s', v) {
      assert SectionInv(s, v);
      if NameOf(s, v) == NameOf(s, u) { OneInside(s, u, v); }
    }
  }

  lemma SwapRefines(s: State, u: User, q: QueueId, s': State)
    requires Inv(s) && SectionStep(s, SwapMap(u, q), s')
    ensures Q.Next(Whole(s), Q.Swap(q), Whole(s')) && SectionsInv(s')
  {
    hide L.Inv, Superseding, Q.QueuesInv, Q.TokensInv, Q.Next, Whole, Q.CurrentInv;
    SwapSuperseding(s, u, q, s');
    OthersKeep(s, s', u, q);
    SwapWhole(s, u, q, s');
    SwapProgress(s, u, q, s');
  }

  lemma SwapProgress(s: State, u: User, q: QueueId, s': State)
    requires Q.CurrentInv(Whole(s)) && SectionStep(s, SwapMap(u, q), s')
    ensures SectionInv(s', u)
  {
    hide Superseding;
    if NameOf(s, u) in s.queues.current { LoadedIsCurrent(s, NameOf(s, u)); }
  }

  lemma SwapSuperseding(s: State, u: User, q: QueueId, s': State)
    requires Inv(s) && SectionStep(s, SwapMap(u, q), s')
    ensures forall x :: Superseding(s', x) <==> Superseding(s, x) || s'.sections[u] == Swapped(Some(x))
    ensures !Superseding(s, q)
  {
    hide Q.Inv, L.Inv;
    forall x ensures Superseding(s', x) <==> Superseding(s, x) || s'.sections[u] == Swapped(Some(x)) {
      if v :| v in s.sections && s.sections[v] == Swapped(Some(x)) { assert v in s'.sections && s'.sections[v] == Swapped(Some(x)); }
      if v :| v in s'.sections && s'.sections[v] == Swapped(Some(x)) { assert v == u || (v in s.sections && s.sections[v] == Swapped(Some(x))); }
      if s'.sections[u] == Swapped(Some(x)) { assert u in s'.sections; }
    }
    NotSuperseding(s, u, q);
  }

  lemma SwapWhole(s: State, u: User, q: QueueId, s': State)
    requires Q.CurrentInv(Whole(s)) && SectionStep(s, SwapMap(u, q), s') && !Superseding(s, q)
    requires forall x :: Superseding(s', x) <==> Superseding(s, x) || s'.sections[u] == Swapped(Some(x))
    ensures Q.Next(Whole(s), Q.Swap(q), Whole(s'))
  {
    hide Superseding;
    var name := NameOf(s, u);
    var w, w' := Whole(s), Whole(s');
    assert name in s.queues.current ==> s.queues.current[name] in w.queues && s.queues.current[name] != q;
    assert w.queues[q] == s.queues.queues[q];
    assert w'.queues == Q.SwapEffect(w, q).queues;
  }

  lemma CloseOldRefines(s: State, u: User, s': State)
    requires Inv(s) && SectionStep(s, CloseOld(u), s')
    ensures Whole(s') == Whole(s) && SectionsInv(s')
  {
    hide L.Inv, Q.Inv, Superseding;
    var prior := s.sections[u].prior;
    assert SectionInv(s, u);
    assert SectionInv(s', u);
    if prior.Some? {
      OthersKeep(s, s', u, prior.value);
      hide SectionInv;
      CloseOldWhole(s, u, prior.value, s');
    } else {
      hide SectionInv;
      SupersedingUnlessTold(s, u, s');
      WholeSame(s, s');
      forall v | v in s'.sections && v != u ensures SectionInv(s', v) { SectionFramed(s, s', v); }
    }
  }

  lemma SupersedingUnlessTold(s: State, u: User, s': State)
    requires SectionStep(s, CloseOld(u), s')
    ensures forall x :: s.sections[u] != Swapped(Some(x)) ==> (Superseding(s', x) <==> Superseding(s, x))
  {
    forall x | s.sections[u] != Swapped(Some(x)) ensures Superseding(s', x) <==> Superseding(s, x) {
      if v :| v in s.sections && s.sections[v] == Swapped(Some(x)) { assert v in s'.sections && s'.sections[v] == Swapped(Some(x)); }
      if v :| v in s'.sections && s'.sections[v] == Swapped(Some(x)) { assert v in s.sections && s.sections[v] == Swapped(Some(x)); }
    }
  }

  lemma CloseOldWhole(s: State, u: User, x: QueueId, s': State)
    requires SectionStep(s, CloseOld(u), s') && s.sections[u] == Swapped(Some(x))
    ensures Whole(s') == Whole(s)
  {
    assert Superseding(s, x);
    SupersedingUnlessTold(s, u, s');
    hide Superseding;
    assert Whole(s').queues == Whole(s).queues;
  }

  /** Only `u`'s progress changes, and it is not about a swap. */
  lemma ProgressKeeps(s: State, s': State, u: User)
    requires L.Inv(s.locks) && SectionsInv(s) && Inside(s, u) && s'.locks == s.locks && s'.queues.queues == s.queues.queues
    requires s'.queues.current == s.queues.current && u in s'.sections && s'.sections == s.sections[u := s'.sections[u]]
    requires !s'.sections[u].Swapped? && (u in s.sections ==> !s.sections[u].Swapped?)
    requires SectionInv(s', u)
    ensures SectionsInv(s') && Whole(s').queues == Whole(s).queues
  {
    hide L.Inv, Superseding;
    SupersedingSame(s, s', u);
    forall v | v in s'.sections && v != u ensures SectionInv(s', v) { assert SectionInv(s, v); }
  }

  lemma LoadRefines(s: State, u: User, t: Token, s': State)
    requires Inv(s) && SectionStep(s, LoadQueue(u, t), s')
    ensures SectionsInv(s') && (Whole(s') == Whole(s) || Q.Next(Whole(s), Q.Dial(NameOf(s, u), t), Whole(s')))
  {
    hide L.Inv, Superseding;
    var name := NameOf(s, u);
    if name in s.queues.current { LoadedIsCurrent(s, name); }
    assert SectionInv(s', u);
    ProgressKeeps(s, s', u);
  }

  lemma LoadedIsCurrent(s: State, name: string)
    requires Q.CurrentInv(Whole(s)) && name in s.queues.current
    ensures LoadedFor(s, s.queues.current[name], name)
  {
    hide Superseding;
    var w := Whole(s);
    assert w.current[name] in w.queues && w.queues[w.current[name]].lease == name;
  }

  lemma CheckRefines(s: State, u: User, t: Token, s': State)
    requires Inv(s) && SectionStep(s, CheckDone(u, t), s')
    ensures SectionsInv(s') && (Whole(s') == Whole(s) || Q.Next(Whole(s), Q.Dial(NameOf(s, u), t), Whole(s')))
  {
    hide L.Inv, Q.Inv, Superseding;
    assert SectionInv(s, u) && SectionInv(s', u);
    ProgressKeeps(s, s', u);
  }

  /** What a dial has checked is still so when it sends: the queue is current and open. */
  lemma CheckedIsLive(s: State, u: User)
    requires Inv(s) && Inside(s, u) && u in s.sections && s.sections[u].Checked?
    ensures var q := s.sections[u].q;
            && q in s.queues.queues && Q.Live(s.queues.queues[q]) && Whole(s).queues[q] == s.queues.queues[q]
            && NameOf(s, u) in s.queues.current && s.queues.current[NameOf(s, u)] == q
  {
    assert SectionInv(s, u);
    NotSuperseding(s, u, s.sections[u].q);
    hide L.Inv, Superseding;
    var w, q := Whole(s), s.sections[u].q;
    assert w.queues[q] == s.queues.queues[q] && Q.Live(w.queues[q]);
  }

  lemma SendRefines(s: State, u: User, t: Token, s': State)
    requires Inv(s) && SectionStep(s, Send(u, t), s')
    ensures SectionsInv(s') && Q.Next(Whole(s), Q.Dial(NameOf(s, u), t), Whole(s'))
  {
    hide L.Inv, Q.Inv, Superseding;
    CheckedIsLive(s, u);
    assert SectionInv(s, u) && SectionInv(s', u);
    OthersKeep(s, s', u, s.sections[u].q);
    hide SectionInv;
    SupersedingSame(s, s', u);
    NotSuperseding(s, u, s.sections[u].q);
    assert Whole(s').queues == Q.DialEffect(Whole(s), NameOf(s, u), t).queues;
  }

  lemma CloseOwnRefines(s: State, u: User, q: QueueId, s': State)
    requires Inv(s) && SectionStep(s, CloseOwn(u, q), s')
    ensures SectionsInv(s') && Q.Next(Whole(s), Q.Close(q), Whole(s'))
  {
    hide L.Inv, Q.Inv, Superseding;
    NotSuperseding(s, u, q);
    assert SectionInv(s', u);
    OthersKeep(s, s', u, q);
    hide SectionInv;
    SupersedingSame(s, s', u);
    assert Whole(s').queues == Whole(s).queues[q := s'.queues.queues[q]];
  }

  lemma SupersedingIsKnown(s: State, q: QueueId)
    requires SectionsInv(s) && Superseding(s, q)
    ensures q in s.queues.queues
  {
    var v :| v in s.sections && s.sections[v] == Swapped(Some(q));
    assert SectionInv(s, v);
  }

  lemma OpenRefines(s: State, u: User, q: QueueId, s': State)
    requires Inv(s) && SectionStep(s, Open(u, q), s')
    ensures SectionsInv(s') && Q.Next(Whole(s), Q.Open(q, NameOf(s, u)), Whole(s'))
  {
    hide L.Inv, Q.Inv;
    forall x | Superseding(s, x) ensures x in s.queues.queues { SupersedingIsKnown(s, x); }
    assert forall x :: Superseding(s', x) <==> Superseding(s, x);
    hide Superseding;
    assert Whole(s').queues == Whole(s).queues[q := s'.queues.queues[q]];
    forall v | v in s'.sections ensures SectionInv(s', v) { assert SectionInv(s, v); }
  }

  /** A step outside the sections moves one queue along and may take it out of the map. */
  lemma QueueStepShape(a: Q.State, move: Q.Step, b: Q.State)
    requires Q.Next(a, move, b) && Outside(move)
    ensures move.q in a.queues && move.q in b.queues && b.queues == a.queues[move.q := b.queues[move.q]]
    ensures var x, y := a.queues[move.q], b.queues[move.q];
            y.lease == x.lease && y.done == x.done && !x.phase.Opened? && !y.phase.Opened?
    ensures forall n :: n in b.current ==> n in a.current && b.current[n] == a.current[n]
  {
  }

  /** Such a step does not depend on who else has been told to stop. */
  lemma QueueStepWhole(s: State, move: Q.Step, s': State)
    requires Q.Next(s.queues, move, s'.queues) && Outside(move) && s' == s.(queues := s'.queues)
    requires forall x :: Superseding(s', x) <==> Superseding(s, x)
    ensures Q.Next(Whole(s), move, Whole(s'))
  {
    hide Superseding;
    var q := move.q;
    var y := s'.queues.queues[q];
    assert Whole(s').queues == Whole(s).queues[q := if Superseding(s, q) then y.(done := true) else y];
  }

  lemma QueueStepRefines(s: State, move: Q.Step, s': State)
    requires Inv(s) && Next(s, QueueStep(move), s')
    ensures SectionsInv(s') && Q.Next(Whole(s), move, Whole(s'))
  {
    hide L.Inv, Q.Inv, Q.Next, Whole;
    assert forall x :: Superseding(s', x) <==> Superseding(s, x);
    hide Superseding;
    QueueStepWhole(s, move, s');
    QueueStepShape(s.queues, move, s'.queues);
    forall v | v in s'.sections ensures SectionInv(s', v) { assert SectionInv(s, v); }
  }

  /** Every step keeps the invariant and is, seen whole, one step of `ListenQueues` or none. */
  lemma StepRefines(s: State, step: Step, s': State)
    requires Inv(s) && Next(s, step, s')
    ensures Inv(s') && (Whole(s') == Whole(s) || Q.Steps(Whole(s), Whole(s')))
  {
    hide L.Inv, Q.Inv, Q.Next, L.Next, Whole, SectionsInv, SectionStep, Moved, MayMove;
    match step
    case LockStep(u, l) =>
      L.InvKept(s.locks, u, l, s'.locks);
      LockStepRefines(s, u, l, s');
    case QueueStep(move) =>
      QueueStepRefines(s, move, s');
      Q.InvKept(Whole(s), move, Whole(s'));
    case Open(u, q) =>
      LocksSame(s, step, s');
      OpenRefines(s, u, q, s');
      Q.InvKept(Whole(s), Q.Open(q, NameOf(s, u)), Whole(s'));
    case SwapMap(u, q) =>
      LocksSame(s, step, s');
      SwapRefines(s, u, q, s');
      Q.InvKept(Whole(s), Q.Swap(q), Whole(s'));
    case CloseOld(u) =>
      LocksSame(s, step, s');
      CloseOldRefines(s, u, s');
    case LoadQueue(u, t) =>
      LocksSame(s, step, s');
      LoadRefines(s, u, t, s');
      if Whole(s') != Whole(s) { Q.InvKept(Whole(s), Q.Dial(NameOf(s, u), t), Whole(s')); }
    case CheckDone(u, t) =>
      LocksSame(s, step, s');
      CheckRefines(s, u, t, s');
      if Whole(s') != Whole(s) { Q.InvKept(Whole(s), Q.Dial(NameOf(s, u), t), Whole(s')); }
    case Send(u, t) =>
      LocksSame(s, step, s');
      SendRefines(s, u, t, s');
      Q.InvKept(Whole(s), Q.Dial(NameOf(s, u), t), Whole(s'));
    case CloseOwn(u, q) =>
      LocksSame(s, step, s');
      CloseOwnRefines(s, u, q, s');
      Q.InvKept(Whole(s), Q.Close(q), Whole(s'));
  }

  lemma LocksSame(s: State, step: Step, s': State)
    requires SectionStep(s, step, s')
    ensures s'.locks == s.locks && step.u in s.locks.users
  {
  }

  // ---------------------------------------------------------------- main results

  lemma InitInv(s: State)
    requires Init(s)
    ensures Inv(s) && Q.Init(Whole(s))
  {
    assert Whole(s).queues == map[];
  }

  ghost predicate WholeReachable(w: Q.State) { exists states :: Q.Run(states) && states[|states| - 1] == w }

  lemma WholeExtend(w: Q.State, w': Q.State)
    requires WholeReachable(w) && Q.Steps(w, w')
    ensures WholeReachable(w')
  {
    hide Q.Steps;
    var states :| Q.Run(states) && states[|states| - 1] == w;
    var longer := states + [w'];
    forall i | 0 <= i < |longer| - 1 ensures Q.Steps(longer[i], longer[i + 1]) {
      assert longer[i] == states[i];
      if i < |states| - 1 { assert Q.Steps(states[i], states[i + 1]); }
    }
    assert Q.Run(longer) && longer[|longer| - 1] == w';
  }

  /** Every run with sections statement by statement is, section by section, a run of
      `ListenQueues`: what is proved there of every run holds here. */
  lemma {:induction false} RunRefines(states: seq<State>, i: nat)
    requires Run(states) && i < |states|
    ensures Inv(states[i]) && WholeReachable(Whole(states[i]))
  {
    hide Inv, Whole, WholeReachable, Next;
    if i == 0 {
      InitInv(states[0]);
      JustStarted(Whole(states[0]));
    } else {
      RunRefines(states, i - 1);
      assert Steps(states[i - 1], states[i - 1 + 1]);
      var step :| Next(states[i - 1], step, states[i]);
      StepRefines(states[i - 1], step, states[i]);
      if Whole(states[i]) != Whole(states[i - 1]) { WholeExtend(Whole(states[i - 1]), Whole(states[i])); }
    }
  }

  lemma JustStarted(w: Q.State)
    requires Q.Init(w)
    ensures WholeReachable(w)
  {
    assert Q.Run([w]) && [w][0] == w;
  }

  /** In every such run a token is sent only into a queue that is open and current at that moment,
      although the dial looked it up and checked it in earlier steps. */
  lemma SentToTheLiveListener(states: seq<State>, i: nat, u: User, t: Token)
    requires Run(states) && i + 1 < |states| && Next(states[i], Send(u, t), states[i + 1])
    ensures var s, q := states[i], states[i].sections[u].q;
            && q in s.queues.queues && Q.Live(s.queues.queues[q]) && s.queues.queues[q].lease == NameOf(s, u)
            && NameOf(s, u) in s.queues.current && s.queues.current[NameOf(s, u)] == q
  {
    RunRefines(states, i);
    CheckedIsLive(states[i], u);
    assert SectionInv(states[i], u);
  }
}
