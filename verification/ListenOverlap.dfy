/** The other half of `ListenGrain.LostTokenNeedsOverlap`: whenever, after an orderly run, an
    attempt is about to increment an entry that another one is backing out of, some continuation
    ends with a dial accepted by a queue that was closed before; and such a run exists. */
module ListenOverlap {
  import opened Common
  import opened ListenSections
  import opened ListenGrain
  import L = LeaseLocks
  import G = LeaseLockGrain
  import Q = ListenQueues

  // ---------------------------------------------------------------- continuations

  ghost predicate IsPath(path: seq<State>, s: State, s': State) {
    && path != [] && path[0] == s && path[|path| - 1] == s'
    && forall i :: 0 <= i < |path| - 1 ==> FineStep(path[i], path[i + 1])
  }

  ghost predicate Leads(s: State, s': State) { exists path :: IsPath(path, s, s') }

  lemma LeadsToItself(s: State)
    ensures Leads(s, s)
  {
    assert IsPath([s], s, s);
  }

  lemma Then(start: State, s: State, s': State)
    requires Leads(start, s) && FineStep(s, s')
    ensures Leads(start, s')
  {
    hide FineStep;
    var path :| IsPath(path, start, s);
    var longer := path + [s'];
    forall i | 0 <= i < |longer| - 1 ensures FineStep(longer[i], longer[i + 1]) {
      assert longer[i] == path[i];
      if i < |path| - 1 { assert FineStep(path[i], path[i + 1]); }
    }
    assert IsPath(longer, start, s');
  }

  lemma ThenStep(start: State, s: State, step: Step, s': State)
    requires Leads(start, s) && Next(s, step, s') && !(step.LockStep? && step.step.Bump?)
    ensures Leads(start, s')
  {
    hide Leads, Next;
    Then(start, s, s');
  }

  /** A lock step by a goroutine that runs no section and listens to no queue, or holds on to its
      reference. */
  lemma ThenLock(start: State, s: State, u: User, l: L.Step, locks: L.State) returns (s': State)
    requires Leads(start, s) && L.Next(s.locks, u, l, locks) && !l.Bump? && !l.LoadForRelease?
    requires l.Unlock? && u in s.sections ==> s.sections[u].Over?
    ensures Leads(start, s') && s' == Moved(s, u, l, locks)
  {
    hide Leads, L.Next;
    s' := Moved(s, u, l, locks);
    ThenStep(start, s, LockStep(u, l), s');
  }

  lemma ThenIncrement(start: State, s: State, u: User, e: L.Entry) returns (s': State)
    requires Leads(start, s) && L.At(s.locks, u, L.Loaded(e)) && e in s.locks.refs && s.locks.refs[e] >= 1
    ensures Leads(start, s')
    ensures s' == s.(locks := L.Goto(s.locks.(refs := s.locks.refs[e := s.locks.refs[e] + 1]), u, L.Holding(e)))
  {
    hide Leads;
    s' := s.(locks := L.Goto(s.locks.(refs := s.locks.refs[e := s.locks.refs[e] + 1]), u, L.Holding(e)));
    assert G.DoIncrement(s.locks, u, e, s'.locks);
    Then(start, s, s');
  }

  lemma {:induction false} FreshNat(used: set<nat>) returns (k: nat)
    ensures k !in used && forall x :: x in used ==> x < k
  {
    if used == {} {
      k := 0;
    } else {
      var x :| x in used;
      var rest := FreshNat(used - {x});
      k := if rest <= x then x + 1 else rest;
      forall y | y in used ensures y < k { if y != x { assert y in used - {x}; } }
    }
  }

  lemma FreshEntry(used: set<L.Entry>, name: string) returns (g: L.Entry)
    ensures g !in used && g.name == name
  {
    var addresses := set e | e in used :: e.address;
    var k := FreshNat(addresses);
    g := L.Entry(name, k);
    assert forall e :: e in used ==> e.address in addresses;
  }

  // ---------------------------------------------------------------- leaving the lease's mutex free

  /** Nobody is inside a section of this lease. */
  ghost predicate Vacant(s: State, name: string) { forall v :: v in s.locks.users && s.locks.users[v].name == name ==> !Inside(s, v) }

  lemma OrderlyThen(start: State, s: State, step: Step, s': State)
    requires Leads(start, s) && GrainInv(s) && Next(s, step, s') && !(step.LockStep? && step.step.Bump?)
    ensures Leads(start, s') && GrainInv(s')
  {
    hide Leads, Next, GrainInv, Q.Steps, Whole;
    ThenStep(start, s, step, s');
    OrderlyStepKeeps(s, s');
  }

  lemma SectionOf(s: State, v: User)
    requires GrainInv(s) && v in s.sections
    ensures Inside(s, v)
    ensures s.sections[v].Chosen? || s.sections[v].Checked? ==> s.sections[v].q in s.queues.queues
  {
    assert SectionInv(Lift(s), v);
    CoarseKeepsLocal(s, v);
  }

  /** A goroutine inside its section can finish it. */
  lemma FinishSection(start: State, s: State, v: User) returns (s': State)
    requires Leads(start, s) && GrainInv(s) && Inside(s, v)
    ensures Leads(start, s') && GrainInv(s') && s'.locks == s.locks
    ensures v in s'.sections ==> s'.sections[v].Over?
    decreases if v !in s.sections || s.sections[v].Over? then 0 else if s.sections[v].Chosen? then 2 else 1
  {
    if v !in s.sections || s.sections[v].Over? {
      s' := s;
    } else {
      hide Leads, GrainInv, Q.Next, L.Next;
      SectionOf(s, v);
      var t := FreshNat(s.queues.issued);
      var s1, step := SectionGoesOn(s, v, t);
      OrderlyThen(start, s, step, s1);
      s' := FinishSection(start, s1, v);
    }
  }

  lemma SectionGoesOn(s: State, v: User, t: Token) returns (s': State, step: Step)
    requires Inside(s, v) && v in s.sections && !s.sections[v].Over? && t !in s.queues.issued
    requires s.sections[v].Chosen? || s.sections[v].Checked? ==> s.sections[v].q in s.queues.queues
    ensures Next(s, step, s') && !step.LockStep? && s'.locks == s.locks && v in s'.sections
    ensures s'.sections[v].Over? || (s.sections[v].Chosen? && s'.sections[v].Checked?)
  {
    match s.sections[v]
    case Swapped(prior) =>
      step := CloseOld(v);
      s' := s.(queues := if prior.Some? then Done(s.queues, prior.value) else s.queues, sections := s.sections[v := Over]);
    case Chosen(q) =>
      step := CheckDone(v, t);
      s' := if s.queues.queues[q].done then s.(queues := Issued(s.queues, t), sections := s.sections[v := Over])
            else s.(sections := s.sections[v := Checked(q)]);
    case Checked(q) =>
      step := Send(v, t);
      s' := s.(queues := if |s.queues.queues[q].buffer| >= Q.CAPACITY then Issued(s.queues, t)
                         else Issued(s.queues, t).(queues := s.queues.queues[q := Q.Appended(s.queues.queues[q], t)]),
               sections := s.sections[v := Over]);
  }

  /** What the following lemmas leave alone: who is where, except goroutines inside or deleting. */
  ghost predicate SameElsewhere(s: State, s': State) {
    && s'.locks.refs == s.locks.refs && s'.locks.users.Keys == s.locks.users.Keys
    && forall v :: v in s.locks.users && !s.locks.users[v].pc.Critical? && !s.locks.users[v].pc.Deleting? ==> s'.locks.users[v] == s.locks.users[v]
  }

  lemma MakeVacant(start: State, s: State, name: string) returns (s': State)
    requires Leads(start, s) && GrainInv(s)
    ensures Leads(start, s') && GrainInv(s') && Vacant(s', name) && SameElsewhere(s, s') && s'.locks.table == s.locks.table
  {
    hide Leads, GrainInv;
    if v :| v in s.locks.users && s.locks.users[v].name == name && Inside(s, v) {
      var s1 := FinishSection(start, s, v);
      var e := s1.locks.users[v].pc.e;
      var locks := L.Goto(s1.locks.(owner := s1.locks.owner - {e}), v, L.Holding(e));
      assert L.Next(s1.locks, v, L.Unlock(e), locks);
      hide L.Next;
      s' := Moved(s1, v, L.Unlock(e), locks);
      OrderlyThen(start, s1, LockStep(v, L.Unlock(e)), s');
      forall w | w in s'.locks.users && s'.locks.users[w].name == name ensures !Inside(s', w) {
        if w != v && Inside(s', w) { TwoInside(s1, v, w); }
      }
    } else {
      s' := s;
    }
  }

  lemma TwoInside(s: State, v: User, w: User)
    requires GrainInv(s) && Inside(s, v) && Inside(s, w) && NameOf(s, v) == NameOf(s, w)
    ensures v == w
  {
    CoarseKeepsLocal(s, v);
    CoarseKeepsLocal(s, w);
    OneInside(Lift(s), v, w);
  }

  // ---------------------------------------------------------------- clearing a dying entry

  /** Whoever acquires next gets a reference to a live entry, or stores a new one. */
  ghost predicate Clear(s: State, name: string) {
    name in s.locks.table ==> s.locks.table[name] in s.locks.refs && s.locks.refs[s.locks.table[name]] >= 1
                              && !G.Backed(s.locks, s.locks.table[name])
  }

  lemma MakeClear(start: State, s: State, name: string) returns (s': State)
    requires Leads(start, s) && GrainInv(s) && Vacant(s, name)
    ensures Leads(start, s') && GrainInv(s') && Vacant(s', name) && SameElsewhere(s, s') && Clear(s', name)
  {
    hide Leads, GrainInv, Vacant, SameElsewhere, Clear, L.Next;
    if name in s.locks.table && s.locks.table[name] in s.locks.refs && G.Coarse(s.locks).refs[s.locks.table[name]] == 0 {
      var v := DeleterOf(s, name);
      var step := LockStep(v, L.CompareAndDelete(s.locks.table[name]));
      s' := DeletedBy(s, name, v);
      OrderlyThen(start, s, step, s');
    } else {
      s' := s;
      NothingElsewhere(s);
      ClearAlready(s, name);
    }
  }

  lemma NothingElsewhere(s: State)
    ensures SameElsewhere(s, s)
  {
  }

  lemma DeletedBy(s: State, name: string, v: User) returns (s': State)
    requires name in s.locks.table && v in s.locks.users && s.locks.users[v] == L.Local(name, L.Deleting(s.locks.table[name]))
    requires Vacant(s, name)
    ensures Next(s, LockStep(v, L.CompareAndDelete(s.locks.table[name])), s')
    ensures Vacant(s', name) && SameElsewhere(s, s') && Clear(s', name)
  {
    var e := s.locks.table[name];
    var locks := L.Goto(s.locks.(table := s.locks.table - {name}), v, L.Finished);
    assert L.Next(s.locks, v, L.CompareAndDelete(e), locks);
    s' := Moved(s, v, L.CompareAndDelete(e), locks);
  }

  lemma DeleterOf(s: State, name: string) returns (v: User)
    requires GrainInv(s) && name in s.locks.table && s.locks.table[name] in s.locks.refs
    requires G.Coarse(s.locks).refs[s.locks.table[name]] == 0
    ensures v in s.locks.users && s.locks.users[v] == L.Local(name, L.Deleting(s.locks.table[name]))
  {
    var c, e := G.Coarse(s.locks), s.locks.table[name];
    assert c.table[name] == e && L.DyingIsDeleted(c);
    v :| v in c.users && L.Deletes(c.users[v], e);
    CoarseKeepsLocal(s, v);
    assert L.UserInv(c, v, c.users[v]);
  }

  lemma ClearAlready(s: State, name: string)
    requires GrainInv(s) && (name in s.locks.table ==> s.locks.table[name] !in s.locks.refs || G.Coarse(s.locks).refs[s.locks.table[name]] != 0)
    ensures Clear(s, name)
  {
    if name in s.locks.table {
      var c, e := G.Coarse(s.locks), s.locks.table[name];
      assert c.table[name] in c.refs;
      L.CountMeansHeld(c, e);
      if G.Backed(s.locks, e) { G.BackedIsKnown(s.locks, e); }
    }
  }

  // ---------------------------------------------------------------- acquiring

  /** An acquisition for this lease gets an entry other than `e`, whose mutex is free. */
  ghost predicate Joinable(s: State, name: string, e: L.Entry) {
    && s.sections.Keys <= s.locks.users.Keys && e in s.locks.refs
    && (name in s.locks.table ==>
          var f := s.locks.table[name];
          f in s.locks.refs && s.locks.refs[f] >= 1 && f != e && f !in s.locks.owner)
  }

  ghost predicate SameButLocks(s: State, s': State) {
    && s' == s.(locks := s'.locks) && s'.locks.owner == s.locks.owner
    && s.locks.users.Keys <= s'.locks.users.Keys && forall v :: v in s.locks.users ==> s'.locks.users[v] == s.locks.users[v]
  }

  /** `w` holds the entry the map has for the lease. */
  ghost predicate Joined(s: State, name: string, e: L.Entry, w: User, f: L.Entry) {
    && Joinable(s, name, e) && name in s.locks.table && s.locks.table[name] == f
    && w in s.locks.users && s.locks.users[w] == L.Local(name, L.Holding(f)) && w !in s.sections
  }

  lemma Acquire(start: State, s: State, name: string, e: L.Entry) returns (w: User, f: L.Entry, s': State)
    requires Leads(start, s) && Joinable(s, name, e)
    ensures Leads(start, s') && w !in s.locks.users && SameButLocks(s, s') && Joined(s', name, e, w, f)
  {
    hide Leads, Joined;
    w := FreshNat(s.locks.users.Keys);
    var locks := s.locks.(users := s.locks.users[w := L.Local(name, L.Start)]);
    assert L.Next(s.locks, w, L.Begin(name), locks);
    hide L.Next;
    var s1 := ThenLock(start, s, w, L.Begin(name), locks);
    if name in s.locks.table {
      f, s' := Join(start, s1, name, e, w);
    } else {
      f, s' := StoreNew(start, s1, name, e, w);
    }
    hide Joinable;
  }

  ghost predicate Starting(s: State, name: string, w: User) {
    w in s.locks.users && s.locks.users[w] == L.Local(name, L.Start) && w !in s.sections
  }

  ghost predicate SameButFor(s: State, s': State, w: User) {
    && s' == s.(locks := s'.locks) && s'.locks.owner == s.locks.owner && s'.locks.users.Keys == s.locks.users.Keys
    && forall v :: v in s.locks.users && v != w ==> s'.locks.users[v] == s.locks.users[v]
  }

  lemma Join(start: State, s: State, name: string, e: L.Entry, w: User) returns (f: L.Entry, s': State)
    requires Leads(start, s) && Joinable(s, name, e) && Starting(s, name, w) && name in s.locks.table
    ensures Leads(start, s') && SameButFor(s, s', w) && Joined(s', name, e, w, f)
  {
    hide Leads;
    f := s.locks.table[name];
    var locks := L.Goto(s.locks, w, L.Loaded(f));
    assert L.Next(s.locks, w, L.Load, locks);
    hide L.Next;
    var s1 := ThenLock(start, s, w, L.Load, locks);
    s' := ThenIncrement(start, s1, w, f);
  }

  lemma StoreNew(start: State, s: State, name: string, e: L.Entry, w: User) returns (f: L.Entry, s': State)
    requires Leads(start, s) && Joinable(s, name, e) && Starting(s, name, w) && name !in s.locks.table
    ensures Leads(start, s') && SameButFor(s, s', w) && Joined(s', name, e, w, f)
  {
    hide Leads;
    f := FreshEntry(s.locks.refs.Keys + s.locks.owner.Keys, name);
    var locks := L.Goto(s.locks.(table := s.locks.table[name := f], refs := s.locks.refs[f := 1]), w, L.Holding(f));
    assert L.Next(s.locks, w, L.Store(f), locks);
    hide L.Next;
    s' := ThenLock(start, s, w, L.Store(f), locks);
  }

  lemma Enter(start: State, s: State, w: User, f: L.Entry) returns (s': State)
    requires Leads(start, s) && L.At(s.locks, w, L.Holding(f)) && f !in s.locks.owner
    ensures Leads(start, s') && s' == s.(locks := L.Goto(s.locks.(owner := s.locks.owner[f := w]), w, L.Critical(f)))
  {
    hide Leads;
    var locks := L.Goto(s.locks.(owner := s.locks.owner[f := w]), w, L.Critical(f));
    assert L.Next(s.locks, w, L.Lock(f), locks);
    s' := ThenLock(start, s, w, L.Lock(f), locks);
  }

  // ---------------------------------------------------------------- listening, dialling, leaving

  /** `u` runs the Listen call of `q`, which is current and open, but its mutex `e` is not the one
      others get. */
  ghost predicate Listens(s: State, name: string, u: User, e: L.Entry, q: QueueId) {
    && u in s.locks.users && s.locks.users[u] == L.Local(name, L.Holding(e)) && e !in s.locks.owner && u !in s.sections
    && q in s.queues.queues && s.queues.queues[q] == Q.Queue(name, [], false, Q.Running, [], [], [])
    && name in s.queues.current && s.queues.current[name] == q && q in s.listener && s.listener[q] == u
  }

  lemma Listen(start: State, s: State, name: string, u: User, e: L.Entry) returns (q: QueueId, s': State)
    requires Leads(start, s) && Joinable(s, name, e)
    requires u in s.locks.users && s.locks.users[u] == L.Local(name, L.Holding(e)) && e !in s.locks.owner && u !in s.sections
    ensures Leads(start, s') && Joinable(s', name, e) && Listens(s', name, u, e, q)
  {
    var w, f, s1 := Acquire(start, s, name, e);
    q := FreshNat(s1.queues.queues.Keys + s1.queues.current.Values);
    var s2 := OpenQueue(start, s1, u, q);
    var s3 := Enter(start, s2, w, f);
    var s4 := SwapIn(start, s3, w, q);
    hide Leads;
    var locks := L.Goto(s4.locks.(owner := s4.locks.owner - {f}), w, L.Holding(f));
    assert L.Next(s4.locks, w, L.Unlock(f), locks);
    s' := ThenLock(start, s4, w, L.Unlock(f), locks);
  }

  lemma OpenQueue(start: State, s: State, u: User, q: QueueId) returns (s': State)
    requires Leads(start, s) && u in s.locks.users && s.locks.users[u].pc.Holding? && q !in s.queues.queues
    ensures Leads(start, s')
    ensures s' == s.(queues := s.queues.(queues := s.queues.queues[q := Q.Queue(s.locks.users[u].name, [], false, Q.Opened, [], [], [])]),
                     listener := s.listener[q := u])
  {
    hide Leads;
    var x := Q.Queue(s.locks.users[u].name, [], false, Q.Opened, [], [], []);
    s' := s.(queues := s.queues.(queues := s.queues.queues[q := x]), listener := s.listener[q := u]);
    ThenStep(start, s, Open(u, q), s');
  }

  /** The two statements of the swap. */
  lemma SwapIn(start: State, s: State, w: User, q: QueueId) returns (s': State)
    requires Leads(start, s) && Entering(s, w) && Q.In(s.queues, q, Q.Opened) && s.queues.queues[q].lease == NameOf(s, w)
    requires !s.queues.queues[q].done && (NameOf(s, w) in s.queues.current ==> s.queues.current[NameOf(s, w)] != q)
    ensures Leads(start, s') && s'.locks == s.locks && s'.listener == s.listener && s'.sections == s.sections[w := Over]
    ensures q in s'.queues.queues && s'.queues.queues[q] == s.queues.queues[q].(phase := Q.Running)
    ensures NameOf(s, w) in s'.queues.current && s'.queues.current[NameOf(s, w)] == q
  {
    hide Leads, Q.Next;
    var name := NameOf(s, w);
    var prior := if name in s.queues.current then Some(s.queues.current[name]) else None;
    var s1 := s.(queues := s.queues.(queues := s.queues.queues[q := s.queues.queues[q].(phase := Q.Running)],
                                     current := s.queues.current[name := q]),
                 sections := s.sections[w := Swapped(prior)]);
    ThenStep(start, s, SwapMap(w, q), s1);
    s' := s1.(queues := if prior.Some? then Done(s1.queues, prior.value) else s1.queues, sections := s1.sections[w := Over]);
    ThenStep(start, s1, CloseOld(w), s');
    assert s.sections[w := Swapped(prior)][w := Over] == s.sections[w := Over];
  }

  /** A dial finds the queue current and open, and stands between its check and its send. */
  lemma Dial(start: State, s: State, name: string, u: User, e: L.Entry, q: QueueId) returns (d: User, t: Token, s': State)
    requires Leads(start, s) && Joinable(s, name, e) && Listens(s, name, u, e, q)
    ensures Leads(start, s') && Listens(s', name, u, e, q) && d != u
    ensures Inside(s', d) && d in s'.sections && s'.sections[d] == Checked(q) && t !in s'.queues.issued
  {
    var f, s1;
    d, f, s1 := Acquire(start, s, name, e);
    var s2 := Enter(start, s1, d, f);
    hide Leads, Q.Next, L.Next;
    t := FreshNat(s2.queues.issued);
    var s3 := s2.(sections := s2.sections[d := Chosen(q)]);
    ThenStep(start, s2, LoadQueue(d, t), s3);
    s' := s3.(sections := s3.sections[d := Checked(q)]);
    ThenStep(start, s3, CheckDone(d, t), s');
  }

  /** The Listen call is cancelled and closes its queue under the mutex it believes it holds. */
  lemma Leave(start: State, s: State, name: string, u: User, e: L.Entry, q: QueueId) returns (s': State)
    requires Leads(start, s) && Listens(s, name, u, e, q)
    ensures Leads(start, s') && s'.queues.issued == s.queues.issued && s'.sections == s.sections[u := Over]
    ensures forall v :: v in s.locks.users && v != u ==> v in s'.locks.users && s'.locks.users[v] == s.locks.users[v]
    ensures q in s'.queues.queues && s'.queues.queues[q] == Q.Queue(name, [], true, Q.Closed(false), [], [], [])
  {
    var x := s.queues.queues[q].(phase := Q.Leaving(false));
    var s1 := s.(queues := s.queues.(queues := s.queues.queues[q := x]));
    ThenStep(start, s, QueueStep(Q.Cancel(q)), s1);
    var s2 := Enter(start, s1, u, e);
    hide Leads, L.Next;
    s' := s2.(queues := s2.queues.(queues := s2.queues.queues[q := x.(done := true, phase := Q.Closed(false))]),
              sections := s2.sections[u := Over]);
    ThenStep(start, s2, CloseOwn(u, q), s');
  }

  // ---------------------------------------------------------------- the result

  /** A dial is accepted by a queue that was closed before the token was sent, and that nobody reads
      any more. */
  ghost predicate SentToClosed(s: State, d: User, t: Token, q: QueueId, s': State) {
    && Next(s, Send(d, t), s')
    && q in s.queues.queues && s.queues.queues[q].done && s.queues.queues[q].phase.Closed?
    && q in s'.queues.queues && s'.queues.queues[q].accepted == s.queues.queues[q].accepted + [t]
    && s'.queues.queues[q].buffer == s.queues.queues[q].buffer + [t]
  }

  ghost predicate CanLoseToken(start: State) {
    exists s, d, t, q, s' :: Leads(start, s) && SentToClosed(s, d, t, q, s')
  }

  lemma OrphanLosesToken(start: State, s: State, name: string, u: User, e: L.Entry)
    requires Leads(start, s) && Joinable(s, name, e)
    requires u in s.locks.users && s.locks.users[u] == L.Local(name, L.Holding(e)) && e !in s.locks.owner && u !in s.sections
    ensures CanLoseToken(start)
  {
    hide Leads, Joinable;
    var q, s1 := Listen(start, s, name, u, e);
    var d, t, s2 := Dial(start, s1, name, u, e, q);
    var s3 := Leave(start, s2, name, u, e, q);
    hide Listens;
    var x := Q.Appended(s3.queues.queues[q], t);
    var s4 := s3.(queues := Issued(s3.queues, t).(queues := s3.queues.queues[q := x]), sections := s3.sections[d := Over]);
    assert SentToClosed(s3, d, t, q, s4);
  }

  lemma Meeting(s: State, u: User, e: L.Entry, name: string)
    requires GrainInv(s) && L.At(s.locks, u, L.Loaded(e)) && G.Backed(s.locks, e) && s.locks.users[u].name == name
    requires Vacant(s, name) && Clear(s, name)
    ensures Joinable(s, name, e) && s.locks.refs[e] == 1 && e !in s.locks.owner && u !in s.sections
  {
    var c := G.Coarse(s.locks);
    G.BackedIsKnown(s.locks, e);
    CoarseKeepsLocal(s, u);
    assert L.UserInv(c, u, c.users[u]);
    FreeWhenVacant(s, name, e);
    if name in s.locks.table {
      assert c.table[name] in c.refs && c.table[name].name == name;
      FreeWhenVacant(s, name, s.locks.table[name]);
    }
    forall v | v in s.sections ensures v in s.locks.users { SectionOf(s, v); }
    if u in s.sections { SectionOf(s, u); }
  }

  lemma FreeWhenVacant(s: State, name: string, f: L.Entry)
    requires GrainInv(s) && Vacant(s, name) && f.name == name
    ensures f !in s.locks.owner
  {
    if f in s.locks.owner {
      var c := G.Coarse(s.locks);
      var v := c.owner[f];
      assert v in c.users && c.users[v].pc == L.Critical(f);
      assert L.UserInv(c, v, c.users[v]);
      CoarseKeepsLocal(s, v);
    }
  }

  /** From every state an orderly run can reach in which an attempt has loaded an entry that another
      one is backing out of, some continuation loses a token. */
  lemma OverlapCanLoseToken(s: State, u: User, e: L.Entry)
    requires GrainInv(s) && L.At(s.locks, u, L.Loaded(e)) && G.Backed(s.locks, e)
    ensures CanLoseToken(s)
  {
    var name := s.locks.users[u].name;
    LeadsToItself(s);
    hide Leads, GrainInv, Vacant, Clear, Joinable, CanLoseToken;
    var s1 := MakeVacant(s, s, name);
    StillMeeting(s, s1, u, e);
    var s2 := MakeClear(s, s1, name);
    StillMeeting(s1, s2, u, e);
    Meeting(s2, u, e, name);
    var s3 := ThenIncrement(s, s2, u, e);
    StillJoinable(s2, s3, name, u, e);
    OrphanLosesToken(s, s3, name, u, e);
  }

  lemma StillMeeting(s: State, s': State, u: User, e: L.Entry)
    requires SameElsewhere(s, s') && L.At(s.locks, u, L.Loaded(e)) && G.Backed(s.locks, e)
    ensures L.At(s'.locks, u, L.Loaded(e)) && G.Backed(s'.locks, e) && s'.locks.users[u] == s.locks.users[u]
  {
    var v :| v in s.locks.users && G.BacksOut(s.locks.users[v], e);
    assert v in s'.locks.users && G.BacksOut(s'.locks.users[v], e);
  }

  lemma StillJoinable(s: State, s': State, name: string, u: User, e: L.Entry)
    requires Joinable(s, name, e) && u in s.locks.users && s.locks.refs[e] == 1
    requires s' == s.(locks := L.Goto(s.locks.(refs := s.locks.refs[e := 2]), u, L.Holding(e)))
    ensures Joinable(s', name, e)
  {
  }

  lemma {:induction false} PathStaysReachable(path: seq<State>, s: State, s': State, i: nat)
    requires IsPath(path, s, s') && FineReachable(s) && i < |path|
    ensures FineReachable(path[i])
  {
    hide FineReachable, FineStep;
    if i > 0 {
      PathStaysReachable(path, s, s', i - 1);
      assert FineStep(path[i - 1], path[i - 1 + 1]);
      Extend(path[i - 1], path[i]);
    }
  }

  /** It does happen, from the very start: with mutexes taken by single atomic operations a dial can
      be told that its token was accepted by a queue closed before. */
  lemma AcceptedByAClosedQueue()
    ensures exists s, d, t, q, s' :: FineReachable(s) && SentToClosed(s, d, t, q, s')
  {
    hide G.FineInv, FineReachable, GrainInv, SentToClosed, G.Backed;
    var e := L.Entry("l", 0);
    var l := G.TwoMeet(e);
    var start := OnlyLocks(l);
    var states :| G.FineRun(states) && states[|states| - 1] == l;
    LocksLift(states, |states| - 1);
    OnlyLocksGrain(l);
    OverlapCanLoseToken(start, 2, e);
    var s, d, t, q, s' :| Leads(start, s) && SentToClosed(s, d, t, q, s');
    var path :| IsPath(path, start, s);
    PathStaysReachable(path, start, s, |path| - 1);
  }
}
