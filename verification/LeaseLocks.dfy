/** The reference-counted per-lease mutexes of the controller service, as a state machine over
    the atomic operations of any number of goroutines. Loading the map entry, bumping its
    count, locking, unlocking, loading it again for release, decrementing and the final
    compare-and-delete are separate steps; the bump, its test and the back-out of a failed
    attempt are one. */
module LeaseLocks {

  /** A lock object: created for one lease name, told apart from others by its address. */
  datatype Entry = Entry(name: string, address: nat)

  type User = nat

  /** Where one acquisition stands. */
  datatype Pc =
    | Start                       // about to load or store
    | Loaded(e: Entry)            // loaded an existing entry, count not yet bumped
    | Holding(e: Entry)
    | Critical(e: Entry)          // has locked the entry's mutex
    | Releasing(e: Entry)         // loaded the entry to release, count not yet decremented
    | Deleting(e: Entry)          // brought the count to zero, about to compare and delete
    | BackingOut(e: Entry)        // only in the finer machine: bumped a dying entry
    | Finished

  datatype Local = Local(name: string, pc: Pc)

  datatype State = State(
    table: map<string, Entry>, refs: map<Entry, int>, owner: map<Entry, User>, users: map<User, Local>)

  /** `Load` and `Store` are the two outcomes of one load-or-store. */
  datatype Step =
    | Begin(name: string) | Load | Store(e: Entry) | Bump(e: Entry) | Lock(e: Entry) | Unlock(e: Entry)
    | LoadForRelease(e: Entry) | Decrement(e: Entry) | CompareAndDelete(e: Entry)

  predicate Init(s: State) { s == State(map[], map[], map[], map[]) }

  function Goto(s: State, u: User, pc: Pc): State
    requires u in s.users
  {
    s.(users := s.users[u := s.users[u].(pc := pc)])
  }

  /** The goroutine `u` is at `pc`; the shared maps may change, and it moves on. */
  predicate At(s: State, u: User, pc: Pc) { u in s.users && s.users[u].pc == pc }

  predicate DoLoad(s: State, u: User, s': State) {
    At(s, u, Start) && s.users[u].name in s.table && s' == Goto(s, u, Loaded(s.table[s.users[u].name]))
  }

  predicate DoStore(s: State, u: User, e: Entry, s': State) {
    && At(s, u, Start) && s.users[u].name !in s.table && e.name == s.users[u].name && e !in s.refs
    && s' == Goto(s.(table := s.table[e.name := e], refs := s.refs[e := 1]), u, Holding(e))
  }

  /** The bump, its test and the back-out of a failed attempt. */
  predicate DoBump(s: State, u: User, e: Entry, s': State) {
    && At(s, u, Loaded(e)) && e in s.refs
    && s' == if s.refs[e] + 1 <= 1 then Goto(s, u, Start)
             else Goto(s.(refs := s.refs[e := s.refs[e] + 1]), u, Holding(e))
  }

  predicate DoLock(s: State, u: User, e: Entry, s': State) {
    At(s, u, Holding(e)) && e !in s.owner && s' == Goto(s.(owner := s.owner[e := u]), u, Critical(e))
  }

  predicate DoUnlock(s: State, u: User, e: Entry, s': State) {
    At(s, u, Critical(e)) && s' == Goto(s.(owner := s.owner - {e}), u, Holding(e))
  }

  predicate DoLoadForRelease(s: State, u: User, e: Entry, s': State) {
    && At(s, u, Holding(e))
    && s' == Goto(s, u, if s.users[u].name in s.table then Releasing(s.table[s.users[u].name]) else Finished)
  }

  predicate DoDecrement(s: State, u: User, e: Entry, s': State) {
    && At(s, u, Releasing(e)) && e in s.refs
    && s' == Goto(s.(refs := s.refs[e := s.refs[e] - 1]), u, if s.refs[e] - 1 == 0 then Deleting(e) else Finished)
  }

  predicate DoDelete(s: State, u: User, e: Entry, s': State) {
    && At(s, u, Deleting(e))
    && var name := s.users[u].name;
       s' == Goto(if name in s.table && s.table[name] == e then s.(table := s.table - {name}) else s, u, Finished)
  }

  predicate Next(s: State, u: User, step: Step, s': State) {
    match step
    case Begin(name) => u !in s.users && s' == s.(users := s.users[u := Local(name, Start)])
    case Load => DoLoad(s, u, s')
    case Store(e) => DoStore(s, u, e, s')
    case Bump(e) => DoBump(s, u, e, s')
    case Lock(e) => DoLock(s, u, e, s')
    case Unlock(e) => DoUnlock(s, u, e, s')
    case LoadForRelease(e) => DoLoadForRelease(s, u, e, s')
    case Decrement(e) => DoDecrement(s, u, e, s')
    case CompareAndDelete(e) => DoDelete(s, u, e, s')
  }

  ghost predicate Steps(s: State, s': State) { exists u, step :: Next(s, u, step, s') }

  ghost predicate Run(states: seq<State>) {
    && states != [] && Init(states[0])
    && forall i :: 0 <= i < |states| - 1 ==> Steps(states[i], states[i + 1])
  }

  // ---------------------------------------------------------------- the invariant

  /** The entry a goroutine holds a reference to, from the bump to the decrement. */
  predicate Holds(l: Local, e: Entry) {
    l.pc == Holding(e) || l.pc == Critical(e) || l.pc == Releasing(e)
  }

  ghost function Holders(s: State, e: Entry): set<User> { set u | u in s.users && Holds(s.users[u], e) }

  predicate InTable(s: State, l: Local, e: Entry) { l.name in s.table && s.table[l.name] == e }

  /** What each goroutine can rely on. */
  predicate UserInv(s: State, u: User, l: Local) {
    && !l.pc.BackingOut?
    && (!l.pc.Start? && !l.pc.Finished? ==>
          var e := l.pc.e;
          && e in s.refs && e.name == l.name
          && (Holds(l, e) ==> InTable(s, l, e))
          && (l.pc.Deleting? ==> s.refs[e] == 0 && InTable(s, l, e))
          && (l.pc.Critical? ==> e in s.owner && s.owner[e] == u))
  }

  ghost predicate UsersInv(s: State) { forall u :: u in s.users ==> UserInv(s, u, s.users[u]) }

  ghost predicate CountsExact(s: State) {
    forall e :: e in s.refs ==> s.refs[e] == |Holders(s, e)|
  }

  predicate Deletes(l: Local, e: Entry) { l.pc == Deleting(e) }

  ghost predicate OneDeleter(s: State) {
    forall u, v, e :: u in s.users && v in s.users && Deletes(s.users[u], e) && Deletes(s.users[v], e) ==> u == v
  }

  /** An entry without references stays in the map only while someone is about to delete it. */
  ghost predicate DyingIsDeleted(s: State) {
    forall n :: n in s.table && s.table[n] in s.refs && s.refs[s.table[n]] == 0 ==>
      exists u :: u in s.users && Deletes(s.users[u], s.table[n])
  }

  ghost predicate TableInv(s: State) {
    && (forall n :: n in s.table ==> s.table[n] in s.refs && s.table[n].name == n)
    && (forall e :: e in s.owner ==> s.owner[e] in s.users && s.users[s.owner[e]].pc == Critical(e))
  }

  ghost predicate Inv(s: State) {
    UsersInv(s) && CountsExact(s) && OneDeleter(s) && DyingIsDeleted(s) && TableInv(s)
  }

  // One goroutine moves; the holders of each entry change by at most that goroutine.

  function Change(before: bool, after: bool): int { (if after then 1 else 0) - (if before then 1 else 0) }

  lemma CountAfter(s: State, s': State, u: User, l: Local, e: Entry)
    requires u in s.users && s'.users == s.users[u := l]
    ensures |Holders(s', e)| == |Holders(s, e)| + Change(Holds(s.users[u], e), Holds(l, e))
  {
    assert Holders(s', e) == if Holds(l, e) then Holders(s, e) + {u} else Holders(s, e) - {u};
    assert u in Holders(s, e) <==> Holds(s.users[u], e);
  }

  /** Nobody gains or loses a reference. */
  lemma CountsSame(s: State, s': State, u: User, l: Local)
    requires CountsExact(s) && u in s.users && s'.users == s.users[u := l] && s'.refs == s.refs
    requires forall e :: Holds(s.users[u], e) <==> Holds(l, e)
    ensures CountsExact(s')
  {
    hide Holders, Holds;
    forall e | e in s'.refs ensures s'.refs[e] == |Holders(s', e)| { CountAfter(s, s', u, l, e); }
  }

  /** `u` gains a reference to `x`, or loses one. */
  lemma CountsMoved(s: State, s': State, u: User, l: Local, x: Entry, delta: int)
    requires UsersInv(s) && CountsExact(s) && u in s.users && s'.users == s.users[u := l]
    requires s'.refs == s.refs[x := (if x in s.refs then s.refs[x] else 0) + delta]
    requires delta == Change(Holds(s.users[u], x), Holds(l, x))
    requires forall e :: e != x ==> !Holds(s.users[u], e) && !Holds(l, e)
    ensures CountsExact(s')
  {
    hide UserInv, Holders, Holds;
    forall e | e in s'.refs ensures s'.refs[e] == |Holders(s', e)| {
      CountAfter(s, s', u, l, e);
      if e !in s.refs { NoHolderOfNewEntry(s, e); }
    }
  }

  /** A goroutine that neither deletes nor starts deleting moves, and no entry starts dying. */
  lemma DeletersSame(s: State, s': State, u: User, l: Local)
    requires OneDeleter(s) && DyingIsDeleted(s) && s'.users == s.users[u := l]
    requires u in s.users ==> !s.users[u].pc.Deleting?
    requires !l.pc.Deleting?
    requires forall n :: n in s'.table && s'.table[n] in s'.refs && s'.refs[s'.table[n]] == 0 ==>
               n in s.table && s.table[n] == s'.table[n] && s.table[n] in s.refs && s.refs[s.table[n]] == 0
    ensures OneDeleter(s') && DyingIsDeleted(s')
  {
    forall n | n in s'.table && s'.table[n] in s'.refs && s'.refs[s'.table[n]] == 0
      ensures exists v :: v in s'.users && Deletes(s'.users[v], s'.table[n])
    {
      var v :| v in s.users && Deletes(s.users[v], s.table[n]);
      assert v in s'.users && Deletes(s'.users[v], s'.table[n]);
    }
  }

  lemma NoHolderOfNewEntry(s: State, e: Entry)
    requires UsersInv(s) && e !in s.refs
    ensures |Holders(s, e)| == 0
  {
    forall u | u in s.users ensures !Holds(s.users[u], e) { assert UserInv(s, u, s.users[u]); }
    assert Holders(s, e) == {};
  }

  /** A positive count means the entry is held; a zero one that it is not. */
  lemma CountMeansHeld(s: State, e: Entry)
    requires CountsExact(s) && e in s.refs
    ensures s.refs[e] >= 0
    ensures s.refs[e] > 0 <==> exists u :: u in s.users && Holds(s.users[u], e)
  {
    if s.refs[e] > 0 {
      assert Holders(s, e) != {};
      var u :| u in Holders(s, e);
    }
    if u :| u in s.users && Holds(s.users[u], e) {
      assert u in Holders(s, e);
    }
  }

  /** An entry with references is the one the map holds for its name. */
  lemma ReferencedIsInTable(s: State, e: Entry)
    requires Inv(s) && e in s.refs && s.refs[e] > 0
    ensures e.name in s.table && s.table[e.name] == e
  {
    CountMeansHeld(s, e);
    var u :| u in s.users && Holds(s.users[u], e);
    assert UserInv(s, u, s.users[u]);
  }

  lemma BeginKeeps(s: State, u: User, name: string, s': State)
    requires Inv(s) && u !in s.users && s' == s.(users := s.users[u := Local(name, Start)])
    ensures Inv(s')
  {
    DeletersSame(s, s', u, s'.users[u]);
    forall e | e in s'.refs ensures s'.refs[e] == |Holders(s', e)| {
      assert Holders(s', e) == Holders(s, e);
    }
    OthersKeep(s, s', u);
  }

  /** The other goroutines keep what they rely on as long as the shared maps still grant it. */
  lemma OthersKeep(s: State, s': State, u: User)
    requires UsersInv(s) && u in s'.users && s'.users == s.users[u := s'.users[u]] && UserInv(s', u, s'.users[u])
    requires forall v :: v in s.users && v != u ==> UserInv(s, v, s.users[v]) ==> UserInv(s', v, s.users[v])
    ensures UsersInv(s')
  {
    forall v | v in s'.users ensures UserInv(s', v, s'.users[v]) {
      if v != u { assert UserInv(s, v, s.users[v]); }
    }
  }

  /** Steps that change nothing shared. */
  lemma LocalKeeps(s: State, u: User, pc: Pc, s': State)
    requires Inv(s) && u in s.users && s' == Goto(s, u, pc) && UserInv(s, u, s.users[u].(pc := pc))
    requires !pc.Deleting? && !s.users[u].pc.Deleting? && !s.users[u].pc.Critical?
    requires forall e :: Holds(s.users[u], e) <==> Holds(s.users[u].(pc := pc), e)
    ensures Inv(s')
  {
    hide CountsExact, OneDeleter, DyingIsDeleted, Holders;
    CountsSame(s, s', u, s'.users[u]);
    DeletersSame(s, s', u, s'.users[u]);
    OthersKeep(s, s', u);
  }

  lemma StoreKeeps(s: State, u: User, e: Entry, s': State)
    requires Inv(s) && DoStore(s, u, e, s')
    ensures Inv(s')
  {
    hide CountsExact, OneDeleter, DyingIsDeleted, Holders;
    CountsMoved(s, s', u, s'.users[u], e, 1);
    DeletersSame(s, s', u, s'.users[u]);
    OthersKeep(s, s', u);
  }

  lemma BumpKeeps(s: State, u: User, e: Entry, s': State)
    requires Inv(s) && DoBump(s, u, e, s') && s.refs[e] + 1 > 1
    ensures Inv(s')
  {
    hide CountsExact, OneDeleter, DyingIsDeleted, Holders;
    assert UserInv(s, u, s.users[u]);
    ReferencedIsInTable(s, e);
    CountsMoved(s, s', u, s'.users[u], e, 1);
    DeletersSame(s, s', u, s'.users[u]);
    OthersKeep(s, s', u);
  }

  lemma LockKeeps(s: State, u: User, e: Entry, s': State)
    requires Inv(s) && DoLock(s, u, e, s')
    ensures Inv(s')
  {
    hide CountsExact, OneDeleter, DyingIsDeleted, Holders;
    assert UserInv(s, u, s.users[u]);
    CountsSame(s, s', u, s'.users[u]);
    DeletersSame(s, s', u, s'.users[u]);
    OthersKeep(s, s', u);
  }

  lemma UnlockKeeps(s: State, u: User, e: Entry, s': State)
    requires Inv(s) && DoUnlock(s, u, e, s')
    ensures Inv(s')
  {
    hide CountsExact, OneDeleter, DyingIsDeleted, Holders;
    assert UserInv(s, u, s.users[u]);
    CountsSame(s, s', u, s'.users[u]);
    DeletersSame(s, s', u, s'.users[u]);
    OthersKeep(s, s', u);
  }

  lemma DecrementKeeps(s: State, u: User, e: Entry, s': State)
    requires Inv(s) && DoDecrement(s, u, e, s')
    ensures Inv(s')
  {
    hide Holders;
    assert UserInv(s, u, s.users[u]) && Holds(s.users[u], e);
    CountMeansHeld(s, e);
    CountsMoved(s, s', u, s'.users[u], e, -1);
    hide CountsExact;
    OthersKeep(s, s', u);
    DecrementDeleters(s, u, e, s');
  }

  lemma DecrementDeleters(s: State, u: User, e: Entry, s': State)
    requires UsersInv(s) && OneDeleter(s) && DyingIsDeleted(s) && DoDecrement(s, u, e, s') && s.refs[e] > 0
    ensures OneDeleter(s') && DyingIsDeleted(s')
  {
    forall v | v in s.users ensures !Deletes(s.users[v], e) { assert UserInv(s, v, s.users[v]); }
    hide UsersInv, UserInv;
    forall n | n in s'.table && s'.table[n] in s'.refs && s'.refs[s'.table[n]] == 0
      ensures exists v :: v in s'.users && Deletes(s'.users[v], s'.table[n])
    {
      if s.table[n] == e {
        assert Deletes(s'.users[u], e);
      } else {
        var v :| v in s.users && Deletes(s.users[v], s.table[n]);
        assert v in s'.users && Deletes(s'.users[v], s'.table[n]);
      }
    }
  }

  lemma DeleteKeeps(s: State, u: User, e: Entry, s': State)
    requires Inv(s) && DoDelete(s, u, e, s')
    ensures Inv(s')
  {
    hide Holders;
    assert UserInv(s, u, s.users[u]);
    CountMeansHeld(s, e);
    CountsSame(s, s', u, s'.users[u]);
    hide CountsExact;
    assert forall v :: v in s.users && v != u ==> !Deletes(s.users[v], e);
    OthersKeep(s, s', u);
    DeleteDeleters(s, u, e, s');
  }

  lemma DeleteDeleters(s: State, u: User, e: Entry, s': State)
    requires OneDeleter(s) && DyingIsDeleted(s) && TableInv(s) && DoDelete(s, u, e, s') && InTable(s, s.users[u], e)
    ensures OneDeleter(s') && DyingIsDeleted(s')
  {
    forall n | n in s'.table && s'.table[n] in s'.refs && s'.refs[s'.table[n]] == 0
      ensures exists v :: v in s'.users && Deletes(s'.users[v], s'.table[n])
    {
      var v :| v in s.users && Deletes(s.users[v], s.table[n]);
      assert v in s'.users && Deletes(s'.users[v], s'.table[n]);
    }
  }

  /** Every step of every goroutine keeps the invariant. */
  lemma InvKept(s: State, u: User, step: Step, s': State)
    requires Inv(s) && Next(s, u, step, s')
    ensures Inv(s')
  {
    hide CountsExact, OneDeleter, DyingIsDeleted, Holders;
    match step
    case Begin(name) => BeginKeeps(s, u, name, s');
    case Load => LocalKeeps(s, u, Loaded(s.table[s.users[u].name]), s');
    case Store(e) => StoreKeeps(s, u, e, s');
    case Bump(e) => if s.refs[e] + 1 <= 1 { LocalKeeps(s, u, Start, s'); } else { BumpKeeps(s, u, e, s'); }
    case Lock(e) => LockKeeps(s, u, e, s');
    case Unlock(e) => UnlockKeeps(s, u, e, s');
    case LoadForRelease(e) =>
      assert UserInv(s, u, s.users[u]);
      LocalKeeps(s, u, Releasing(e), s');
    case Decrement(e) => DecrementKeeps(s, u, e, s');
    case CompareAndDelete(e) => DeleteKeeps(s, u, e, s');
  }

  lemma {:induction false} RunInv(states: seq<State>, i: nat)
    requires Run(states) && i < |states|
    ensures Inv(states[i])
  {
    if i > 0 {
      RunInv(states, i - 1);
      assert Steps(states[i - 1], states[i - 1 + 1]);
      var u, step :| Next(states[i - 1], u, step, states[i]);
      InvKept(states[i - 1], u, step, states[i]);
    }
  }

  // ---------------------------------------------------------------- main results

  /** In every interleaving: an entry's count is its number of holders. */
  lemma CountIsHolders(states: seq<State>, i: nat, e: Entry)
    requires Run(states) && i < |states| && e in states[i].refs
    ensures states[i].refs[e] == |Holders(states[i], e)|
  {
    RunInv(states, i);
  }

  /** In every interleaving: all holders for one lease share the one mutex in the map. */
  lemma HoldersShareMutex(states: seq<State>, i: nat, u: User, v: User, e: Entry, f: Entry)
    requires Run(states) && i < |states| && u in states[i].users && v in states[i].users
    requires states[i].users[u].name == states[i].users[v].name
    requires Holds(states[i].users[u], e) && Holds(states[i].users[v], f)
    ensures e == f && InTable(states[i], states[i].users[u], e)
  {
    RunInv(states, i);
    var s := states[i];
    assert UserInv(s, u, s.users[u]) && UserInv(s, v, s.users[v]);
  }

  /** In every interleaving: at most one goroutine per lease is in its critical section. */
  lemma MutualExclusion(states: seq<State>, i: nat, u: User, v: User)
    requires Run(states) && i < |states| && u in states[i].users && v in states[i].users
    requires states[i].users[u].name == states[i].users[v].name
    requires states[i].users[u].pc.Critical? && states[i].users[v].pc.Critical?
    ensures u == v
  {
    RunInv(states, i);
    var s := states[i];
    assert UserInv(s, u, s.users[u]) && UserInv(s, v, s.users[v]);
  }

  lemma ZeroStays(s: State, u: User, step: Step, s': State, e: Entry)
    requires Inv(s) && Next(s, u, step, s') && e in s.refs && s.refs[e] == 0
    ensures e in s'.refs && s'.refs[e] == 0
  {
    CountMeansHeld(s, e);
  }

  /** In every interleaving: an entry whose count reached zero is never held again. */
  lemma {:induction false} NeverHeldAgain(states: seq<State>, i: nat, j: nat, e: Entry, u: User)
    requires Run(states) && i <= j < |states| && e in states[i].refs && states[i].refs[e] == 0
    ensures e in states[j].refs && states[j].refs[e] == 0
    ensures u in states[j].users ==> !Holds(states[j].users[u], e)
    decreases j
  {
    hide Next, Holds, UsersInv, OneDeleter, DyingIsDeleted, TableInv, CountsExact;
    RunInv(states, j);
    if i < j {
      NeverHeldAgain(states, i, j - 1, e, u);
      RunInv(states, j - 1);
      assert Steps(states[j - 1], states[j - 1 + 1]);
      var v, step :| Next(states[j - 1], v, step, states[j]);
      ZeroStays(states[j - 1], v, step, states[j], e);
    }
    CountMeansHeld(states[j], e);
  }

  /** A failed attempt is never stuck: the entry it met has left the map, or one goroutine is
      about to take it out. */
  lemma RetryMakesProgress(states: seq<State>, i: nat, u: User, e: Entry)
    requires Run(states) && i < |states| && At(states[i], u, Loaded(e))
    ensures e in states[i].refs
    ensures states[i].refs[e] <= 0 && InTable(states[i], states[i].users[u], e) ==>
              exists v :: v in states[i].users && Deletes(states[i].users[v], e)
  {
    RunInv(states, i);
    assert UserInv(states[i], u, states[i].users[u]);
    CountMeansHeld(states[i], e);
  }
}
