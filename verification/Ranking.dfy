/** How the reconciler picks one exporter among the approved ones: attach the active leases,
    sort, filter, take the head. */
module Ranking {
  import opened Common
  import opened LeaseModel

  // ---------------------------------------------------------------- names

  /** Lexicographic comparison of names: -1, 0 or 1. */
  function CompareNames(a: string, b: string): int {
    if a == [] && b == [] then 0
    else if a == [] then -1
    else if b == [] then 1
    else if a[0] < b[0] then -1
    else if a[0] > b[0] then 1
    else CompareNames(a[1..], b[1..])
  }

  lemma {:induction false} NamesAntisymmetric(a: string, b: string)
    ensures CompareNames(a, b) == -CompareNames(b, a)
    ensures CompareNames(a, b) == 0 <==> a == b
    decreases |a|
  {
    if a != [] && b != [] && a[0] == b[0] {
      NamesAntisymmetric(a[1..], b[1..]);
      assert a == [a[0]] + a[1..] && b == [b[0]] + b[1..];
    }
  }

  /** The names agree up to `k`, where `a` ends first or has the smaller character. */
  predicate AlphabeticalAt(a: string, b: string, k: nat) {
    && k <= |a| && k <= |b| && a[..k] == b[..k]
    && (k == |a| < |b| || (k < |a| && k < |b| && a[k] < b[k]))
  }

  ghost predicate Alphabetical(a: string, b: string) { exists k: nat :: AlphabeticalAt(a, b, k) }

  /** The comparison is the alphabetical order. */
  lemma {:induction false} NamesAlphabetical(a: string, b: string)
    ensures CompareNames(a, b) < 0 <==> Alphabetical(a, b)
    decreases |a|
  {
    if a != [] && b != [] && a[0] == b[0] {
      NamesAlphabetical(a[1..], b[1..]);
      if k: nat :| AlphabeticalAt(a[1..], b[1..], k) {
        assert a[..k + 1] == [a[0]] + a[1..][..k] && b[..k + 1] == [b[0]] + b[1..][..k];
        assert AlphabeticalAt(a, b, k + 1);
      }
      if k: nat :| AlphabeticalAt(a, b, k) {
        assert k > 0;
        assert a[1..][..k - 1] == a[..k][1..] && b[1..][..k - 1] == b[..k][1..];
        assert AlphabeticalAt(a[1..], b[1..], k - 1);
      }
    } else {
      if CompareNames(a, b) < 0 { assert AlphabeticalAt(a, b, 0); }
      FirstDecides(a, b);
    }
  }

  lemma FirstDecides(a: string, b: string)
    requires a == [] || b == [] || a[0] != b[0]
    ensures forall k: nat :: AlphabeticalAt(a, b, k) ==> k == 0
  {
    forall k: nat ensures AlphabeticalAt(a, b, k) ==> k == 0 {
      if 0 < k <= |a| && k <= |b| { assert a[..k][0] != b[..k][0]; }
    }
  }

  lemma {:induction false} NamesTransitive(a: string, b: string, c: string)
    requires CompareNames(a, b) <= 0 && CompareNames(b, c) <= 0
    ensures CompareNames(a, c) <= 0
    decreases |a|
  {
    if a != [] && b != [] && c != [] && a[0] == b[0] == c[0] {
      NamesTransitive(a[1..], b[1..], c[1..]);
    }
  }

  // ---------------------------------------------------------------- the comparator

  const TWO63 := 0x8000_0000_0000_0000

  /** Subtraction of 64-bit integers wraps around. */
  function Subtract(a: int, b: int): int { (a - b + TWO63) % (2 * TWO63) - TWO63 }

  predicate Leased(a: Approved) { a.existing.Some? }

  function Compare(a: Approved, b: Approved): int {
    if Leased(a) && !Leased(b) then 1
    else if !Leased(a) && Leased(b) then -1
    else if a.rule.spot != b.rule.spot then (if a.rule.spot then 1 else -1)
    else if a.rule.priority != b.rule.priority then Subtract(b.rule.priority, a.rule.priority)
    else CompareNames(a.exporter.name, b.exporter.name)
  }

  /** The intended order: free first, then without spot access, then by falling priority, then
      by name. */
  ghost predicate Before(a: Approved, b: Approved) {
    if Leased(a) != Leased(b) then Leased(b)
    else if a.rule.spot != b.rule.spot then b.rule.spot
    else if a.rule.priority != b.rule.priority then a.rule.priority > b.rule.priority
    else Alphabetical(a.exporter.name, b.exporter.name)
  }

  predicate NoOverflow(a: Approved, b: Approved) {
    -TWO63 <= b.rule.priority - a.rule.priority < TWO63
  }

  predicate IsInt64(v: int) { -TWO63 <= v < TWO63 }

  predicate DecidedByPriority(a: Approved, b: Approved) {
    Leased(a) == Leased(b) && a.rule.spot == b.rule.spot && a.rule.priority != b.rule.priority
  }

  /** The comparator says what is intended exactly when the priorities, if they decide, are
      close enough for their difference not to wrap around. */
  lemma CompareIsIntended(a: Approved, b: Approved)
    requires IsInt64(a.rule.priority) && IsInt64(b.rule.priority)
    ensures ((Compare(a, b) < 0 <==> Before(a, b)) && (Compare(a, b) > 0 <==> Before(b, a)))
            <==> (DecidedByPriority(a, b) ==> NoOverflow(a, b))
  {
    hide Alphabetical;
    NamesAntisymmetric(a.exporter.name, b.exporter.name);
    NamesAlphabetical(a.exporter.name, b.exporter.name);
    NamesAlphabetical(b.exporter.name, a.exporter.name);
    Wraparound(b.rule.priority, a.rule.priority);
  }

  lemma Wraparound(a: int, b: int)
    requires IsInt64(a) && IsInt64(b)
    ensures -TWO63 <= a - b < TWO63 ==> Subtract(a, b) == a - b
    ensures a - b >= TWO63 ==> Subtract(a, b) < 0
    ensures a - b < -TWO63 ==> Subtract(a, b) >= 0
  {
    var d := a - b + TWO63;
    assert d >= 2 * TWO63 ==> d % (2 * TWO63) == d - 2 * TWO63;
    assert d < 0 ==> d % (2 * TWO63) == d + 2 * TWO63;
  }

  /** With extreme priorities the comparator sorts the highest priority behind the lowest. */
  lemma ExtremePrioritiesMisordered(a: Approved, b: Approved)
    requires Leased(a) == Leased(b) && a.rule.spot == b.rule.spot
    requires a.rule.priority == TWO63 - 1 && b.rule.priority == -TWO63
    ensures Before(a, b) && Compare(a, b) > 0
  {
  }

  /** The intended order is a strict weak order: irreflexive, transitive, and incomparability
      means equal exporter name, priority, spot access and lease state. */
  lemma BeforeIsStrictWeakOrder(a: Approved, b: Approved, c: Approved)
    ensures !(Before(a, b) && Before(b, a))
    ensures !Before(b, a) && !Before(c, b) ==> !Before(c, a)
    ensures !Before(a, b) && !Before(b, a) <==> Leased(a) == Leased(b) && Grant(a) == Grant(b)
  {
    hide Alphabetical, CompareNames;
    NamesOrder(a.exporter.name, b.exporter.name);
    NamesOrder(b.exporter.name, c.exporter.name);
    NamesOrder(a.exporter.name, c.exporter.name);
    if CompareNames(a.exporter.name, b.exporter.name) <= 0 && CompareNames(b.exporter.name, c.exporter.name) <= 0 {
      NamesTransitive(a.exporter.name, b.exporter.name, c.exporter.name);
    }
  }

  lemma NamesOrder(x: string, y: string)
    ensures Alphabetical(x, y) <==> CompareNames(x, y) < 0
    ensures Alphabetical(y, x) <==> CompareNames(x, y) > 0
    ensures CompareNames(x, y) == 0 <==> x == y
  {
    NamesAntisymmetric(x, y);
    NamesAlphabetical(x, y);
    NamesAlphabetical(y, x);
  }

  // ---------------------------------------------------------------- attach, sort, filter

  /** The last listed lease that references the exporter; ended leases count while listed. */
  function LastHolder(active: seq<Lease>, name: string): Option<Lease> {
    if active == [] then None
    else if active[|active| - 1].status.exporterRef == Some(name) then Some(active[|active| - 1])
    else LastHolder(active[..|active| - 1], name)
  }

  lemma {:induction false} LastHolderNone(active: seq<Lease>, name: string)
    ensures LastHolder(active, name).None? <==> forall l :: l in active ==> l.status.exporterRef != Some(name)
  {
    if active != [] {
      var n := |active| - 1;
      assert active == active[..n] + [active[n]];
      LastHolderNone(active[..n], name);
    }
  }

  function Attached(a: Approved, active: seq<Lease>): Approved {
    match LastHolder(active, a.exporter.name)
    case None => a
    case Some(l) => a.(existing := Some(l))
  }

  method AttachExistingLeases(exporters: seq<Approved>, active: seq<Lease>) returns (r: seq<Approved>)
    ensures |r| == |exporters|
    ensures forall i :: 0 <= i < |r| ==> r[i] == Attached(exporters[i], active)
  {
    r := exporters;
    for i := 0 to |exporters|
      invariant |r| == |exporters|
      invariant forall k :: 0 <= k < i ==> r[k] == Attached(exporters[k], active)
      invariant forall k :: i <= k < |r| ==> r[k] == exporters[k]
    {
      for j := 0 to |active|
        invariant |r| == |exporters|
        invariant forall k :: 0 <= k < i ==> r[k] == Attached(exporters[k], active)
        invariant forall k :: i < k < |r| ==> r[k] == exporters[k]
        invariant r[i] == Attached(exporters[i], active[..j])
      {
        assert active[..j + 1][..j] == active[..j];
        if active[j].status.exporterRef == Some(exporters[i].exporter.name) {
          r := r[i := r[i].(existing := Some(active[j]))];
        }
      }
      assert active[..|active|] == active;
    }
  }

  predicate Sorted(s: seq<Approved>) { forall i, j :: 0 <= i < j < |s| ==> Compare(s[i], s[j]) <= 0 }

  /** All the standard sort promises: a permutation, in order, stable or not. */
  predicate IsSorting(s: seq<Approved>, r: seq<Approved>) { multiset(r) == multiset(s) && Sorted(r) }

  predicate Comparable(a: Approved, b: Approved) {
    IsInt64(a.rule.priority) && IsInt64(b.rule.priority) && NoOverflow(a, b) && NoOverflow(b, a)
  }

  lemma CompareIsTotalPreorder(a: Approved, b: Approved, c: Approved)
    requires Comparable(a, b) && Comparable(b, c) && Comparable(a, c)
    ensures Compare(a, b) <= 0 || Compare(b, a) <= 0
    ensures Compare(a, b) <= 0 && Compare(b, c) <= 0 ==> Compare(a, c) <= 0
  {
    hide Compare, Before;
    CompareIsIntended(a, b);
    CompareIsIntended(b, a);
    CompareIsIntended(b, c);
    CompareIsIntended(a, c);
    BeforeIsStrictWeakOrder(a, b, c);
  }

  /** The sort call: always a permutation, and sorted when the comparator is consistent. */
  method OrderApproved(s: seq<Approved>) returns (r: seq<Approved>)
    ensures multiset(r) == multiset(s)
    ensures Rankable(s) ==> Sorted(r)
  {
    if !Rankable(s) { return s; }
    hide Compare, Comparable;
    r := [];
    for i := 0 to |s|
      invariant multiset(r) == multiset(s[..i])
      invariant Sorted(r)
    {
      assert s[..i + 1] == s[..i] + [s[i]];
      forall x | x in r ensures x in s { assert x in multiset(s[..i]); }
      r := Insert(r, s[i]);
    }
    assert s[..|s|] == s;
  }

  method Insert(r: seq<Approved>, x: Approved) returns (r': seq<Approved>)
    requires Sorted(r) && Comparable(x, x)
    requires forall y :: y in r ==> Comparable(y, x)
    requires forall y, z :: y in r && z in r ==> Comparable(y, z)
    ensures multiset(r') == multiset(r) + multiset{x} && Sorted(r')
  {
    hide Compare, Comparable;
    var k := 0;
    while k < |r| && Compare(r[k], x) <= 0
      invariant 0 <= k <= |r|
      invariant forall j :: 0 <= j < k ==> Compare(r[j], x) <= 0
    {
      k := k + 1;
    }
    AfterInsertion(r, x, k);
    InsertedIsSorted(r, x, k);
    r' := r[..k] + [x] + r[k..];
    assert r == r[..k] + r[k..];
  }

  lemma AfterInsertion(r: seq<Approved>, x: Approved, k: nat)
    requires Sorted(r) && Comparable(x, x) && k <= |r| && (k < |r| ==> Compare(r[k], x) > 0)
    requires forall y :: y in r ==> Comparable(y, x)
    requires forall y, z :: y in r && z in r ==> Comparable(y, z)
    ensures forall j :: k <= j < |r| ==> Compare(x, r[j]) <= 0
  {
    hide Compare, NoOverflow;
    forall j | k <= j < |r| ensures Compare(x, r[j]) <= 0 {
      assert r[k] in r && r[j] in r;
      CompareIsTotalPreorder(r[k], x, x);
      if k < j { CompareIsTotalPreorder(x, r[k], r[j]); }
    }
  }

  lemma InsertedIsSorted(r: seq<Approved>, x: Approved, k: nat)
    requires Sorted(r) && k <= |r|
    requires forall i :: 0 <= i < k ==> Compare(r[i], x) <= 0
    requires forall i :: k <= i < |r| ==> Compare(x, r[i]) <= 0
    ensures Sorted(r[..k] + [x] + r[k..])
  {
    hide Compare;
    var r' := r[..k] + [x] + r[k..];
    forall i, j | 0 <= i < j < |r'| ensures Compare(r'[i], r'[j]) <= 0 {
      assert r'[i] == if i < k then r[i] else if i == k then x else r[i - 1];
      assert r'[j] == if j < k then r[j] else if j == k then x else r[j - 1];
    }
  }

  function Filter(s: seq<Approved>, keep: Approved -> bool): seq<Approved> {
    if s == [] then [] else (if keep(s[0]) then [s[0]] else []) + Filter(s[1..], keep)
  }

  /** Filtering keeps the order: its head is the first element kept. */
  lemma {:induction false} FilterHead(s: seq<Approved>, keep: Approved -> bool) returns (i: int)
    ensures Filter(s, keep) == [] <==> i == |s|
    ensures 0 <= i <= |s| && forall j :: 0 <= j < i ==> !keep(s[j])
    ensures i < |s| ==> keep(s[i]) && Filter(s, keep)[0] == s[i]
  {
    if s == [] || keep(s[0]) {
      i := 0;
    } else {
      var k := FilterHead(s[1..], keep);
      i := k + 1;
      assert forall j :: 1 <= j < i ==> s[j] == s[1..][j - 1];
    }
  }

  // ---------------------------------------------------------------- the choice

  /** What an assignment copies into the lease's status. */
  datatype Granted = Granted(exporter: string, priority: int, spot: bool)

  function Grant(a: Approved): Granted { Granted(a.exporter.name, a.rule.priority, a.rule.spot) }

  datatype Choice = SpotOnly | NotAvailable | NotReady | Assigned(grant: Granted)

  /** Not filtered out as taken: free, or leased under spot access while ours is not spot. */
  predicate Takeable(a: Approved) {
    a.existing.None? || (!a.rule.spot && a.existing.value.status.spot)
  }

  predicate Ready(a: Approved) { ReadyForLease(a.exporter) }

  predicate TakeableAndReady(a: Approved) { Takeable(a) && Ready(a) }

  lemma {:induction false} FilterFilter(s: seq<Approved>)
    ensures Filter(Filter(s, Takeable), Ready) == Filter(s, TakeableAndReady)
  {
    if s != [] {
      FilterFilter(s[1..]);
      var rest := Filter(s[1..], Takeable);
      if Takeable(s[0]) {
        var kept := [s[0]] + rest;
        assert Filter(s, Takeable) == kept && kept[0] == s[0] && kept[1..] == rest;
      } else {
        assert Filter(s, Takeable) == rest;
      }
    }
  }

  function Choose(ordered: seq<Approved>): Choice {
    if ordered != [] && ordered[0].rule.spot then SpotOnly
    else
      var available := Filter(ordered, Takeable);
      if available == [] then NotAvailable
      else
        var ready := Filter(available, Ready);
        if ready == [] then NotReady
        else if ready[0].existing.Some? then NotAvailable
        else Assigned(Grant(ready[0]))
  }

  /** Referenced by no listed lease, and its exporter available or silent about its state. */
  predicate Candidate(a: Approved) {
    a.existing.None? && (a.exporter.state.Available? || a.exporter.state.Unspecified? || a.exporter.state.Unset?)
  }

  ghost predicate Least(a: Approved, s: seq<Approved>, among: Approved -> bool) {
    a in s && among(a) && forall b :: b in s && among(b) ==> !Before(b, a)
  }

  /** Priorities are 64-bit, and close enough together for the comparator to subtract them. */
  predicate Rankable(s: seq<Approved>) { forall x, y :: x in s && y in s ==> Comparable(x, y) }

  lemma SortedIsIntended(s: seq<Approved>, i: int, j: int)
    requires Rankable(s) && Sorted(s) && 0 <= i <= j < |s|
    ensures !Before(s[j], s[i])
  {
    assert Comparable(s[i], s[j]);
    if i < j { CompareIsIntended(s[i], s[j]); } else { BeforeIsStrictWeakOrder(s[i], s[i], s[i]); }
  }

  lemma RankableIsSortable(s: seq<Approved>, r: seq<Approved>)
    requires Rankable(s) && multiset(r) == multiset(s)
    ensures Rankable(r) && forall x :: x in r <==> x in s
  {
    assert forall x :: x in r <==> x in multiset(r);
    assert forall x :: x in s <==> x in multiset(s);
  }

  predicate Any(a: Approved) { true }

  /** The guard that rejects spot access looks only at the very first entry. */
  ghost predicate SpotFirst(s: seq<Approved>) { exists a :: Least(a, s, Any) && a.rule.spot }

  /** The whole choice, in terms of the approved online entries alone. For every listing and
      every sort the library may produce: spot-only exactly when the least entry is spot;
      otherwise an assignment exactly when some entry is free and ready, and then of the least
      such entry. */
  lemma ChoiceIsLeast(s: seq<Approved>, ordered: seq<Approved>)
    requires Rankable(s) && IsSorting(s, ordered)
    ensures Choose(ordered).SpotOnly? <==> SpotFirst(s)
    ensures Choose(ordered).Assigned? <==> !SpotFirst(s) && exists a :: a in s && Candidate(a)
    ensures Choose(ordered).Assigned? ==>
              exists a :: Least(a, s, Candidate) && Choose(ordered) == Assigned(Grant(a))
  {
    RankableIsSortable(s, ordered);
    SpotFirstIsHead(s, ordered);
    if !SpotFirst(s) {
      ReadyHead(s, ordered);
    }
  }

  lemma SpotFirstIsHead(s: seq<Approved>, ordered: seq<Approved>)
    requires Rankable(s) && IsSorting(s, ordered)
    ensures SpotFirst(s) <==> ordered != [] && ordered[0].rule.spot
  {
    RankableIsSortable(s, ordered);
    if ordered != [] {
      var h := ordered[0];
      forall b | b in s ensures !Before(b, h) {
        var j :| 0 <= j < |ordered| && ordered[j] == b;
        SortedIsIntended(ordered, 0, j);
      }
      assert Least(h, s, Any);
      if SpotFirst(s) {
        var a :| Least(a, s, Any) && a.rule.spot;
        BeforeIsStrictWeakOrder(a, h, h);
      }
    }
  }

  /** The head of the two filters is free and least, if any entry is free and ready. */
  lemma ReadyHead(s: seq<Approved>, ordered: seq<Approved>)
    requires Rankable(s) && IsSorting(s, ordered) && !(ordered != [] && ordered[0].rule.spot)
    ensures Choose(ordered).Assigned? <==> exists a :: a in s && Candidate(a)
    ensures Choose(ordered).Assigned? ==> exists a :: Least(a, s, Candidate) && Choose(ordered) == Assigned(Grant(a))
  {
    RankableIsSortable(s, ordered);
    FilterFilter(ordered);

    var i := FilterHead(ordered, TakeableAndReady);
    var _ := FilterHead(ordered, Takeable);
    if exists a :: a in s && Candidate(a) {
      var a :| a in s && Candidate(a);
      var j :| 0 <= j < |ordered| && ordered[j] == a;
      assert TakeableAndReady(ordered[j]);
      assert i <= j;
      SortedIsIntended(ordered, i, j);
      assert !Leased(ordered[i]);
      FilterNonempty(ordered, Takeable, i);
      forall b | b in s && Candidate(b) ensures !Before(b, ordered[i]) {
        var k :| 0 <= k < |ordered| && ordered[k] == b;
        assert TakeableAndReady(ordered[k]);
        SortedIsIntended(ordered, i, k);
      }
      assert ordered[i] in s && Least(ordered[i], s, Candidate);
    } else if i < |ordered| {
      assert ordered[i] in s;
    }
  }

  lemma FilterNonempty(s: seq<Approved>, keep: Approved -> bool, i: int)
    requires 0 <= i < |s| && keep(s[i])
    ensures Filter(s, keep) != []
  {
    var _ := FilterHead(s, keep);
  }

  /** Neither the listing order nor the sort's treatment of ties can change who is assigned. */
  lemma ChoiceIsOrderIndependent(s: seq<Approved>, r: seq<Approved>, sOrdered: seq<Approved>, rOrdered: seq<Approved>)
    requires Rankable(s) && multiset(r) == multiset(s)
    requires IsSorting(s, sOrdered) && IsSorting(r, rOrdered)
    ensures Choose(sOrdered).Assigned? == Choose(rOrdered).Assigned?
    ensures Choose(sOrdered).SpotOnly? == Choose(rOrdered).SpotOnly?
    ensures Choose(sOrdered).Assigned? ==> Choose(sOrdered) == Choose(rOrdered)
  {
    ChoiceIsLeast(s, sOrdered);
    ChoiceIsLeast(s, rOrdered);
    if Choose(sOrdered).Assigned? {
      var a :| Least(a, s, Candidate) && Choose(sOrdered) == Assigned(Grant(a));
      var b :| Least(b, s, Candidate) && Choose(rOrdered) == Assigned(Grant(b));
      BeforeIsStrictWeakOrder(a, b, b);
    }
  }

  /** A lease is granted under spot access exactly when every free and ready entry is spot but
      some free entry without spot access, not ready, hides that from the guard. */
  lemma SpotGrant(s: seq<Approved>, ordered: seq<Approved>)
    requires Rankable(s) && IsSorting(s, ordered)
    ensures Choose(ordered).Assigned? && Choose(ordered).grant.spot <==>
            && (exists a :: a in s && Candidate(a))
            && (forall a :: a in s && Candidate(a) ==> a.rule.spot)
            && (exists a :: a in s && a.existing.None? && !a.rule.spot)
  {
    ChoiceIsLeast(s, ordered);
    SpotFirstIsHead(s, ordered);
    RankableIsSortable(s, ordered);
    if exists a :: a in s && Candidate(a) {
      var a :| a in s && Candidate(a);
      var h := ordered[0];
      var i :| 0 <= i < |ordered| && ordered[i] == a;
      SortedIsIntended(ordered, 0, i);
      if exists b :: b in s && b.existing.None? && !b.rule.spot {
        var b :| b in s && b.existing.None? && !b.rule.spot;
        var j :| 0 <= j < |ordered| && ordered[j] == b;
        SortedIsIntended(ordered, 0, j);
      }
    }
  }

  /** It does happen: the exporter without spot access is still cleaning up, the spot one is free. */
  lemma SpotGrantHappens(a: Exporter, b: Exporter)
    requires a.state.AfterLeaseHook? && b.state.Available?
    ensures var s := [Approved(a, None, Rule("", 0, [], None, false)), Approved(b, None, Rule("", 0, [], None, true))];
            Rankable(s) && IsSorting(s, s) && Choose(s) == Assigned(Granted(b.name, 0, true))
  {
    var x, y := Approved(a, None, Rule("", 0, [], None, false)), Approved(b, None, Rule("", 0, [], None, true));
    var s := [x, y];
    FilterFilter(s);
    assert s[1..] == [y] && Takeable(x) && !TakeableAndReady(x) && TakeableAndReady(y);
    assert Filter(s, Takeable) == [x] + Filter([y], Takeable);
    assert Filter(s, TakeableAndReady) == [] + Filter([y], TakeableAndReady);
    assert Filter([y], TakeableAndReady) == [y] + Filter([y][1..], TakeableAndReady);
  }

  /** Free, or leased under spot access and wanted without. */
  predicate Obtainable(a: Approved) {
    match a.existing
    case None => true
    case Some(l) => l.status.spot && !a.rule.spot
  }

  /** Why nothing is assigned: nothing can be had, or what can be had is not ready, or the first that
      is would have to be taken from a spot lease. */
  lemma PendingFor(s: seq<Approved>, ordered: seq<Approved>)
    requires Rankable(s) && IsSorting(s, ordered)
    ensures Choose(ordered).NotReady? <==>
            && !SpotFirst(s) && (exists a :: a in s && Obtainable(a))
            && forall a :: a in s && Obtainable(a) ==> !ReadyForLease(a.exporter)
    ensures Choose(ordered).NotAvailable? <==>
            && !SpotFirst(s) && !(exists a :: a in s && Candidate(a))
            && ((exists a :: a in s && Obtainable(a)) ==> exists a :: a in s && Obtainable(a) && ReadyForLease(a.exporter))
  {
    RankableIsSortable(s, ordered);
    SpotFirstIsHead(s, ordered);
    ChoiceIsLeast(s, ordered);
    hide SpotFirst, Candidate, Rankable, Sorted;
    FilterFilter(ordered);
    var i := FilterHead(ordered, Takeable);
    var j := FilterHead(ordered, TakeableAndReady);
    assert forall a :: Obtainable(a) == Takeable(a);
    if i < |ordered| { assert ordered[i] in s; }
    if j < |ordered| { assert ordered[j] in s; }
    assert forall a :: a in s ==> exists k :: 0 <= k < |ordered| && ordered[k] == a;
    assert (exists a :: a in s && Obtainable(a)) <==> i < |ordered|;
    assert (exists a :: a in s && Obtainable(a) && ReadyForLease(a.exporter)) <==> j < |ordered|;
  }

  /** Whatever order the entries come in, only a free and ready one is ever assigned. */
  lemma ChoiceIsFree(ordered: seq<Approved>) returns (i: int)
    requires Choose(ordered).Assigned?
    ensures 0 <= i < |ordered| && Candidate(ordered[i]) && Choose(ordered).grant == Grant(ordered[i])
  {
    FilterFilter(ordered);
    i := FilterHead(ordered, TakeableAndReady);
  }
}
