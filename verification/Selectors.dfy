/** Label selectors: what a parsed requirement list means, what the Kubernetes
    `matchLabels`/`matchExpressions` form means, and the conversion between the two. */
module Selectors {
  import opened Common

  type Labels = map<string, string>

  datatype Operator =
    Equals | DoubleEquals | NotEquals | In | NotIn | Exists | DoesNotExist | GreaterThan | LessThan

  /** One requirement as the label parser hands it over. */
  datatype Requirement = Requirement(key: string, op: Operator, values: seq<string>)

  /** The operators a match expression may carry. */
  datatype MatchOperator = OpIn | OpNotIn | OpExists | OpDoesNotExist

  datatype Expression = Expression(key: string, op: MatchOperator, values: seq<string>)

  datatype Selector = Selector(matchLabels: map<string, string>, matchExpressions: seq<Expression>)

  // ---------------------------------------------------------------- meaning

  /** Does a label set meet one requirement? `atoi` reads a label value as a number. */
  predicate Meets(req: Requirement, ls: Labels, atoi: string -> Option<int>) {
    match req.op
    case Equals | DoubleEquals | In => req.key in ls && ls[req.key] in req.values
    case NotEquals | NotIn => req.key !in ls || ls[req.key] !in req.values
    case Exists => req.key in ls
    case DoesNotExist => req.key !in ls
    case GreaterThan =>
      req.key in ls && |req.values| == 1 && atoi(ls[req.key]).Some? && atoi(req.values[0]).Some?
      && atoi(ls[req.key]).value > atoi(req.values[0]).value
    case LessThan =>
      req.key in ls && |req.values| == 1 && atoi(ls[req.key]).Some? && atoi(req.values[0]).Some?
      && atoi(ls[req.key]).value < atoi(req.values[0]).value
  }

  predicate MeetsAll(reqs: seq<Requirement>, ls: Labels, atoi: string -> Option<int>) {
    forall i :: 0 <= i < |reqs| ==> Meets(reqs[i], ls, atoi)
  }

  predicate Satisfies(e: Expression, ls: Labels) {
    match e.op
    case OpIn => e.key in ls && ls[e.key] in e.values
    case OpNotIn => e.key !in ls || ls[e.key] !in e.values
    case OpExists => e.key in ls
    case OpDoesNotExist => e.key !in ls
  }

  predicate LabelsMatch(m: map<string, string>, ls: Labels) {
    forall k :: k in m ==> k in ls && ls[k] == m[k]
  }

  predicate ExpressionsMatch(es: seq<Expression>, ls: Labels) {
    forall i :: 0 <= i < |es| ==> Satisfies(es[i], ls)
  }

  predicate Accepts(sel: Selector, ls: Labels) {
    LabelsMatch(sel.matchLabels, ls) && ExpressionsMatch(sel.matchExpressions, ls)
  }

  /** A selector object Kubernetes can turn into a matcher: value lists where they belong. */
  predicate WellFormed(sel: Selector) {
    forall i :: 0 <= i < |sel.matchExpressions| ==>
      var e := sel.matchExpressions[i];
      (e.op.OpIn? || e.op.OpNotIn?) == (e.values != [])
  }

  /** Some expression lacks the values its operator needs, or has values it cannot have. */
  predicate Malformed(sel: Selector) {
    exists e :: e in sel.matchExpressions && (if e.op in {OpExists, OpDoesNotExist} then |e.values| > 0 else |e.values| == 0)
  }

  lemma WellFormedIs(sel: Selector)
    ensures WellFormed(sel) <==> !Malformed(sel)
  {
    if !WellFormed(sel) {
      var i :| 0 <= i < |sel.matchExpressions|
               && (sel.matchExpressions[i].op.OpIn? || sel.matchExpressions[i].op.OpNotIn?) != (sel.matchExpressions[i].values != []);
      assert sel.matchExpressions[i] in sel.matchExpressions;
    }
  }

  predicate IsEmpty(sel: Selector) { sel == Selector(map[], []) }

  // ---------------------------------------------------------------- conversion

  datatype ConversionError = ConflictingEquality(key: string) | NotEqualsArity | UnsupportedOperator

  datatype Conversion = Converted(selector: Selector) | Rejected(error: ConversionError)

  predicate Unsupported(req: Requirement) {
    req.op.DoubleEquals? || req.op.GreaterThan? || req.op.LessThan?
  }

  predicate BadArity(req: Requirement) { req.op.NotEquals? && |req.values| != 1 }

  predicate IsEquality(req: Requirement, key: string, value: string) {
    req == Requirement(key, Equals, [value])
  }

  /** Two equality requirements that ask the same label for different values. */
  predicate Conflict(a: Requirement, b: Requirement) {
    && a.op.Equals? && b.op.Equals? && a.key == b.key
    && |a.values| == 1 && |b.values| == 1 && a.values[0] != b.values[0]
  }

  predicate HasConflict(reqs: seq<Requirement>) {
    exists i, j :: 0 <= i < j < |reqs| && Conflict(reqs[i], reqs[j])
  }

  predicate Convertible(reqs: seq<Requirement>) {
    && (forall i :: 0 <= i < |reqs| ==> !Unsupported(reqs[i]) && !BadArity(reqs[i]))
    && !HasConflict(reqs)
  }

  /** What the three collections being filled mean so far. */
  predicate Gathered(ml: map<string, string>, es: seq<Expression>, ne: map<string, seq<string>>, ls: Labels) {
    && LabelsMatch(ml, ls)
    && ExpressionsMatch(es, ls)
    && forall k :: k in ne ==> k !in ls || ls[k] !in ne[k]
  }

  /** The equalities folded into `ml` are exactly those of the first requirements. */
  ghost predicate EqualitiesOf(reqs: seq<Requirement>, ml: map<string, string>) {
    && (forall k :: k in ml ==> exists i :: 0 <= i < |reqs| && IsEquality(reqs[i], k, ml[k]))
    && (forall i :: 0 <= i < |reqs| && reqs[i].op.Equals? && |reqs[i].values| == 1 ==>
          reqs[i].key in ml && ml[reqs[i].key] == reqs[i].values[0])
  }

  ghost predicate SameMeaning(reqs: seq<Requirement>, sel: Selector, atoi: string -> Option<int>) {
    forall ls: Labels :: Accepts(sel, ls) <==> MeetsAll(reqs, ls, atoi)
  }

  lemma MeetsAllExtends(reqs: seq<Requirement>, n: nat, ls: Labels, atoi: string -> Option<int>)
    requires n < |reqs|
    ensures MeetsAll(reqs[..n + 1], ls, atoi) <==> MeetsAll(reqs[..n], ls, atoi) && Meets(reqs[n], ls, atoi)
  {
    assert reqs[..n + 1] == reqs[..n] + [reqs[n]];
  }

  lemma ExpressionsExtend(es: seq<Expression>, e: Expression, ls: Labels)
    ensures ExpressionsMatch(es + [e], ls) <==> ExpressionsMatch(es, ls) && Satisfies(e, ls)
  {
    assert (es + [e])[|es|] == e;
    assert forall i :: 0 <= i < |es| ==> (es + [e])[i] == es[i];
  }

  lemma LabelsExtend(ml: map<string, string>, k: string, v: string, ls: Labels)
    requires k in ml ==> ml[k] == v
    ensures LabelsMatch(ml[k := v], ls) <==> LabelsMatch(ml, ls) && k in ls && ls[k] == v
  {
    var bigger := ml[k := v];
    assert k in bigger && bigger[k] == v;
    assert forall j :: j in ml ==> j in bigger && bigger[j] == ml[j];
  }

  lemma ExclusionsExtend(ne: map<string, seq<string>>, k: string, vs: seq<string>, v: string, ls: Labels)
    requires vs == if k in ne then ne[k] else []
    ensures (forall j :: j in ne[k := vs + [v]] ==> j !in ls || ls[j] !in ne[k := vs + [v]][j])
            <==> (forall j :: j in ne ==> j !in ls || ls[j] !in ne[j]) && (k !in ls || ls[k] != v)
  {
    var bigger := ne[k := vs + [v]];
    assert k in bigger && bigger[k] == vs + [v];
    assert forall j :: j in ne && j != k ==> bigger[j] == ne[j];
    if forall j :: j in bigger ==> j !in ls || ls[j] !in bigger[j] {
      assert v in bigger[k];
      forall j | j in ne ensures j !in ls || ls[j] !in ne[j] {
        assert j in bigger;
        if j == k { assert forall x :: x in vs ==> x in bigger[k]; }
      }
    }
  }

  function ToExpression(req: Requirement): Expression
    requires !Unsupported(req) && !req.op.NotEquals?
  {
    match req.op
    case Equals | In => Expression(req.key, OpIn, req.values)
    case NotIn => Expression(req.key, OpNotIn, req.values)
    case Exists => Expression(req.key, OpExists, [])
    case DoesNotExist => Expression(req.key, OpDoesNotExist, [])
  }

  ghost predicate GatheredUpTo(reqs: seq<Requirement>, n: nat, atoi: string -> Option<int>,
                               ml: map<string, string>, es: seq<Expression>, ne: map<string, seq<string>>)
    requires n <= |reqs|
  {
    forall ls: Labels :: Gathered(ml, es, ne, ls) <==> MeetsAll(reqs[..n], ls, atoi)
  }

  // One more requirement, and the collections keep saying what the requirements say.

  lemma GatherEquality(reqs: seq<Requirement>, n: nat, atoi: string -> Option<int>,
                       ml: map<string, string>, es: seq<Expression>, ne: map<string, seq<string>>)
    requires n < |reqs| && GatheredUpTo(reqs, n, atoi, ml, es, ne)
    requires reqs[n].op.Equals? && |reqs[n].values| == 1
    requires reqs[n].key in ml ==> ml[reqs[n].key] == reqs[n].values[0]
    ensures GatheredUpTo(reqs, n + 1, atoi, ml[reqs[n].key := reqs[n].values[0]], es, ne)
  {
    var ml' := ml[reqs[n].key := reqs[n].values[0]];
    forall ls: Labels ensures Gathered(ml', es, ne, ls) <==> MeetsAll(reqs[..n + 1], ls, atoi) {
      LabelsExtend(ml, reqs[n].key, reqs[n].values[0], ls);
      MeetsAllExtends(reqs, n, ls, atoi);
    }
  }

  function Exclude(ne: map<string, seq<string>>, key: string, value: string): map<string, seq<string>> {
    var seen := if key in ne then ne[key] else [];
    if value in seen then ne else ne[key := seen + [value]]
  }

  lemma GatherExclusion(reqs: seq<Requirement>, n: nat, atoi: string -> Option<int>,
                        ml: map<string, string>, es: seq<Expression>, ne: map<string, seq<string>>)
    requires n < |reqs| && GatheredUpTo(reqs, n, atoi, ml, es, ne)
    requires reqs[n].op.NotEquals? && |reqs[n].values| == 1
    ensures GatheredUpTo(reqs, n + 1, atoi, ml, es, Exclude(ne, reqs[n].key, reqs[n].values[0]))
  {
    var key, value := reqs[n].key, reqs[n].values[0];
    var ne' := Exclude(ne, key, value);
    forall ls: Labels ensures Gathered(ml, es, ne', ls) <==> MeetsAll(reqs[..n + 1], ls, atoi) {
      assert reqs[n].values == [value];
      ExclusionsExtend(ne, key, if key in ne then ne[key] else [], value, ls);
      MeetsAllExtends(reqs, n, ls, atoi);
    }
  }

  lemma GatherExpression(reqs: seq<Requirement>, n: nat, atoi: string -> Option<int>,
                         ml: map<string, string>, es: seq<Expression>, ne: map<string, seq<string>>)
    requires n < |reqs| && GatheredUpTo(reqs, n, atoi, ml, es, ne)
    requires !Unsupported(reqs[n]) && !reqs[n].op.NotEquals?
    ensures GatheredUpTo(reqs, n + 1, atoi, ml, es + [ToExpression(reqs[n])], ne)
  {
    var es' := es + [ToExpression(reqs[n])];
    forall ls: Labels ensures Gathered(ml, es', ne, ls) <==> MeetsAll(reqs[..n + 1], ls, atoi) {
      ExpressionsExtend(es, ToExpression(reqs[n]), ls);
      MeetsAllExtends(reqs, n, ls, atoi);
    }
  }

  lemma EqualitiesExtend(reqs: seq<Requirement>, n: nat, ml: map<string, string>)
    requires n < |reqs| && EqualitiesOf(reqs[..n], ml)
    ensures !(reqs[n].op.Equals? && |reqs[n].values| == 1) ==> EqualitiesOf(reqs[..n + 1], ml)
    ensures reqs[n].op.Equals? && |reqs[n].values| == 1
            && (reqs[n].key in ml ==> ml[reqs[n].key] == reqs[n].values[0])
            ==> EqualitiesOf(reqs[..n + 1], ml[reqs[n].key := reqs[n].values[0]])
  {
    var more, req := reqs[..n + 1], reqs[n];
    assert forall i :: 0 <= i < n ==> more[i] == reqs[..n][i];
    assert forall k :: k in ml ==> exists i :: 0 <= i < |more| && IsEquality(more[i], k, ml[k]) by {
      forall k | k in ml ensures exists i :: 0 <= i < |more| && IsEquality(more[i], k, ml[k]) {
        var i :| 0 <= i < n && IsEquality(reqs[..n][i], k, ml[k]);
        assert IsEquality(more[i], k, ml[k]);
      }
    }
    if req.op.Equals? && |req.values| == 1 {
      assert req.values == [req.values[0]];
      assert more[n] == req && IsEquality(more[n], req.key, req.values[0]);
    }
  }

  /** The conversion loop: equalities into `matchLabels`, inequalities gathered by key, the
      rest into expressions; then the gathered inequalities, in any key order. */
  method Convert(reqs: seq<Requirement>, atoi: string -> Option<int>) returns (r: Conversion)
    ensures r.Converted? <==> Convertible(reqs)
    ensures r.Converted? ==> SameMeaning(reqs, r.selector, atoi)
    ensures r == Rejected(UnsupportedOperator) ==> exists i :: 0 <= i < |reqs| && Unsupported(reqs[i])
    ensures r == Rejected(NotEqualsArity) ==> exists i :: 0 <= i < |reqs| && BadArity(reqs[i])
    ensures r.Rejected? && r.error.ConflictingEquality? ==> HasConflict(reqs)
  {
    var ml: map<string, string>, es: seq<Expression>, ne: map<string, seq<string>> := map[], [], map[];
    hide Gathered, MeetsAll;
    NothingGathered(reqs, atoi);
    for n := 0 to |reqs|
      invariant GatheredUpTo(reqs, n, atoi, ml, es, ne)
      invariant EqualitiesOf(reqs[..n], ml)
      invariant forall i :: 0 <= i < n ==> !Unsupported(reqs[i]) && !BadArity(reqs[i])
      invariant forall i, j :: 0 <= i < j < n ==> !Conflict(reqs[i], reqs[j])
    {
      hide GatheredUpTo;
      var req := reqs[n];
      EqualitiesExtend(reqs, n, ml);
      if Unsupported(req) {
        return Rejected(UnsupportedOperator);
      } else if req.op.Equals? && |req.values| == 1 {
        if req.key in ml && ml[req.key] != req.values[0] {
          var i :| 0 <= i < n && IsEquality(reqs[..n][i], req.key, ml[req.key]);
          assert Conflict(reqs[i], reqs[n]);
          return Rejected(ConflictingEquality(req.key));
        }
        forall i | 0 <= i < n ensures !Conflict(reqs[i], req) { assert reqs[i] == reqs[..n][i]; }
        GatherEquality(reqs, n, atoi, ml, es, ne);
        ml := ml[req.key := req.values[0]];
      } else if req.op.NotEquals? {
        if |req.values| != 1 { return Rejected(NotEqualsArity); }
        GatherExclusion(reqs, n, atoi, ml, es, ne);
        var seen := if req.key in ne then ne[req.key] else [];
        if req.values[0] !in seen {
          ne := ne[req.key := seen + [req.values[0]]];
        }
      } else {
        GatherExpression(reqs, n, atoi, ml, es, ne);
        es := es + [ToExpression(req)];
      }
    }
    assert reqs[..|reqs|] == reqs;
    es := AppendExclusions(ml, es, ne);
    r := Converted(Selector(ml, es));
  }

  lemma NothingGathered(reqs: seq<Requirement>, atoi: string -> Option<int>)
    ensures GatheredUpTo(reqs, 0, atoi, map[], [], map[])
  {
  }

  /** Folds the gathered inequalities into one `NotIn` expression per key, in any order. */
  method AppendExclusions(ghost ml: map<string, string>, es: seq<Expression>, ne: map<string, seq<string>>)
    returns (r: seq<Expression>)
    ensures forall ls: Labels :: LabelsMatch(ml, ls) && ExpressionsMatch(r, ls) <==> Gathered(ml, es, ne, ls)
  {
    r := es;
    var left := ne.Keys;
    while left != {}
      invariant left <= ne.Keys
      invariant forall ls: Labels ::
                  ExpressionsMatch(r, ls) <==>
                  ExpressionsMatch(es, ls) && forall k :: k in ne && k !in left ==> k !in ls || ls[k] !in ne[k]
      decreases left
    {
      var key :| key in left;
      ghost var before, pending := r, left;
      r := r + [Expression(key, OpNotIn, ne[key])];
      left := left - {key};
      forall ls: Labels
        ensures ExpressionsMatch(r, ls) <==>
                ExpressionsMatch(es, ls) && forall k :: k in ne && k !in left ==> k !in ls || ls[k] !in ne[k]
      {
        ExpressionsExtend(before, Expression(key, OpNotIn, ne[key]), ls);
        assert forall k :: k in ne && k !in left <==> k in ne && (k !in pending || k == key);
      }
    }
  }

  /** The conflicting-equality error is never spurious: nothing satisfies such a selector. */
  lemma ConflictIsUnsatisfiable(reqs: seq<Requirement>, ls: Labels, atoi: string -> Option<int>)
    requires HasConflict(reqs)
    ensures !MeetsAll(reqs, ls, atoi)
  {
    var i, j :| 0 <= i < j < |reqs| && Conflict(reqs[i], reqs[j]);
    assert !Meets(reqs[i], ls, atoi) || !Meets(reqs[j], ls, atoi);
  }

  /** `a==b` means what `a=b` means, yet the conversion refuses it. */
  lemma DoubleEqualsIsRefused(k: string, v: string, atoi: string -> Option<int>)
    ensures var eq, eqeq := [Requirement(k, Equals, [v])], [Requirement(k, DoubleEquals, [v])];
            && (forall ls: Labels :: MeetsAll(eq, ls, atoi) <==> MeetsAll(eqeq, ls, atoi))
            && Convertible(eq) && !Convertible(eqeq)
  {
    var eq, eqeq := [Requirement(k, Equals, [v])], [Requirement(k, DoubleEquals, [v])];
    assert Unsupported(eqeq[0]);
    forall ls: Labels ensures MeetsAll(eq, ls, atoi) <==> MeetsAll(eqeq, ls, atoi) {
      assert Meets(eq[0], ls, atoi) <==> Meets(eqeq[0], ls, atoi);
    }
  }
}
