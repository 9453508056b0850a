/** Properties of the checker: the per-rule behaviour of inference and
    instance checking, the payload walk of sum formers, the exhaustive
    case-split rule (missing cases first, in key order; leftover branches
    reported together), the infer-check bridge, and monotonicity of the
    checking state. */
module CheckProps {
  import opened Labels
  import opened Syntax
  import opened Evaluator
  import opened ReadBack
  import opened Checker

  // ---------------------------------------------------------------------
  // Inference rules
  // ---------------------------------------------------------------------

  /** Literals synthesise their fixed types; a variable synthesises its
      Gamma entry or is an unresolved name. */
  lemma InferLiterals(index: nat, s: State, o: Collaborators, fuel: nat, l: nat, x: Name)
    requires fuel > 0
    ensures CheckInfer(index, s, EUnit, o, fuel) == Ok(VOne)
    ensures CheckInfer(index, s, EType(l), o, fuel) == Ok(VType(0))
    ensures CheckInfer(index, s, EVoid, o, fuel) == Ok(VType(0))
    ensures CheckInfer(index, s, EOne, o, fuel) == Ok(VType(0))
    ensures x in s.gamma ==> CheckInfer(index, s, EVar(x), o, fuel) == Ok(s.gamma[x])
    ensures x !in s.gamma ==> CheckInfer(index, s, EVar(x), o, fuel) == Err(UnresolvedName(x))
  {
  }

  /** A bare constructor synthesises the minimal sum: one label, mapped to
      the synthesised type of the payload; it fails exactly when the payload
      does. */
  lemma InferConstructorSingleton(index: nat, s: State, l: Label, payload: Expr, o: Collaborators, fuel: nat)
    requires fuel > 0
    ensures CheckInfer(index, s, ECon(l, payload), o, fuel).Ok? <==> CheckInfer(index, s, payload, o, fuel - 1).Ok?
    ensures CheckInfer(index, s, ECon(l, payload), o, fuel).Ok? ==>
      var t := CheckInfer(index, s, ECon(l, payload), o, fuel).value;
      && t.VInferredSum?
      && t.payloads.Keys == {l}
      && t.payloads[l] == CheckInfer(index, s, payload, o, fuel - 1).value
  {
  }

  /** A pair synthesises a non-dependent Sigma: the second type is the same
      whatever the first component is instantiated with. */
  lemma InferPairNonDependent(index: nat, s: State, a: Expr, b: Expr, o: Collaborators, fuel: nat,
                              v: Value, f: nat)
    requires CheckInfer(index, s, EPair(a, b), o, fuel).Ok? && f > 0
    ensures
      var t := CheckInfer(index, s, EPair(a, b), o, fuel).value;
      && t.VSigma?
      && t.domain == CheckInfer(index, s, a, o, fuel - 1).value
      && Instantiate(t.codomain, v, f) == Done(CheckInfer(index, s, b, o, fuel - 1).value)
  {
  }

  /** Projections need a Sigma type; the second projection substitutes the
      evaluated first projection of the same term. Application needs a Pi
      type; declarations are unreachable and the remaining shapes cannot be
      synthesised. */
  lemma InferErrors(index: nat, s: State, e: Expr, o: Collaborators, fuel: nat)
    requires fuel > 0
    ensures e.EFirst? && CheckInfer(index, s, e.pair, o, fuel - 1).Ok? ==>
      var t := CheckInfer(index, s, e.pair, o, fuel - 1).value;
      CheckInfer(index, s, e, o, fuel) == if t.VSigma? then Ok(t.domain) else Err(WantSigmaBut(t))
    ensures e.ESecond? && CheckInfer(index, s, e.pair, o, fuel - 1).Ok? ==>
      var t := CheckInfer(index, s, e.pair, o, fuel - 1).value;
      && (!t.VSigma? ==> CheckInfer(index, s, e, o, fuel) == Err(WantSigmaBut(t)))
      && (t.VSigma? && Eval(e.pair, s.env, fuel).Done? && First(Eval(e.pair, s.env, fuel).value).Done? ==>
            CheckInfer(index, s, e, o, fuel) ==
              Lift(Instantiate(t.codomain, First(Eval(e.pair, s.env, fuel).value).value, fuel)))
    ensures e.EApp? && !(e.head.ELambda? && e.head.annotation.Some?) && CheckInfer(index, s, e.head, o, fuel - 1).Ok? ==>
      var ft := CheckInfer(index, s, e.head, o, fuel - 1).value;
      !ft.VPi? ==> CheckInfer(index, s, e, o, fuel) == Err(WantPiBut(ft, e.argument))
    ensures e.EDec? || e.EConst? ==> CheckInfer(index, s, e, o, fuel) == Err(Unreachable)
    ensures e.ELambda? || e.ESplit? || e.EMerge? ==> CheckInfer(index, s, e, o, fuel) == Err(CannotInfer(e))
  {
  }

  /** Inference of a Pi or Sigma former: the domain must be a type, the
      pattern is typed at the evaluated domain in Gamma, and the codomain must
      be a type in that Gamma, but under the environment the domain check
      handed back, which is not extended with the pattern. The synthesised
      type is the universe. */
  lemma InferFormerRule(index: nat, s: State, p: Pattern, domain: Expr, codomain: Expr, o: Collaborators, fuel: nat)
    requires fuel > 0
    ensures CheckInfer(index, s, EPi(p, domain, codomain), o, fuel) ==
      CheckInfer(index, s, ESigma(p, domain, codomain), o, fuel)
    ensures CheckInfer(index, s, EPi(p, domain, codomain), o, fuel).Ok? <==>
      && CheckType(index, s, domain, o, fuel - 1).Ok?
      && var s1 := CheckType(index, s, domain, o, fuel - 1).value;
      && Eval(domain, s1.env, fuel).Done?
      && var g := o.updateGamma(s1.gamma, p, Eval(domain, s1.env, fuel).value, GenerateValue(index));
      && g.Ok?
      && CheckType(index + 1, State(g.value, s1.env), codomain, o, fuel - 1).Ok?
    ensures CheckInfer(index, s, EPi(p, domain, codomain), o, fuel).Ok? ==>
      CheckInfer(index, s, EPi(p, domain, codomain), o, fuel).value == VType(0)
  {
  }

  /** Inference of a sum former: it is `Type` exactly when the sum-type rule
      accepts the payloads, and the rule's error otherwise. */
  lemma InferSumRule(index: nat, s: State, branches: map<Label, Expr>, o: Collaborators, fuel: nat)
    requires fuel > 0
    ensures
      var r := CheckInfer(index, s, ESum(branches), o, fuel);
      var sum := CheckSumType(index, s, branches, o, fuel);
      && (r.Ok? <==> sum.Ok?)
      && (r.Ok? ==> r.value == VType(0))
      && (sum.Err? ==> r == Err(sum.error))
  {
  }

  /** Inference of an application of an annotated lambda: the argument is
      checked against the annotation, the pattern is bound to the placeholder
      of index `index + 1` in Gamma and the environment, and the body's type
      is inferred at index `index + 1`. */
  lemma InferAnnotatedApplication(index: nat, s: State, p: Pattern, t: Value, body: Expr, argument: Expr,
                                  o: Collaborators, fuel: nat)
    requires fuel > 0
    ensures
      var arg := Check(index, s, argument, t, o, fuel - 1);
      var generated := GenerateValue(index + 1);
      var g := o.updateGamma(s.gamma, p, t, generated);
      var r := CheckInfer(index, s, EApp(ELambda(p, Some(t), body), argument), o, fuel);
      && (arg.Err? ==> r == Err(arg.error))
      && (arg.Ok? && g.Err? ==> r == Err(g.error))
      && (arg.Ok? && g.Ok? ==> r == CheckInfer(index + 1, State(g.value, UpVar(s.env, p, generated)), body, o, fuel - 1))
  {
  }

  /** Inference of any other application whose head has a Pi type: the
      argument is checked against the domain under the original state, and
      the type is the codomain instantiated at the argument's value. */
  lemma InferApplication(index: nat, s: State, head: Expr, argument: Expr, o: Collaborators, fuel: nat)
    requires fuel > 0
    requires !(head.ELambda? && head.annotation.Some?)
    requires CheckInfer(index, s, head, o, fuel - 1).Ok? && CheckInfer(index, s, head, o, fuel - 1).value.VPi?
    ensures
      var ft := CheckInfer(index, s, head, o, fuel - 1).value;
      var arg := Check(index, s, argument, ft.domain, o, fuel - 1);
      var av := Eval(argument, s.env, fuel);
      var r := CheckInfer(index, s, EApp(head, argument), o, fuel);
      && (arg.Err? ==> r == Err(arg.error))
      && (arg.Ok? && av.Done? ==> r == Lift(Instantiate(ft.codomain, av.value, fuel)))
      && (arg.Ok? && av.Panic? ==> r == Defective(av.defect))
  {
  }

  // ---------------------------------------------------------------------
  // Instance-checking rules
  // ---------------------------------------------------------------------

  /** The trivial rules return the state unchanged. */
  lemma CheckTrivial(index: nat, s: State, o: Collaborators, fuel: nat, t: Value, l: nat, m: nat)
    requires fuel > 0
    ensures Check(index, s, EUnit, VOne, o, fuel) == Ok(s)
    ensures Check(index, s, EType(l), VType(m), o, fuel) == Ok(s)
    ensures Check(index, s, EOne, VType(m), o, fuel) == Ok(s)
    ensures Check(index, s, EVoid, t, o, fuel) == Ok(s)
    ensures CheckType(index, s, EType(l), o, fuel) == Ok(s)
    ensures CheckType(index, s, EVoid, o, fuel) == Ok(s)
    ensures CheckType(index, s, EOne, o, fuel) == Ok(s)
  {
  }

  /** A lambda against a Pi binds the placeholder `Generated(index)` in Gamma
      and in the environment, and checks the body one index further against
      the codomain instantiated with that same placeholder. */
  lemma CheckLambdaBindsGenerated(index: nat, s: State, p: Pattern, hint: Option<Value>, body: Expr,
                                  domain: Value, c: Closure, level: nat, o: Collaborators, fuel: nat)
    requires fuel > 0
    requires o.updateGamma(s.gamma, p, domain, GenerateValue(index)).Ok?
    requires Instantiate(c, GenerateValue(index), fuel).Done?
    ensures Check(index, s, ELambda(p, hint, body), VPi(domain, c, level), o, fuel) ==
      Check(index + 1,
            State(o.updateGamma(s.gamma, p, domain, GenerateValue(index)).value,
                  UpVar(s.env, p, GenerateValue(index))),
            body, Instantiate(c, GenerateValue(index), fuel).value, o, fuel - 1)
  {
  }

  /** A constructor against a sum: an undeclared label is an invalid
      constructor, otherwise the payload is checked against the label's
      type evaluated in the environment the sum captured. */
  lemma CheckConstructor(index: nat, s: State, l: Label, body: Expr, cases: CaseTree, level: nat,
                         o: Collaborators, fuel: nat)
    requires fuel > 0
    ensures l !in cases ==> Check(index, s, ECon(l, body), VSum(cases, level), o, fuel) == Err(InvalidConstructor(l))
    ensures l in cases && ReduceToValue(cases[l], fuel).Done? ==>
      Check(index, s, ECon(l, body), VSum(cases, level), o, fuel) ==
        Check(index, s, body, ReduceToValue(cases[l], fuel).value, o, fuel - 1)
  {
  }

  /** A case split against a Pi whose domain is not a sum value falls back to
      inference and subtyping. */
  lemma SplitFallsThrough(index: nat, s: State, branches: map<Label, Expr>, domain: Value, c: Closure,
                          level: nat, o: Collaborators, fuel: nat)
    requires fuel > 0 && !domain.VSum?
    ensures Check(index, s, ESplit(branches), VPi(domain, c, level), o, fuel) ==
      CheckFallback(index, s, ESplit(branches), VPi(domain, c, level), o, fuel)
  {
  }

  /** A pair against a Sigma: the first component is checked against the
      domain, and the second against the codomain instantiated at the first
      component's value, both under the original state. */
  lemma CheckPairRule(index: nat, s: State, a: Expr, b: Expr, domain: Value, c: Closure, level: nat,
                      o: Collaborators, fuel: nat)
    requires fuel > 0
    ensures
      var first := Check(index, s, a, domain, o, fuel - 1);
      var av := Eval(a, s.env, fuel);
      var r := Check(index, s, EPair(a, b), VSigma(domain, c, level), o, fuel);
      && (first.Err? ==> r == Err(first.error))
      && (first.Ok? && av.Panic? ==> r == Defective(av.defect))
      && (first.Ok? && av.Done? && Instantiate(c, av.value, fuel).Done? ==>
            r == Check(index, s, b, Instantiate(c, av.value, fuel).value, o, fuel - 1))
  {
  }

  /** Sum, Pi and Sigma formers against `Type` are type formation: the
      sum-type rule and the telescoped rule, whatever the level. */
  lemma CheckFormersAgainstType(index: nat, s: State, e: Expr, l: nat, o: Collaborators, fuel: nat)
    requires fuel > 0
    ensures e.ESum? ==> Check(index, s, e, VType(l), o, fuel) == CheckSumType(index, s, e.branches, o, fuel)
    ensures e.EPi? || e.ESigma? ==>
      Check(index, s, e, VType(l), o, fuel) == CheckTelescoped(index, s, e.pattern, e.domain, e.codomain, o, fuel)
  {
  }

  /** A declaration is checked by the declaration collaborator, and the rest
      against the same type in the state it hands back. */
  lemma CheckDeclarationRule(index: nat, s: State, d: Declaration, rest: Expr, t: Value, o: Collaborators, fuel: nat)
    requires fuel > 0
    ensures
      var s1 := o.declaration(index, s, d);
      var r := Check(index, s, EDec(d, rest), t, o, fuel);
      && (s1.Ok? ==> r == Check(index, s1.value, rest, t, o, fuel - 1))
      && (s1.Err? ==> r == Err(s1.error))
  {
  }

  /** A local constant: the body's type is inferred, and the rest is checked
      with the pattern typed at that type in Gamma and bound to the body's
      value, not a placeholder, in the environment. */
  lemma CheckConstantRule(index: nat, s: State, p: Pattern, body: Expr, rest: Expr, t: Value,
                          o: Collaborators, fuel: nat)
    requires fuel > 0
    ensures
      var signature := CheckInfer(index, s, body, o, fuel - 1);
      var bv := Eval(body, s.env, fuel);
      var r := Check(index, s, EConst(p, body, rest), t, o, fuel);
      && (signature.Err? ==> r == Err(signature.error))
      && (signature.Ok? && bv.Done? && o.updateGamma(s.gamma, p, signature.value, bv.value).Ok? ==>
            r == Check(index, State(o.updateGamma(s.gamma, p, signature.value, bv.value).value, UpVar(s.env, p, bv.value)),
                       rest, t, o, fuel - 1))
  {
  }

  /** The Pi/Sigma former rule: the domain must be a type, and the codomain
      must be a type at index `index + 1` with the pattern typed at the
      domain's value in Gamma and bound to the placeholder of index `index`
      in the environment; the state that comes back is the codomain's. */
  lemma CheckTelescopedRule(index: nat, s: State, p: Pattern, domain: Expr, codomain: Expr,
                            o: Collaborators, fuel: nat)
    requires fuel > 0
    ensures CheckType(index, s, domain, o, fuel - 1).Err? ==>
      CheckTelescoped(index, s, p, domain, codomain, o, fuel) == Err(CheckType(index, s, domain, o, fuel - 1).error)
    ensures CheckType(index, s, domain, o, fuel - 1).Ok? && Eval(domain, s.env, fuel).Done? ==>
      var g := o.updateGamma(s.gamma, p, Eval(domain, s.env, fuel).value, GenerateValue(index));
      && (g.Ok? ==>
            CheckTelescoped(index, s, p, domain, codomain, o, fuel) ==
            CheckType(index + 1, State(g.value, UpVar(s.env, p, GenerateValue(index))), codomain, o, fuel - 1))
      && (g.Err? ==> CheckTelescoped(index, s, p, domain, codomain, o, fuel) == Err(g.error))
  {
    var d := CheckType(index, s, domain, o, fuel - 1);
    var r := CheckTelescoped(index, s, p, domain, codomain, o, fuel);
    if d.Err? {
      assert r == Err(d.error);
    } else if d.Ok? && Eval(domain, s.env, fuel).Done? {
      var g := o.updateGamma(s.gamma, p, Eval(domain, s.env, fuel).value, GenerateValue(index));
      if g.Ok? {
        assert r == CheckType(index + 1, State(g.value, UpVar(s.env, p, GenerateValue(index))), codomain, o, fuel - 1);
      } else if g.Err? {
        assert r == Err(g.error);
      }
    }
  }

  // ---------------------------------------------------------------------
  // Sum formers
  // ---------------------------------------------------------------------

  /** The labels of a sequence, as a set. */
  function Members(labels: seq<Label>): set<Label>
  {
    set l | l in labels
  }

  /** The payload walk succeeds exactly when every payload is a type, and
      then hands back the original state. */
  lemma {:induction false} PayloadsAll(index: nat, s: State, labels: seq<Label>, branches: map<Label, Expr>,
                                       o: Collaborators, fuel: nat)
    requires forall l :: l in labels ==> l in branches
    ensures CheckPayloads(index, s, labels, branches, o, fuel).Ok? <==>
      forall l :: l in labels ==> CheckType(index, s, branches[l], o, fuel).Ok?
    ensures CheckPayloads(index, s, labels, branches, o, fuel).Ok? ==>
      CheckPayloads(index, s, labels, branches, o, fuel).value == s
    decreases |labels|
  {
    if labels != [] {
      PayloadsAll(index, s, labels[1..], branches, o, fuel);
      assert forall l :: l in labels <==> l == labels[0] || l in labels[1..];
    }
  }

  /** A failing walk reports the first failing payload in the order walked. */
  lemma {:induction false} PayloadsFirstFailure(index: nat, s: State, labels: seq<Label>, branches: map<Label, Expr>,
                                                o: Collaborators, fuel: nat, k: nat)
    requires forall l :: l in labels ==> l in branches
    requires k < |labels| && !CheckType(index, s, branches[labels[k]], o, fuel).Ok?
    requires forall j :: 0 <= j < k ==> CheckType(index, s, branches[labels[j]], o, fuel).Ok?
    ensures CheckPayloads(index, s, labels, branches, o, fuel) ==
      CheckType(index, s, branches[labels[k]], o, fuel).PropagateFailure()
    decreases k
  {
    if k > 0 {
      assert labels[1..][k - 1] == labels[k];
      assert forall j :: 0 <= j < k - 1 ==> labels[1..][j] == labels[j + 1];
      PayloadsFirstFailure(index, s, labels[1..], branches, o, fuel, k - 1);
    }
  }

  /** A sum former is a type exactly when every payload is a type, and the
      state is then unchanged. */
  lemma SumTypeChecksEveryPayload(index: nat, s: State, branches: map<Label, Expr>, o: Collaborators, fuel: nat)
    requires fuel > 0
    ensures CheckSumType(index, s, branches, o, fuel).Ok? <==>
      forall l :: l in branches ==> CheckType(index, s, branches[l], o, fuel - 1).Ok?
    ensures CheckSumType(index, s, branches, o, fuel).Ok? ==> CheckSumType(index, s, branches, o, fuel).value == s
  {
    PayloadsAll(index, s, SortedLabels(branches.Keys), branches, o, fuel - 1);
  }

  /** The error of a sum former that is not a type is that of its least
      failing payload label in key order. */
  lemma SumTypeFirstFailure(index: nat, s: State, branches: map<Label, Expr>, o: Collaborators, fuel: nat, l: Label)
    requires fuel > 0 && l in branches && !CheckType(index, s, branches[l], o, fuel - 1).Ok?
    requires forall m :: m in branches && Below(m, l) && m != l ==> CheckType(index, s, branches[m], o, fuel - 1).Ok?
    ensures CheckSumType(index, s, branches, o, fuel) == CheckType(index, s, branches[l], o, fuel - 1).PropagateFailure()
  {
    var labels := SortedLabels(branches.Keys);
    SortedLabelsAscending(branches.Keys);
    var k :| 0 <= k < |labels| && labels[k] == l;
    forall j | 0 <= j < k ensures CheckType(index, s, branches[labels[j]], o, fuel - 1).Ok? {
      assert Below(labels[j], labels[k]) && labels[j] != labels[k];
    }
    PayloadsFirstFailure(index, s, labels, branches, o, fuel - 1, k);
  }

  // ---------------------------------------------------------------------
  // The exhaustive case split
  // ---------------------------------------------------------------------

  /** The branch for label `l` checks against `Pi(payload type of l,
      Choice(c, l))`, the payload type being evaluated in the environment the
      sum captured. */
  predicate BranchChecks(index: nat, s: State, branch: Expr, payload: Righted, l: Label, c: Closure,
                         o: Collaborators, fuel: nat)
  {
    var pt := ReduceToValue(payload, fuel);
    pt.Done? && Check(index, s, branch, VPi(pt.value, CChoice(c, l), 0), o, fuel).Ok?
  }

  /** Every sum label before `l` in key order has a branch, and it checks. */
  predicate EarlierBranchesCheck(index: nat, s: State, branches: map<Label, Expr>, sum: CaseTree, l: Label,
                                 c: Closure, o: Collaborators, fuel: nat)
  {
    forall m {:trigger Precedes(m, l)} :: m in sum && Precedes(m, l) ==>
      m in branches && BranchChecks(index, s, branches[m], sum[m], m, c, o, fuel)
  }

  /** One step of the walk: a label with a checking branch is consumed. */
  lemma CasesStep(index: nat, s: State, labels: seq<Label>, remaining: map<Label, Expr>,
                  sum: CaseTree, c: Closure, o: Collaborators, fuel: nat)
    requires forall l :: l in labels ==> l in sum
    requires labels != [] && labels[0] in remaining
    requires BranchChecks(index, s, remaining[labels[0]], sum[labels[0]], labels[0], c, o, fuel)
    ensures CheckCases(index, s, labels, remaining, sum, c, o, fuel) ==
      CheckCases(index, s, labels[1..], remaining - {labels[0]}, sum, c, o, fuel)
  {
  }

  lemma MembersCons(labels: seq<Label>)
    requires labels != []
    ensures Members(labels) == Members(labels[1..]) + {labels[0]}
  {
  }

  lemma KeysRemove(remaining: map<Label, Expr>, l: Label)
    requires l in remaining
    ensures remaining.Keys == (remaining - {l}).Keys + {l}
  {
  }

  /** A successful walk hands back the original state, consumed exactly the
      walked labels, and every one of their branches checks. */
  lemma {:induction false} CasesSound(index: nat, s: State, labels: seq<Label>, remaining: map<Label, Expr>,
                                      sum: CaseTree, c: Closure, o: Collaborators, fuel: nat)
    requires forall l :: l in labels ==> l in sum
    requires CheckCases(index, s, labels, remaining, sum, c, o, fuel).Ok?
    ensures CheckCases(index, s, labels, remaining, sum, c, o, fuel).value == s
    ensures remaining.Keys == Members(labels)
    ensures forall l :: l in labels ==> BranchChecks(index, s, remaining[l], sum[l], l, c, o, fuel)
    decreases |labels|
  {
    if labels == [] {
      assert remaining.Keys == {};
    } else {
      var l := labels[0];
      assert l in remaining && BranchChecks(index, s, remaining[l], sum[l], l, c, o, fuel);
      CasesStep(index, s, labels, remaining, sum, c, o, fuel);
      CasesSound(index, s, labels[1..], remaining - {l}, sum, c, o, fuel);
      MembersCons(labels);
      KeysRemove(remaining, l);
    }
  }

  lemma DistinctTail(labels: seq<Label>)
    requires Distinct(labels) && labels != []
    ensures Distinct(labels[1..])
    ensures labels[0] !in labels[1..]
    ensures Members(labels) == Members(labels[1..]) + {labels[0]}
  {
  }

  lemma RemoveStep(remaining: map<Label, Expr>, labels: seq<Label>)
    requires labels != []
    ensures (remaining - {labels[0]}) - Members(labels[1..]) == remaining - Members(labels)
  {
    assert Members(labels) == Members(labels[1..]) + {labels[0]};
  }

  /** With every walked label present and its branch checking, the walk
      comes down to the verdict on the branches left over: none left is a
      success, and any left are reported together, in key order. */
  lemma {:induction false} CasesComplete(index: nat, s: State, labels: seq<Label>, remaining: map<Label, Expr>,
                                         sum: CaseTree, c: Closure, o: Collaborators, fuel: nat)
    requires forall l :: l in labels ==> l in sum && l in remaining
    requires Distinct(labels)
    requires forall l :: l in labels ==> BranchChecks(index, s, remaining[l], sum[l], l, c, o, fuel)
    ensures CheckCases(index, s, labels, remaining, sum, c, o, fuel) ==
      CheckCases(index, s, [], remaining - Members(labels), sum, c, o, fuel)
    decreases |labels|
  {
    if labels == [] {
      assert remaining - Members(labels) == remaining;
    } else {
      var l := labels[0];
      var rest := labels[1..];
      var smaller := remaining - {l};
      DistinctTail(labels);
      forall m | m in rest
        ensures m in sum && m in smaller
        ensures BranchChecks(index, s, smaller[m], sum[m], m, c, o, fuel)
      {
        assert m != l && smaller[m] == remaining[m];
      }
      CasesStep(index, s, labels, remaining, sum, c, o, fuel);
      CasesComplete(index, s, rest, smaller, sum, c, o, fuel);
      RemoveStep(remaining, labels);
    }
  }

  /** The verdict on the branches left over once every sum label is
      consumed. */
  lemma CasesLeftover(index: nat, s: State, leftover: map<Label, Expr>, sum: CaseTree, c: Closure,
                      o: Collaborators, fuel: nat)
    ensures CheckCases(index, s, [], leftover, sum, c, o, fuel) ==
      if leftover.Keys == {} then Ok(s) else Err(UnexpectedCases(JoinLabels(SortedLabels(leftover.Keys))))
  {
    assert |leftover| == 0 <==> leftover.Keys == {};
  }

  /** The first walked label without a branch is reported as the missing
      case, provided every label before it has a checking branch; branches
      left over do not matter. */
  lemma {:induction false} CasesMissing(index: nat, s: State, labels: seq<Label>, remaining: map<Label, Expr>,
                                        sum: CaseTree, c: Closure, o: Collaborators, fuel: nat, k: nat)
    requires forall l :: l in labels ==> l in sum
    requires Distinct(labels)
    requires k < |labels| && labels[k] !in remaining
    requires forall j :: 0 <= j < k ==>
      labels[j] in remaining && BranchChecks(index, s, remaining[labels[j]], sum[labels[j]], labels[j], c, o, fuel)
    ensures CheckCases(index, s, labels, remaining, sum, c, o, fuel) == Err(MissingCase(labels[k]))
    decreases k
  {
    if k > 0 {
      var l := labels[0];
      var smaller := remaining - {l};
      CasesStep(index, s, labels, remaining, sum, c, o, fuel);
      forall j | 0 <= j < k - 1
        ensures labels[1..][j] in smaller
        ensures BranchChecks(index, s, smaller[labels[1..][j]], sum[labels[1..][j]], labels[1..][j], c, o, fuel)
      {
        assert labels[1..][j] == labels[j + 1] && labels[j + 1] != l;
      }
      assert labels[1..][k - 1] == labels[k] && labels[k] != l;
      CasesMissing(index, s, labels[1..], smaller, sum, c, o, fuel, k - 1);
    }
  }

  /** The case-split rule against `Pi(Sum(sum), c)` is the split walk over
      the sum's labels. */
  lemma SplitWalksSumLabels(index: nat, s: State, branches: map<Label, Expr>, sum: CaseTree, level: nat,
                            c: Closure, piLevel: nat, o: Collaborators, fuel: nat)
    ensures Check(index, s, ESplit(branches), VPi(VSum(sum, level), c, piLevel), o, fuel) ==
      CheckSplit(index, s, sum, branches, c, o, fuel)
  {
  }

  lemma MembersOfSorted(ks: set<Label>)
    ensures Members(SortedLabels(ks)) == ks
  {
  }

  /** The branches left once the sum labels are taken out. */
  lemma LeftoverKeys(branches: map<Label, Expr>, ks: set<Label>)
    requires ks <= branches.Keys
    ensures (branches - ks).Keys == branches.Keys - ks
    ensures (branches - ks).Keys == {} <==> branches.Keys == ks
  {
    assert (branches - ks).Keys == branches.Keys - ks;
    if (branches - ks).Keys == {} {
      forall k | k in branches.Keys ensures k in ks {
        assert k !in branches.Keys - ks;
      }
    }
  }

  /** With fuel left, the split rule is the walk over the sum labels in
      key order. */
  lemma SplitIsWalk(index: nat, s: State, sum: CaseTree, branches: map<Label, Expr>, c: Closure,
                    o: Collaborators, fuel: nat)
    requires fuel > 0
    ensures CheckSplit(index, s, sum, branches, c, o, fuel) ==
      CheckCases(index, s, SortedLabels(sum.Keys), branches, sum, c, o, fuel - 1)
  {
  }

  /** A successful split walk covers the sum's labels exactly, every branch
      checks, and the state is unchanged. */
  lemma SplitWalkSound(index: nat, s: State, sum: CaseTree, branches: map<Label, Expr>, c: Closure,
                       o: Collaborators, fuel: nat)
    requires CheckSplit(index, s, sum, branches, c, o, fuel).Ok?
    ensures fuel > 0
    ensures CheckSplit(index, s, sum, branches, c, o, fuel) == Ok(s)
    ensures branches.Keys == sum.Keys
    ensures forall l :: l in sum ==> BranchChecks(index, s, branches[l], sum[l], l, c, o, fuel - 1)
  {
    var labels := SortedLabels(sum.Keys);
    CasesSound(index, s, labels, branches, sum, c, o, fuel - 1);
    MembersOfSorted(sum.Keys);
  }

  /** Where a label sits in the key-ordered walk: the labels before it are
      exactly smaller ones, and the walk repeats no label. */
  lemma SortedPosition(ks: set<Label>, l: Label) returns (k: nat)
    requires l in ks
    ensures k < |SortedLabels(ks)| && SortedLabels(ks)[k] == l
    ensures Distinct(SortedLabels(ks))
    ensures forall m :: m in SortedLabels(ks) ==> m in ks
    ensures forall j :: 0 <= j < k ==>
      SortedLabels(ks)[j] in ks && Precedes(SortedLabels(ks)[j], l)
  {
    var labels := SortedLabels(ks);
    SortedLabelsAscending(ks);
    SortedLabelsDistinct(ks);
    k :| 0 <= k < |labels| && labels[k] == l;
    forall j | 0 <= j < k
      ensures labels[j] in ks && Precedes(labels[j], l)
    {
      assert labels[j] in labels;
    }
  }

  /** `CasesMissing` for a walk whose labels before position `k` are all
      below the missing label `l`, with the branch of every label below `l`
      checking. */
  lemma CasesMissingBelow(index: nat, s: State, labels: seq<Label>, remaining: map<Label, Expr>,
                          sum: CaseTree, c: Closure, o: Collaborators, fuel: nat, k: nat, l: Label)
    requires forall m :: m in labels ==> m in sum
    requires Distinct(labels)
    requires k < |labels| && labels[k] == l && l !in remaining
    requires forall j :: 0 <= j < k ==> labels[j] in sum && Precedes(labels[j], l)
    requires EarlierBranchesCheck(index, s, remaining, sum, l, c, o, fuel)
    ensures CheckCases(index, s, labels, remaining, sum, c, o, fuel) == Err(MissingCase(l))
  {
    forall j | 0 <= j < k
      ensures labels[j] in remaining
      ensures BranchChecks(index, s, remaining[labels[j]], sum[labels[j]], labels[j], c, o, fuel)
    {
      var m := labels[j];
      assert m in sum && Precedes(m, l);
    }
    CasesMissing(index, s, labels, remaining, sum, c, o, fuel, k);
  }

  /** The split walk stops at the least unmatched sum label. */
  lemma SplitWalkMissing(index: nat, s: State, sum: CaseTree, branches: map<Label, Expr>, c: Closure,
                         o: Collaborators, fuel: nat, l: Label)
    requires fuel > 0 && l in sum && l !in branches
    requires EarlierBranchesCheck(index, s, branches, sum, l, c, o, fuel - 1)
    ensures CheckSplit(index, s, sum, branches, c, o, fuel) == Err(MissingCase(l))
  {
    SortedCasesMissing(index, s, sum, branches, c, o, fuel - 1, l);
    SplitIsWalk(index, s, sum, branches, c, o, fuel);
  }

  /** The walk over the sum's labels in key order stops at `l` when every
      earlier label has a checking branch and `l` has none. */
  lemma SortedCasesMissing(index: nat, s: State, sum: CaseTree, branches: map<Label, Expr>, c: Closure,
                           o: Collaborators, fuel: nat, l: Label)
    requires l in sum && l !in branches
    requires EarlierBranchesCheck(index, s, branches, sum, l, c, o, fuel)
    ensures CheckCases(index, s, SortedLabels(sum.Keys), branches, sum, c, o, fuel) == Err(MissingCase(l))
  {
    var k := SortedPosition(sum.Keys, l);
    CasesMissingBelow(index, s, SortedLabels(sum.Keys), branches, sum, c, o, fuel, k, l);
  }

  /** With every sum label matched by a checking branch, the split walk
      succeeds when nothing is left over and otherwise names the extra
      labels together, in key order. */
  lemma SplitWalkComplete(index: nat, s: State, sum: CaseTree, branches: map<Label, Expr>, c: Closure,
                          o: Collaborators, fuel: nat)
    requires fuel > 0 && sum.Keys <= branches.Keys
    requires forall l :: l in sum ==> BranchChecks(index, s, branches[l], sum[l], l, c, o, fuel - 1)
    ensures CheckSplit(index, s, sum, branches, c, o, fuel) ==
      if branches.Keys == sum.Keys then Ok(s)
      else Err(UnexpectedCases(JoinLabels(SortedLabels(branches.Keys - sum.Keys))))
  {
    SplitReachesEnd(index, s, sum, branches, c, o, fuel);
    LeftoverKeys(branches, sum.Keys);
    CasesLeftover(index, s, branches - sum.Keys, sum, c, o, fuel - 1);
  }

  /** When every sum label has a checking branch, the walk gets to its end
      with exactly the branches the sum does not name left over. */
  lemma SplitReachesEnd(index: nat, s: State, sum: CaseTree, branches: map<Label, Expr>, c: Closure,
                        o: Collaborators, fuel: nat)
    requires fuel > 0 && sum.Keys <= branches.Keys
    requires forall l {:trigger BranchChecks(index, s, branches[l], sum[l], l, c, o, fuel - 1)} ::
      l in sum ==> BranchChecks(index, s, branches[l], sum[l], l, c, o, fuel - 1)
    ensures CheckSplit(index, s, sum, branches, c, o, fuel) ==
      CheckCases(index, s, [], branches - sum.Keys, sum, c, o, fuel - 1)
  {
    SortedCasesComplete(index, s, sum, branches, c, o, fuel - 1);
    SplitIsWalk(index, s, sum, branches, c, o, fuel);
  }

  /** The walk over the sum's labels in key order, when each has a checking
      branch, leaves exactly the branches the sum does not name. */
  lemma SortedCasesComplete(index: nat, s: State, sum: CaseTree, branches: map<Label, Expr>, c: Closure,
                            o: Collaborators, fuel: nat)
    requires sum.Keys <= branches.Keys
    requires forall l {:trigger BranchChecks(index, s, branches[l], sum[l], l, c, o, fuel)} ::
      l in sum ==> BranchChecks(index, s, branches[l], sum[l], l, c, o, fuel)
    ensures CheckCases(index, s, SortedLabels(sum.Keys), branches, sum, c, o, fuel) ==
      CheckCases(index, s, [], branches - sum.Keys, sum, c, o, fuel)
  {
    var labels := SortedLabels(sum.Keys);
    SortedLabelsDistinct(sum.Keys);
    MembersOfSorted(sum.Keys);
    CasesComplete(index, s, labels, branches, sum, c, o, fuel);
  }

  /** Soundness of the case-split rule: success means the branches cover
      the sum's labels exactly, every branch checks, and the state is
      unchanged. */
  lemma SplitSound(index: nat, s: State, branches: map<Label, Expr>, sum: CaseTree, level: nat, c: Closure,
                   piLevel: nat, o: Collaborators, fuel: nat)
    requires Check(index, s, ESplit(branches), VPi(VSum(sum, level), c, piLevel), o, fuel).Ok?
    ensures fuel > 0
    ensures Check(index, s, ESplit(branches), VPi(VSum(sum, level), c, piLevel), o, fuel) == Ok(s)
    ensures branches.Keys == sum.Keys
    ensures forall l :: l in sum ==> BranchChecks(index, s, branches[l], sum[l], l, c, o, fuel - 1)
  {
    SplitWalksSumLabels(index, s, branches, sum, level, c, piLevel, o, fuel);
    SplitWalkSound(index, s, sum, branches, c, o, fuel);
  }

  /** The least sum label (in key order) that has no branch is reported as
      the missing case when the branches of all smaller labels check, even
      if there are also extra branches. */
  lemma SplitMissingCase(index: nat, s: State, branches: map<Label, Expr>, sum: CaseTree, level: nat,
                         c: Closure, piLevel: nat, o: Collaborators, fuel: nat, l: Label)
    requires fuel > 0 && l in sum && l !in branches
    requires EarlierBranchesCheck(index, s, branches, sum, l, c, o, fuel - 1)
    ensures Check(index, s, ESplit(branches), VPi(VSum(sum, level), c, piLevel), o, fuel) == Err(MissingCase(l))
  {
    SplitWalksSumLabels(index, s, branches, sum, level, c, piLevel, o, fuel);
    SplitWalkMissing(index, s, sum, branches, c, o, fuel, l);
  }

  /** Completeness of the case-split rule: when every sum label has a
      checking branch, the split succeeds with the state unchanged if there
      are no other branches, and otherwise names all the extra branch labels
      together, in key order. */
  lemma SplitComplete(index: nat, s: State, branches: map<Label, Expr>, sum: CaseTree, level: nat,
                      c: Closure, piLevel: nat, o: Collaborators, fuel: nat)
    requires fuel > 0 && sum.Keys <= branches.Keys
    requires forall l :: l in sum ==> BranchChecks(index, s, branches[l], sum[l], l, c, o, fuel - 1)
    ensures Check(index, s, ESplit(branches), VPi(VSum(sum, level), c, piLevel), o, fuel) ==
      if branches.Keys == sum.Keys then Ok(s)
      else Err(UnexpectedCases(JoinLabels(SortedLabels(branches.Keys - sum.Keys))))
  {
    SplitWalksSumLabels(index, s, branches, sum, level, c, piLevel, o, fuel);
    SplitWalkComplete(index, s, sum, branches, c, o, fuel);
  }

  // ---------------------------------------------------------------------
  // Infer-check bridge
  // ---------------------------------------------------------------------

  /** Closed first-order terms: they evaluate without looking anything up. */
  predicate Plain(e: Expr)
  {
    match e
    case EUnit => true
    case EOne => true
    case EType(_) => true
    case EPair(a, b) => Plain(a) && Plain(b)
    case ECon(_, payload) => Plain(payload)
    case _ => false
  }

  function Height(e: Expr): nat
    requires Plain(e)
  {
    match e
    case EPair(a, b) => 1 + (if Height(a) >= Height(b) then Height(a) else Height(b))
    case ECon(_, payload) => 1 + Height(payload)
    case _ => 0
  }

  /** A plain term evaluates, given fuel beyond its height. */
  lemma {:induction false} PlainEvaluates(e: Expr, env: Telescope, fuel: nat)
    requires Plain(e) && fuel > Height(e)
    ensures Eval(e, env, fuel).Done?
  {
    match e
    case EPair(a, b) =>
      PlainEvaluates(a, env, fuel - 1);
      PlainEvaluates(b, env, fuel - 1);
    case ECon(_, payload) =>
      PlainEvaluates(payload, env, fuel - 1);
    case _ =>
  }

  /** Inferring a plain term needs as much fuel as evaluating it. */
  lemma {:induction false} PlainInferenceFuel(index: nat, s: State, e: Expr, o: Collaborators, fuel: nat)
    requires Plain(e) && CheckInfer(index, s, e, o, fuel).Ok?
    ensures fuel > Height(e)
  {
    match e
    case EPair(a, b) =>
      PlainInferenceFuel(index, s, a, o, fuel - 1);
      PlainInferenceFuel(index, s, b, o, fuel - 1);
    case ECon(_, payload) =>
      PlainInferenceFuel(index, s, payload, o, fuel - 1);
    case _ =>
  }

  /** The terms the bridge covers: everything but Pi and Sigma formers at the
      top, with plain first components in pairs. */
  predicate Bridged(e: Expr)
  {
    match e
    case EPi(_, _, _) => false
    case ESigma(_, _, _) => false
    case EPair(a, b) => Plain(a) && Bridged(a) && Bridged(b)
    case _ => true
  }

  /** With a reflexive subtyping, a term whose type is synthesised also
      checks against that type, leaving the state unchanged. */
  lemma {:induction false} InferCheckBridge(index: nat, s: State, e: Expr, o: Collaborators, fuel: nat)
    requires Bridged(e)
    requires forall i, st, t :: o.subtype(i, st, t, t) == Ok(st)
    requires CheckInfer(index, s, e, o, fuel).Ok?
    ensures Check(index, s, e, CheckInfer(index, s, e, o, fuel).value, o, fuel) == Ok(s)
  {
    match e
    case EPair(a, b) =>
      var ta := CheckInfer(index, s, a, o, fuel - 1).value;
      var tb := CheckInfer(index, s, b, o, fuel - 1).value;
      InferCheckBridge(index, s, a, o, fuel - 1);
      InferCheckBridge(index, s, b, o, fuel - 1);
      PlainInferenceFuel(index, s, a, o, fuel - 1);
      PlainEvaluates(a, s.env, fuel);
    case ESum(branches) =>
      SumTypeChecksEveryPayload(index, s, branches, o, fuel);
    case _ =>
  }

  /** The bridge does not extend to pairs whose first component is the
      empty type: inference accepts `(Void, ())`, but checking it against
      the synthesised type evaluates `Void`, which has no value. */
  lemma VoidPairBreaksBridge(index: nat, s: State, o: Collaborators, fuel: nat)
    requires fuel >= 2
    ensures CheckInfer(index, s, EPair(EVoid, EUnit), o, fuel) == Ok(VSigma(VType(0), CValue(VOne), 0))
    ensures Check(index, s, EPair(EVoid, EUnit), VSigma(VType(0), CValue(VOne), 0), o, fuel) ==
      Defective(CannotEval(EVoid))
  {
  }

  // ---------------------------------------------------------------------
  // Monotonicity of the checking state
  // ---------------------------------------------------------------------

  /** `outer` is `inner` with zero or more frames pushed in front. */
  predicate EnvExtends(outer: Telescope, inner: Telescope)
    decreases outer
  {
    outer == inner ||
    match outer
    case Nil => false
    case UpDec(context, _) => EnvExtends(context, inner)
    case UpVar(context, _, _) => EnvExtends(context, inner)
  }

  lemma {:induction false} EnvExtendsTransitive(a: Telescope, b: Telescope, c: Telescope)
    requires EnvExtends(a, b) && EnvExtends(b, c)
    ensures EnvExtends(a, c)
    decreases a
  {
    if a != b {
      match a
      case UpDec(context, _) => EnvExtendsTransitive(context, b, c);
      case UpVar(context, _, _) => EnvExtendsTransitive(context, b, c);
    }
  }

  /** The state only gains bindings: Gamma keeps its names and the
      environment keeps its frames. */
  predicate Grows(before: State, after: State)
  {
    before.gamma.Keys <= after.gamma.Keys && EnvExtends(after.env, before.env)
  }

  lemma GrowsTransitive(a: State, b: State, c: State)
    requires Grows(a, b) && Grows(b, c)
    ensures Grows(a, c)
  {
    EnvExtendsTransitive(c.env, b.env, a.env);
  }

  /** Collaborators that never drop bindings. */
  ghost predicate Monotone(o: Collaborators)
  {
    && (forall i, st, a, b :: o.subtype(i, st, a, b).Ok? ==> Grows(st, o.subtype(i, st, a, b).value))
    && (forall i, st, d :: o.declaration(i, st, d).Ok? ==> Grows(st, o.declaration(i, st, d).value))
    && (forall g, p, t, v :: o.updateGamma(g, p, t, v).Ok? ==> g.Keys <= o.updateGamma(g, p, t, v).value.Keys)
  }

  lemma {:induction false} CheckGrows(index: nat, s: State, e: Expr, t: Value, o: Collaborators, fuel: nat)
    requires Monotone(o)
    ensures Check(index, s, e, t, o, fuel).Ok? ==> Grows(s, Check(index, s, e, t, o, fuel).value)
    decreases fuel, 4, 1
  {
    var r := Check(index, s, e, t, o, fuel);
    if fuel > 0 && r.Ok? {
      if e.ELambda? || e.EDec? || e.EConst? {
        BinderGrows(index, s, e, t, o, fuel);
      } else if e.EPair? || e.ECon? {
        IntroductionGrows(index, s, e, t, o, fuel);
      } else if e.ESum? && t.VType? {
        SumTypeChecksEveryPayload(index, s, e.branches, o, fuel);
      } else if (e.EPi? || e.ESigma?) && t.VType? {
        CheckTelescopedGrows(index, s, e.pattern, e.domain, e.codomain, o, fuel);
      } else if e.ESplit? && t.VPi? && t.domain.VSum? {
        SplitWalkSound(index, s, t.domain.cases, e.branches, t.codomain, o, fuel);
      } else {
        FallbackGrows(index, s, e, t, o, fuel);
      }
    }
  }

  /** The rules that extend the state before checking their body. */
  lemma {:induction false} BinderGrows(index: nat, s: State, e: Expr, t: Value, o: Collaborators, fuel: nat)
    requires Monotone(o)
    requires e.ELambda? || e.EDec? || e.EConst?
    ensures Check(index, s, e, t, o, fuel).Ok? ==> Grows(s, Check(index, s, e, t, o, fuel).value)
    decreases fuel, 4, 0
  {
    var r := Check(index, s, e, t, o, fuel);
    if fuel > 0 && r.Ok? {
      match e
      case ELambda(p, _, body) =>
        if t.VPi? {
          var generated := GenerateValue(index);
          var g := o.updateGamma(s.gamma, p, t.domain, generated).value;
          var codomain := Instantiate(t.codomain, generated, fuel).value;
          var s1 := State(g, UpVar(s.env, p, generated));
          CheckGrows(index + 1, s1, body, codomain, o, fuel - 1);
          GrowsTransitive(s, s1, r.value);
        } else {
          FallbackGrows(index, s, e, t, o, fuel);
        }
      case EDec(d, rest) =>
        var s1 := o.declaration(index, s, d).value;
        CheckGrows(index, s1, rest, t, o, fuel - 1);
        GrowsTransitive(s, s1, r.value);
      case EConst(p, body, rest) =>
        var signature := CheckInfer(index, s, body, o, fuel - 1).value;
        var bv := Eval(body, s.env, fuel).value;
        var g := o.updateGamma(s.gamma, p, signature, bv).value;
        var s1 := State(g, UpVar(s.env, p, bv));
        CheckGrows(index, s1, rest, t, o, fuel - 1);
        GrowsTransitive(s, s1, r.value);
    }
  }

  /** Pairs and constructors: the state is that of the last component. */
  lemma {:induction false} IntroductionGrows(index: nat, s: State, e: Expr, t: Value, o: Collaborators, fuel: nat)
    requires Monotone(o)
    requires e.EPair? || e.ECon?
    ensures Check(index, s, e, t, o, fuel).Ok? ==> Grows(s, Check(index, s, e, t, o, fuel).value)
    decreases fuel, 4, 0
  {
    var r := Check(index, s, e, t, o, fuel);
    if fuel > 0 && r.Ok? {
      match e
      case EPair(a, b) =>
        if t.VSigma? {
          var tb := Instantiate(t.codomain, Eval(a, s.env, fuel).value, fuel).value;
          CheckGrows(index, s, b, tb, o, fuel - 1);
        } else {
          FallbackGrows(index, s, e, t, o, fuel);
        }
      case ECon(l, body) =>
        if t.VSum? {
          CheckGrows(index, s, body, ReduceToValue(t.cases[l], fuel).value, o, fuel - 1);
        } else {
          FallbackGrows(index, s, e, t, o, fuel);
        }
    }
  }

  /** The fallback ends in the subtype collaborator, which only grows the
      state. */
  lemma FallbackGrows(index: nat, s: State, e: Expr, t: Value, o: Collaborators, fuel: nat)
    requires Monotone(o)
    ensures CheckFallback(index, s, e, t, o, fuel).Ok? ==> Grows(s, CheckFallback(index, s, e, t, o, fuel).value)
  {
  }

  lemma {:induction false} CheckTypeGrows(index: nat, s: State, e: Expr, o: Collaborators, fuel: nat)
    requires Monotone(o)
    ensures CheckType(index, s, e, o, fuel).Ok? ==> Grows(s, CheckType(index, s, e, o, fuel).value)
    decreases fuel, 5, 0
  {
    if e.ESum? {
      if fuel > 0 { SumTypeChecksEveryPayload(index, s, e.branches, o, fuel); }
    } else if e.EPi? || e.ESigma? {
      CheckTelescopedGrows(index, s, e.pattern, e.domain, e.codomain, o, fuel);
    } else if !(e.EType? || e.EVoid? || e.EOne?) {
      CheckGrows(index, s, e, VType(0), o, fuel);
    }
  }

  lemma {:induction false} CheckTelescopedGrows(index: nat, s: State, p: Pattern, domain: Expr, codomain: Expr,
                                                o: Collaborators, fuel: nat)
    requires Monotone(o)
    ensures CheckTelescoped(index, s, p, domain, codomain, o, fuel).Ok? ==>
      Grows(s, CheckTelescoped(index, s, p, domain, codomain, o, fuel).value)
    decreases fuel, 1, 0
  {
    var r := CheckTelescoped(index, s, p, domain, codomain, o, fuel);
    if fuel > 0 && r.Ok? {
      var dv := Eval(domain, s.env, fuel).value;
      var generated := GenerateValue(index);
      var g := o.updateGamma(s.gamma, p, dv, generated).value;
      var s1 := State(g, UpVar(s.env, p, generated));
      CheckTypeGrows(index + 1, s1, codomain, o, fuel - 1);
      GrowsTransitive(s, s1, r.value);
    }
  }
}
