/** The bidirectional checker of Mini-TT: inference (`checkI`), type
    formation (`checkT`) and instance checking (`check`), with the sum-type,
    Pi/Sigma-former and exhaustive case-split rules and the
    infer-then-subtype fallback.

    The checker evaluates terms to substitute into dependent types, so it
    inherits the evaluator's possible divergence: every rule takes a `fuel`
    bound. A step that re-examines the same term under another rule keeps the
    fuel and lowers a rank; a step into a sub-term spends one unit. Subtyping,
    declaration checking and the extension of Gamma along a pattern are not
    part of this model: they are supplied as a `Collaborators` record and left
    uninterpreted. */
module Checker {
  import opened Labels
  import opened Syntax
  import opened Evaluator
  import opened ReadBack

  /** Gamma: the types of the bound names. */
  type Gamma = map<Name, Value>

  /** The checking state threaded through every rule. */
  datatype State = State(gamma: Gamma, env: Telescope)

  /** Typing errors, kept apart from the evaluator's defects. */
  datatype TypeError =
    | UnresolvedName(name: Name)
    | WantSigmaBut(found: Value)
    | WantPiBut(found: Value, argument: Expr)
    | CannotInfer(term: Expr)
    | InvalidConstructor(ctor: Label)
    | MissingCase(ctor: Label)
    | UnexpectedCases(clauses: string)
    | Unreachable
    | Rejected(reason: string)

  /** The operations the checker calls but which are not modelled: subtyping,
      checking a local declaration, and extending Gamma along a pattern. */
  datatype Collaborators = Collaborators(
    subtype: (nat, State, Value, Value) -> Outcome<State, TypeError>,
    declaration: (nat, State, Declaration) -> Outcome<State, TypeError>,
    updateGamma: (Gamma, Pattern, Value, Value) -> Outcome<Gamma, TypeError>)

  /** Labels joined by `" | "`, as the unexpected-cases error lists them. */
  function JoinLabels(labels: seq<Label>): string
  {
    if |labels| == 0 then ""
    else if |labels| == 1 then labels[0]
    else labels[0] + " | " + JoinLabels(labels[1..])
  }

  /** `checkI`: synthesise the type of a term. */
  function CheckInfer(index: nat, s: State, e: Expr, o: Collaborators, fuel: nat): Outcome<Value, TypeError>
    decreases fuel, 2, 0
  {
    if fuel == 0 then Exhausted
    else
      match e
      case EUnit => Ok(VOne)
      case EType(_) => Ok(VType(0))
      case EVoid => Ok(VType(0))
      case EOne => Ok(VType(0))
      case EVar(x) => if x in s.gamma then Ok(s.gamma[x]) else Err(UnresolvedName(x))
      case ECon(l, payload) =>
        var t :- CheckInfer(index, s, payload, o, fuel - 1);
        Ok(VInferredSum(map[l := t]))
      case EPair(a, b) =>
        var ta :- CheckInfer(index, s, a, o, fuel - 1);
        var tb :- CheckInfer(index, s, b, o, fuel - 1);
        Ok(VSigma(ta, CValue(tb), 0))
      case EFirst(pair) =>
        var t :- CheckInfer(index, s, pair, o, fuel - 1);
        if t.VSigma? then Ok(t.domain) else Err(WantSigmaBut(t))
      case ESecond(pair) =>
        var t :- CheckInfer(index, s, pair, o, fuel - 1);
        if t.VSigma? then
          var pv :- Lift(Eval(pair, s.env, fuel));
          var first :- Lift(First(pv));
          Lift(Instantiate(t.codomain, first, fuel))
        else Err(WantSigmaBut(t))
      case ESum(branches) =>
        var _ :- CheckSumType(index, s, branches, o, fuel);
        Ok(VType(0))
      case EPi(p, domain, codomain) => InferFormer(index, s, p, domain, codomain, o, fuel)
      case ESigma(p, domain, codomain) => InferFormer(index, s, p, domain, codomain, o, fuel)
      case EApp(ELambda(p, Some(t), body), argument) =>
        var _ :- Check(index, s, argument, t, o, fuel - 1);
        var generated := GenerateValue(index + 1);
        var g :- o.updateGamma(s.gamma, p, t, generated);
        CheckInfer(index + 1, State(g, UpVar(s.env, p, generated)), body, o, fuel - 1)
      case EApp(head, argument) =>
        var ft :- CheckInfer(index, s, head, o, fuel - 1);
        if ft.VPi? then
          var _ :- Check(index, s, argument, ft.domain, o, fuel - 1);
          var av :- Lift(Eval(argument, s.env, fuel));
          Lift(Instantiate(ft.codomain, av, fuel))
        else Err(WantPiBut(ft, argument))
      case EDec(_, _) => Err(Unreachable)
      case EConst(_, _, _) => Err(Unreachable)
      case _ => Err(CannotInfer(e))
  }

  /** Inference of a Pi or Sigma former: the domain must be a type, and the
      codomain must be a type once the pattern is typed at the domain in
      Gamma. The environment is not extended with the pattern here. */
  function InferFormer(index: nat, s: State, p: Pattern, domain: Expr, codomain: Expr,
                       o: Collaborators, fuel: nat): Outcome<Value, TypeError>
    decreases fuel, 1, 0
  {
    if fuel == 0 then Exhausted
    else
      var s1 :- CheckType(index, s, domain, o, fuel - 1);
      var dv :- Lift(Eval(domain, s1.env, fuel));
      var g :- o.updateGamma(s1.gamma, p, dv, GenerateValue(index));
      var _ :- CheckType(index + 1, State(g, s1.env), codomain, o, fuel - 1);
      Ok(VType(0))
  }

  /** `checkT`: the term is a well-formed type. */
  function CheckType(index: nat, s: State, e: Expr, o: Collaborators, fuel: nat): Outcome<State, TypeError>
    decreases fuel, 5, 0
  {
    match e
    case ESum(branches) => CheckSumType(index, s, branches, o, fuel)
    case EPi(p, domain, codomain) => CheckTelescoped(index, s, p, domain, codomain, o, fuel)
    case ESigma(p, domain, codomain) => CheckTelescoped(index, s, p, domain, codomain, o, fuel)
    case EType(_) => Ok(s)
    case EVoid => Ok(s)
    case EOne => Ok(s)
    case _ => Check(index, s, e, VType(0), o, fuel)
  }

  /** `check`: the term has the expected type. Each term shape has at most
      one structural rule, selected by the shape of the expected type; a term
      whose rule does not apply falls back to inference followed by
      subtyping. */
  function Check(index: nat, s: State, e: Expr, t: Value, o: Collaborators, fuel: nat): Outcome<State, TypeError>
    decreases fuel, 4, 0
  {
    if fuel == 0 then Exhausted
    else
      match e
      case EUnit => if t.VOne? then Ok(s) else CheckFallback(index, s, e, t, o, fuel)
      case EType(_) => if t.VType? then Ok(s) else CheckFallback(index, s, e, t, o, fuel)
      case EOne => if t.VType? then Ok(s) else CheckFallback(index, s, e, t, o, fuel)
      case EVoid => Ok(s)
      case ELambda(p, _, body) =>
        if t.VPi? then
          var generated := GenerateValue(index);
          var g :- o.updateGamma(s.gamma, p, t.domain, generated);
          var codomain :- Lift(Instantiate(t.codomain, generated, fuel));
          Check(index + 1, State(g, UpVar(s.env, p, generated)), body, codomain, o, fuel - 1)
        else CheckFallback(index, s, e, t, o, fuel)
      case EPair(a, b) =>
        if t.VSigma? then
          var _ :- Check(index, s, a, t.domain, o, fuel - 1);
          var av :- Lift(Eval(a, s.env, fuel));
          var tb :- Lift(Instantiate(t.codomain, av, fuel));
          Check(index, s, b, tb, o, fuel - 1)
        else CheckFallback(index, s, e, t, o, fuel)
      case ECon(l, body) =>
        if t.VSum? then
          if l !in t.cases then Err(InvalidConstructor(l))
          else
            var payloadType :- Lift(ReduceToValue(t.cases[l], fuel));
            Check(index, s, body, payloadType, o, fuel - 1)
        else CheckFallback(index, s, e, t, o, fuel)
      case ESum(branches) =>
        if t.VType? then CheckSumType(index, s, branches, o, fuel)
        else CheckFallback(index, s, e, t, o, fuel)
      case ESigma(p, domain, codomain) =>
        if t.VType? then CheckTelescoped(index, s, p, domain, codomain, o, fuel)
        else CheckFallback(index, s, e, t, o, fuel)
      case EPi(p, domain, codomain) =>
        if t.VType? then CheckTelescoped(index, s, p, domain, codomain, o, fuel)
        else CheckFallback(index, s, e, t, o, fuel)
      case EDec(d, rest) =>
        var s1 :- o.declaration(index, s, d);
        Check(index, s1, rest, t, o, fuel - 1)
      case EConst(p, body, rest) =>
        var signature :- CheckInfer(index, s, body, o, fuel - 1);
        var bv :- Lift(Eval(body, s.env, fuel));
        var g :- o.updateGamma(s.gamma, p, signature, bv);
        Check(index, State(g, UpVar(s.env, p, bv)), rest, t, o, fuel - 1)
      case ESplit(branches) =>
        if t.VPi? && t.domain.VSum? then CheckSplit(index, s, t.domain.cases, branches, t.codomain, o, fuel)
        else CheckFallback(index, s, e, t, o, fuel)
      case _ => CheckFallback(index, s, e, t, o, fuel)
  }

  /** Infer the type of the term, then ask for it to be a subtype of the
      expected one. */
  function CheckFallback(index: nat, s: State, e: Expr, t: Value, o: Collaborators, fuel: nat): Outcome<State, TypeError>
    decreases fuel, 3, 0
  {
    var inferred :- CheckInfer(index, s, e, o, fuel);
    o.subtype(index, s, inferred, t)
  }

  /** A sum former is a type when every payload is, checked in key order. */
  function CheckSumType(index: nat, s: State, branches: map<Label, Expr>, o: Collaborators, fuel: nat): Outcome<State, TypeError>
    decreases fuel, 1, 0
  {
    if fuel == 0 then Exhausted
    else CheckPayloads(index, s, SortedLabels(branches.Keys), branches, o, fuel - 1)
  }

  /** Check the payloads named by `labels`, in that order, each under the
      original state; the first failure is the answer. */
  function CheckPayloads(index: nat, s: State, labels: seq<Label>, branches: map<Label, Expr>,
                         o: Collaborators, fuel: nat): Outcome<State, TypeError>
    requires forall l :: l in labels ==> l in branches
    decreases fuel, 6, |labels|
  {
    if labels == [] then Ok(s)
    else
      var _ :- CheckType(index, s, branches[labels[0]], o, fuel);
      CheckPayloads(index, s, labels[1..], branches, o, fuel)
  }

  /** A Pi or Sigma former is a type when its domain is one and its codomain
      is one with the pattern bound to a fresh placeholder in both Gamma and
      the environment. */
  function CheckTelescoped(index: nat, s: State, p: Pattern, domain: Expr, codomain: Expr,
                           o: Collaborators, fuel: nat): Outcome<State, TypeError>
    decreases fuel, 1, 0
  {
    if fuel == 0 then Exhausted
    else
      var _ :- CheckType(index, s, domain, o, fuel - 1);
      var dv :- Lift(Eval(domain, s.env, fuel));
      var generated := GenerateValue(index);
      var g :- o.updateGamma(s.gamma, p, dv, generated);
      CheckType(index + 1, State(g, UpVar(s.env, p, generated)), codomain, o, fuel - 1)
  }

  /** The exhaustive case-split rule against `Pi(Sum(sum), c)`. */
  function CheckSplit(index: nat, s: State, sum: CaseTree, branches: map<Label, Expr>, c: Closure,
                      o: Collaborators, fuel: nat): Outcome<State, TypeError>
    decreases fuel, 1, 0
  {
    if fuel == 0 then Exhausted
    else CheckCases(index, s, SortedLabels(sum.Keys), branches, sum, c, o, fuel - 1)
  }

  /** Walk the sum labels in `labels`, consuming the matching branch from
      `remaining` and checking it against `Pi(payload type, Choice(c, l))`;
      a label without a branch is a missing case, and branches left over at
      the end are unexpected cases, listed in key order. */
  function CheckCases(index: nat, s: State, labels: seq<Label>, remaining: map<Label, Expr>,
                      sum: CaseTree, c: Closure, o: Collaborators, fuel: nat): Outcome<State, TypeError>
    requires forall l :: l in labels ==> l in sum
    decreases fuel, 6, |labels|
  {
    if labels == [] then
      if |remaining| == 0 then Ok(s)
      else Err(UnexpectedCases(JoinLabels(SortedLabels(remaining.Keys))))
    else
      var l := labels[0];
      if l !in remaining then Err(MissingCase(l))
      else
        var payloadType :- Lift(ReduceToValue(sum[l], fuel));
        var _ :- Check(index, s, remaining[l], VPi(payloadType, CChoice(c, l), 0), o, fuel);
        CheckCases(index, s, labels[1..], remaining - {l}, sum, c, o, fuel)
  }
}
