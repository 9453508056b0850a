/** Properties of the evaluator: projection and name resolution agree with
    a flat map of bindings (innermost frame wins), the fuel bound only cuts
    off divergent runs, and the closure, application and evaluation rules
    behave as stated per shape. */
module EvalProps {
  import opened Labels
  import opened Syntax
  import opened Evaluator

  /** `v` has the pair structure that `p` destructures (a neutral value
      destructures into stuck projections, so it fits every pattern). */
  predicate Fits(p: Pattern, v: Value)
  {
    match p
    case PVar(_) => true
    case PUnit => true
    case PPair(p1, p2) =>
      match v
      case VPair(a, b) => Fits(p1, a) && Fits(p2, b)
      case VNeutral(n) => Fits(p1, VNeutral(NFirst(n))) && Fits(p2, VNeutral(NSecond(n)))
      case _ => false
  }

  /** The names a pattern binds, each mapped to the part of `v` it denotes;
      in a pair pattern the first component wins on a repeated name. */
  function Bindings(p: Pattern, v: Value): map<Name, Value>
    requires Fits(p, v)
  {
    match p
    case PVar(n) => map[n := v]
    case PUnit => map[]
    case PPair(p1, p2) =>
      match v
      case VPair(a, b) => Bindings(p2, b) + Bindings(p1, a)
      case VNeutral(n) => Bindings(p2, VNeutral(NSecond(n))) + Bindings(p1, VNeutral(NFirst(n)))
  }

  /** Projection through a fitting value never fails with a defect: it finds
      exactly the names the pattern binds, with the parts `Bindings` gives. */
  lemma {:induction false} ProjectAgreesWithBindings(p: Pattern, x: Name, v: Value)
    requires Fits(p, v)
    ensures Bindings(p, v).Keys == PatternNames(p)
    ensures x in Bindings(p, v) ==> Project(p, x, v) == Ok(Bindings(p, v)[x])
    ensures x !in Bindings(p, v) ==> Project(p, x, v).Err?
  {
    match p
    case PVar(n) =>
    case PUnit =>
    case PPair(p1, p2) =>
      var a := First(v).value;
      var b := Second(v).value;
      assert Fits(p1, a) && Fits(p2, b);
      ProjectAgreesWithBindings(p1, x, a);
      ProjectAgreesWithBindings(p2, x, b);
      assert Bindings(p, v) == Bindings(p2, b) + Bindings(p1, a);
  }

  /** An environment made only of variable frames whose values fit their
      patterns: the shape the checker builds while it binds variables. */
  predicate VarFrames(env: Telescope)
  {
    match env
    case Nil => true
    case UpDec(_, _) => false
    case UpVar(context, p, v) => Fits(p, v) && VarFrames(context)
  }

  /** The flat map of an environment of variable frames: later (inner)
      frames override earlier (outer) ones. */
  function EnvBindings(env: Telescope): map<Name, Value>
    requires VarFrames(env)
  {
    match env
    case Nil => map[]
    case UpVar(context, p, v) => EnvBindings(context) + Bindings(p, v)
  }

  /** Name resolution is lookup in the flat map: the innermost frame that
      binds the name wins, and a name bound nowhere is an unresolved
      reference; the fuel bound plays no part. */
  lemma {:induction false} ResolveIsLookup(env: Telescope, x: Name, fuel: nat)
    requires VarFrames(env)
    ensures x in EnvBindings(env) ==> Resolve(env, x, fuel) == Ok(EnvBindings(env)[x])
    ensures x !in EnvBindings(env) ==> Resolve(env, x, fuel) == Err(Unresolved(x))
  {
    match env
    case Nil =>
    case UpVar(context, p, v) =>
      ProjectAgreesWithBindings(p, x, v);
      ResolveIsLookup(context, x, fuel);
  }

  /** Shadowing: a variable frame that binds `x` hides every outer binding
      of `x` and projects `x` out of its value; a variable frame that does
      not bind `x` is skipped. */
  lemma ResolveShadowing(env: Telescope, p: Pattern, v: Value, x: Name, fuel: nat)
    ensures Contains(p, x) ==> Resolve(UpVar(env, p, v), x, fuel) == Project(p, x, v)
    ensures !Contains(p, x) ==> Resolve(UpVar(env, p, v), x, fuel) == Resolve(env, x, fuel)
    ensures Resolve(Nil, x, fuel) == Err(Unresolved(x))
  {
  }

  /** The same for a declaration frame: one that does not bind `x` is
      skipped with the same fuel; one that binds `x` hides every outer
      binding, evaluates its body (in an environment that holds the
      declaration itself when it is recursive) and projects `x` out of the
      result. */
  lemma ResolveDeclarationFrame(env: Telescope, d: Declaration, x: Name, fuel: nat)
    ensures !Contains(d.pattern, x) ==> Resolve(UpDec(env, d), x, fuel) == Resolve(env, x, fuel)
    ensures Contains(d.pattern, x) ==>
      Resolve(UpDec(env, d), x, fuel) ==
        (if fuel == 0 then Exhausted
         else
           match Eval(d.body, if d.isRecursive then UpDec(env, d) else env, fuel - 1)
           case Done(body) => Project(d.pattern, x, body)
           case Panic(defect) => Defective(defect)
           case OutOfFuel => Exhausted)
  {
  }

  // Renaming a bound variable. A body that binds nothing and captures no
  // environment (no lambda, former, sum, split or local definition) is
  // evaluated only through lookups, so what matters is which frame a name
  // resolves to, not what the name is.

  /** Bodies that neither bind a name nor capture their environment. */
  predicate BinderFree(e: Expr)
  {
    match e
    case EUnit => true
    case EOne => true
    case EType(_) => true
    case EVoid => true
    case EVar(_) => true
    case EMerge(left, right) => BinderFree(left) && BinderFree(right)
    case EApp(head, argument) => BinderFree(head) && BinderFree(argument)
    case EPair(first, second) => BinderFree(first) && BinderFree(second)
    case EFirst(pair) => BinderFree(pair)
    case ESecond(pair) => BinderFree(pair)
    case ECon(_, payload) => BinderFree(payload)
    case _ => false
  }

  /** Whether the name `y` occurs in a binder-free body. */
  predicate Mentions(e: Expr, y: Name)
    requires BinderFree(e)
  {
    match e
    case EVar(z) => z == y
    case EMerge(left, right) => Mentions(left, y) || Mentions(right, y)
    case EApp(head, argument) => Mentions(head, y) || Mentions(argument, y)
    case EPair(first, second) => Mentions(first, y) || Mentions(second, y)
    case EFirst(pair) => Mentions(pair, y)
    case ESecond(pair) => Mentions(pair, y)
    case ECon(_, payload) => Mentions(payload, y)
    case _ => false
  }

  /** Every occurrence of `x` in a binder-free body replaced by `y`. */
  function Rename(e: Expr, x: Name, y: Name): (r: Expr)
    requires BinderFree(e)
    ensures BinderFree(r)
    ensures x != y ==> !Mentions(r, x)
    ensures Mentions(e, x) ==> Mentions(r, y)
  {
    match e
    case EVar(z) => if z == x then EVar(y) else e
    case EMerge(left, right) => EMerge(Rename(left, x, y), Rename(right, x, y))
    case EApp(head, argument) => EApp(Rename(head, x, y), Rename(argument, x, y))
    case EPair(first, second) => EPair(Rename(first, x, y), Rename(second, x, y))
    case EFirst(pair) => EFirst(Rename(pair, x, y))
    case ESecond(pair) => ESecond(Rename(pair, x, y))
    case ECon(l, payload) => ECon(l, Rename(payload, x, y))
    case _ => e
  }

  /** Renaming the variable a frame binds, together with its occurrences in
      a binder-free body, leaves evaluation unchanged, as long as the new
      name was not already used in the body. */
  lemma {:induction false} EvalRenamed(e: Expr, x: Name, y: Name, env: Telescope, v: Value, fuel: nat)
    requires BinderFree(e) && (x == y || !Mentions(e, y))
    ensures Eval(Rename(e, x, y), UpVar(env, PVar(y), v), fuel) == Eval(e, UpVar(env, PVar(x), v), fuel)
    decreases e, 1
  {
    var env1, env2 := UpVar(env, PVar(x), v), UpVar(env, PVar(y), v);
    if fuel > 0 {
      match e
      case EVar(z) =>
        ResolveShadowing(env, PVar(x), v, z, fuel - 1);
        ResolveShadowing(env, PVar(y), v, Rename(e, x, y).name, fuel - 1);
      case EMerge(_, _) => BinaryRenamed(e, x, y, env, v, fuel);
      case EApp(_, _) => BinaryRenamed(e, x, y, env, v, fuel);
      case EPair(_, _) => BinaryRenamed(e, x, y, env, v, fuel);
      case EFirst(_) => UnaryRenamed(e, x, y, env, v, fuel);
      case ESecond(_) => UnaryRenamed(e, x, y, env, v, fuel);
      case ECon(_, _) => UnaryRenamed(e, x, y, env, v, fuel);
      case EUnit => LeafEval(e, env1, env2, fuel);
      case EOne => LeafEval(e, env1, env2, fuel);
      case EType(_) => LeafEval(e, env1, env2, fuel);
      case EVoid => LeafEval(e, env1, env2, fuel);
      case _ =>
    }
  }

  /** `EvalRenamed` for the two-part terms. */
  lemma {:induction false} BinaryRenamed(e: Expr, x: Name, y: Name, env: Telescope, v: Value, fuel: nat)
    requires e.EMerge? || e.EApp? || e.EPair?
    requires fuel > 0 && BinderFree(e) && (x == y || !Mentions(e, y))
    ensures Eval(Rename(e, x, y), UpVar(env, PVar(y), v), fuel) == Eval(e, UpVar(env, PVar(x), v), fuel)
    decreases e, 0
  {
    var a, b := if e.EMerge? then e.left else if e.EApp? then e.head else e.first,
                if e.EMerge? then e.right else if e.EApp? then e.argument else e.second;
    EvalRenamed(a, x, y, env, v, fuel - 1);
    EvalRenamed(b, x, y, env, v, fuel - 1);
    var env1, env2 := UpVar(env, PVar(x), v), UpVar(env, PVar(y), v);
    if e.EMerge? {
      MergeEvalCongruence(a, b, Rename(a, x, y), Rename(b, x, y), env1, env2, fuel);
    } else if e.EApp? {
      AppEvalCongruence(a, b, Rename(a, x, y), Rename(b, x, y), env1, env2, fuel);
    } else {
      PairEvalCongruence(a, b, Rename(a, x, y), Rename(b, x, y), env1, env2, fuel);
    }
  }

  /** `EvalRenamed` for the one-part terms. */
  lemma {:induction false} UnaryRenamed(e: Expr, x: Name, y: Name, env: Telescope, v: Value, fuel: nat)
    requires e.EFirst? || e.ESecond? || e.ECon?
    requires fuel > 0 && BinderFree(e) && (x == y || !Mentions(e, y))
    ensures Eval(Rename(e, x, y), UpVar(env, PVar(y), v), fuel) == Eval(e, UpVar(env, PVar(x), v), fuel)
    decreases e, 0
  {
    var a := if e.EFirst? then e.pair else if e.ESecond? then e.pair else e.payload;
    var env1, env2 := UpVar(env, PVar(x), v), UpVar(env, PVar(y), v);
    EvalRenamed(a, x, y, env, v, fuel - 1);
    if e.ECon? {
      ConEvalCongruence(e.ctor, a, Rename(a, x, y), env1, env2, fuel);
    } else {
      ProjectionEvalCongruence(a, Rename(a, x, y), env1, env2, fuel);
    }
  }

  /** Literals evaluate the same way in every environment. */
  lemma LeafEval(e: Expr, env1: Telescope, env2: Telescope, fuel: nat)
    requires e.EUnit? || e.EOne? || e.EType? || e.EVoid?
    ensures Eval(e, env1, fuel) == Eval(e, env2, fuel)
  {
  }

  // Evaluation of a compound binder-free term depends only on what its
  // parts evaluate to.

  lemma MergeEvalCongruence(a1: Expr, b1: Expr, a2: Expr, b2: Expr, env1: Telescope, env2: Telescope, fuel: nat)
    requires fuel > 0
    requires Eval(a1, env1, fuel - 1) == Eval(a2, env2, fuel - 1)
    requires Eval(b1, env1, fuel - 1) == Eval(b2, env2, fuel - 1)
    ensures Eval(EMerge(a1, b1), env1, fuel) == Eval(EMerge(a2, b2), env2, fuel)
  {
  }

  lemma AppEvalCongruence(a1: Expr, b1: Expr, a2: Expr, b2: Expr, env1: Telescope, env2: Telescope, fuel: nat)
    requires fuel > 0
    requires Eval(a1, env1, fuel - 1) == Eval(a2, env2, fuel - 1)
    requires Eval(b1, env1, fuel - 1) == Eval(b2, env2, fuel - 1)
    ensures Eval(EApp(a1, b1), env1, fuel) == Eval(EApp(a2, b2), env2, fuel)
  {
  }

  lemma PairEvalCongruence(a1: Expr, b1: Expr, a2: Expr, b2: Expr, env1: Telescope, env2: Telescope, fuel: nat)
    requires fuel > 0
    requires Eval(a1, env1, fuel - 1) == Eval(a2, env2, fuel - 1)
    requires Eval(b1, env1, fuel - 1) == Eval(b2, env2, fuel - 1)
    ensures Eval(EPair(a1, b1), env1, fuel) == Eval(EPair(a2, b2), env2, fuel)
  {
  }

  lemma ProjectionEvalCongruence(a1: Expr, a2: Expr, env1: Telescope, env2: Telescope, fuel: nat)
    requires fuel > 0
    requires Eval(a1, env1, fuel - 1) == Eval(a2, env2, fuel - 1)
    ensures Eval(EFirst(a1), env1, fuel) == Eval(EFirst(a2), env2, fuel)
    ensures Eval(ESecond(a1), env1, fuel) == Eval(ESecond(a2), env2, fuel)
  {
  }

  lemma ConEvalCongruence(l: Label, a1: Expr, a2: Expr, env1: Telescope, env2: Telescope, fuel: nat)
    requires fuel > 0
    requires Eval(a1, env1, fuel - 1) == Eval(a2, env2, fuel - 1)
    ensures Eval(ECon(l, a1), env1, fuel) == Eval(ECon(l, a2), env2, fuel)
  {
  }

  // Fuel monotonicity: a run that finishes within some fuel gives the same
  // answer with any larger fuel, so the bound only cuts off divergence.

  lemma {:induction false} EvalFuelMonotone(e: Expr, env: Telescope, f: nat, g: nat)
    requires f <= g && !Eval(e, env, f).OutOfFuel?
    ensures Eval(e, env, g) == Eval(e, env, f)
    decreases f, 1
  {
    match e
    case EVar(x) =>
      ResolveFuelMonotone(env, x, f - 1, g - 1);
    case EMerge(_, _) =>
      SequencedFuelMonotone(e, env, f, g);
    case EPi(_, domain, _) =>
      EvalFuelMonotone(domain, env, f - 1, g - 1);
    case ESigma(_, domain, _) =>
      EvalFuelMonotone(domain, env, f - 1, g - 1);
    case EFirst(pair) =>
      EvalFuelMonotone(pair, env, f - 1, g - 1);
    case ESecond(pair) =>
      EvalFuelMonotone(pair, env, f - 1, g - 1);
    case EApp(_, _) =>
      SequencedFuelMonotone(e, env, f, g);
    case EPair(_, _) =>
      SequencedFuelMonotone(e, env, f, g);
    case ECon(_, payload) =>
      EvalFuelMonotone(payload, env, f - 1, g - 1);
    case EDec(declaration, rest) =>
      EvalFuelMonotone(rest, UpDec(env, declaration), f - 1, g - 1);
    case EConst(_, _, _) =>
      SequencedFuelMonotone(e, env, f, g);
    case _ =>
  }

  /** The forms that evaluate one part after another. */
  lemma {:induction false} SequencedFuelMonotone(e: Expr, env: Telescope, f: nat, g: nat)
    requires e.EMerge? || e.EApp? || e.EPair? || e.EConst?
    requires f <= g && !Eval(e, env, f).OutOfFuel?
    ensures Eval(e, env, g) == Eval(e, env, f)
    decreases f, 0
  {
    match e
    case EMerge(left, right) =>
      EvalFuelMonotone(left, env, f - 1, g - 1);
      if Eval(left, env, f - 1).Done? && Eval(left, env, f - 1).value.VSum? {
        EvalFuelMonotone(right, env, f - 1, g - 1);
      }
    case EApp(head, argument) =>
      EvalFuelMonotone(head, env, f - 1, g - 1);
      if Eval(head, env, f - 1).Done? {
        EvalFuelMonotone(argument, env, f - 1, g - 1);
        if Eval(argument, env, f - 1).Done? {
          ApplyFuelMonotone(Eval(head, env, f - 1).value, Eval(argument, env, f - 1).value, f - 1, g - 1);
        }
      }
    case EPair(first, second) =>
      EvalFuelMonotone(first, env, f - 1, g - 1);
      if Eval(first, env, f - 1).Done? {
        EvalFuelMonotone(second, env, f - 1, g - 1);
      }
    case EConst(pattern, body, rest) =>
      EvalFuelMonotone(body, env, f - 1, g - 1);
      if Eval(body, env, f - 1).Done? {
        EvalFuelMonotone(rest, UpVar(env, pattern, Eval(body, env, f - 1).value), f - 1, g - 1);
      }
  }

  lemma {:induction false} ResolveFuelMonotone(env: Telescope, x: Name, f: nat, g: nat)
    requires f <= g && !Resolve(env, x, f).Exhausted?
    ensures Resolve(env, x, g) == Resolve(env, x, f)
    decreases f, Depth(env)
  {
    match env
    case Nil =>
    case UpDec(context, declaration) =>
      if Contains(declaration.pattern, x) {
        var bodyEnv := if declaration.isRecursive then UpDec(context, declaration) else context;
        EvalFuelMonotone(declaration.body, bodyEnv, f - 1, g - 1);
      } else {
        ResolveFuelMonotone(context, x, f, g);
      }
    case UpVar(context, pattern, v) =>
      if !Contains(pattern, x) {
        ResolveFuelMonotone(context, x, f, g);
      }
  }

  lemma {:induction false} InstantiateFuelMonotone(c: Closure, arg: Value, f: nat, g: nat)
    requires f <= g && !Instantiate(c, arg, f).OutOfFuel?
    ensures Instantiate(c, arg, g) == Instantiate(c, arg, f)
    decreases f, 0
  {
    match c
    case CAbs(pattern, _, body, env) =>
      EvalFuelMonotone(body, UpVar(env, pattern, arg), f - 1, g - 1);
    case CValue(_) =>
    case CChoice(inner, l) =>
      InstantiateFuelMonotone(inner, VCon(l, arg), f - 1, g - 1);
  }

  lemma {:induction false} ApplyFuelMonotone(fn: Value, arg: Value, f: nat, g: nat)
    requires f <= g && !Apply(fn, arg, f).OutOfFuel?
    ensures Apply(fn, arg, g) == Apply(fn, arg, f)
    decreases f, 0
  {
    match fn
    case VLambda(c) =>
      InstantiateFuelMonotone(c, arg, f - 1, g - 1);
    case VSplit(cases) =>
      if arg.VCon? && arg.ctor in cases {
        var branch := cases[arg.ctor];
        EvalFuelMonotone(branch.body, branch.env, f - 1, g - 1);
        if ReduceToValue(branch, f - 1).Done? {
          ApplyFuelMonotone(ReduceToValue(branch, f - 1).value, arg.payload, f - 1, g - 1);
        }
      }
    case _ =>
  }

  /** The three closure shapes: an abstraction evaluates its body with the
      pattern bound to the argument, a plain value ignores the argument, and
      a choice tags the argument with its label before instantiating. */
  lemma ClosureShapes(c: Closure, arg: Value, fuel: nat)
    requires fuel > 0
    ensures c.CAbs? ==> Instantiate(c, arg, fuel) == Eval(c.body, UpVar(c.env, c.pattern, arg), fuel - 1)
    ensures c.CValue? ==> Instantiate(c, arg, fuel) == Done(c.value)
    ensures c.CChoice? ==> Instantiate(c, arg, fuel) == Instantiate(c.inner, VCon(c.ctor, arg), fuel - 1)
  {
  }

  /** Projections reduce a pair to its components and turn a neutral into a
      stuck projection. */
  lemma ProjectionShapes(v: Value)
    ensures v.VPair? ==> First(v) == Done(v.first) && Second(v) == Done(v.second)
    ensures v.VNeutral? ==> First(v) == Done(VNeutral(NFirst(v.neutral)))
    ensures v.VNeutral? ==> Second(v) == Done(VNeutral(NSecond(v.neutral)))
    ensures !v.VPair? && !v.VNeutral? ==> First(v).Panic? && Second(v).Panic?
  {
  }

  /** Application by the shape of the function: a lambda instantiates its
      closure, a case split dispatches on the constructor label (or gets
      stuck on a neutral argument), and a neutral function gets stuck with
      the argument unchanged. */
  lemma ApplyShapes(fn: Value, arg: Value, fuel: nat)
    requires fuel > 0
    ensures fn.VLambda? ==> Apply(fn, arg, fuel) == Instantiate(fn.closure, arg, fuel - 1)
    ensures fn.VSplit? && arg.VCon? && arg.ctor in fn.cases ==>
      Apply(fn, arg, fuel) ==
        (match ReduceToValue(fn.cases[arg.ctor], fuel - 1)
         case Done(branch) => Apply(branch, arg.payload, fuel - 1)
         case Panic(d) => Panic(d)
         case OutOfFuel => OutOfFuel)
    ensures fn.VSplit? && arg.VCon? && arg.ctor !in fn.cases ==>
      Apply(fn, arg, fuel) == Panic(MissingBranch(arg.ctor))
    ensures fn.VSplit? && arg.VNeutral? ==> Apply(fn, arg, fuel) == Done(VNeutral(NSplit(fn.cases, arg.neutral)))
    ensures fn.VNeutral? ==> Apply(fn, arg, fuel) == Done(VNeutral(NApp(fn.neutral, arg)))
    ensures fn.VSplit? && !arg.VCon? && !arg.VNeutral? ==> Apply(fn, arg, fuel) == Panic(CannotSplitOn(arg))
    ensures !fn.VLambda? && !fn.VSplit? && !fn.VNeutral? ==> Apply(fn, arg, fuel) == Panic(CannotApply(fn))
  {
  }

  /** A variable evaluates to what resolving it gives: a name that no frame
      binds is the unresolved-reference defect, a defect met while resolving
      is passed on. */
  lemma EvalVariable(env: Telescope, x: Name, fuel: nat)
    requires fuel > 0
    ensures x !in EnvNames(env) ==> Eval(EVar(x), env, fuel) == Panic(UnresolvedReference(Unresolved(x)))
    ensures Resolve(env, x, fuel - 1).Ok? ==> Eval(EVar(x), env, fuel) == Done(Resolve(env, x, fuel - 1).value)
    ensures Resolve(env, x, fuel - 1).Defective? ==> Eval(EVar(x), env, fuel) == Panic(Resolve(env, x, fuel - 1).defect)
  {
  }

  /** Lambdas and case splits close over the current environment without
      evaluating anything; a declaration evaluates the rest of the term with
      the declaration pushed as a frame. */
  lemma EvalClosures(e: Expr, env: Telescope, fuel: nat)
    requires fuel > 0
    ensures e.ELambda? ==> Eval(e, env, fuel) == Done(VLambda(CAbs(e.pattern, e.annotation, e.body, env)))
    ensures e.ESplit? ==> Eval(e, env, fuel) == Done(VSplit(BranchToRighted(e.branches, env)))
    ensures e.EDec? ==> Eval(e, env, fuel) == Eval(e.rest, UpDec(env, e.declaration), fuel - 1)
  {
  }

  /** A pair evaluates both components, left first; the first defect met is
      the result. */
  lemma EvalPair(first: Expr, second: Expr, env: Telescope, fuel: nat)
    requires fuel > 0
    ensures
      var a := Eval(first, env, fuel - 1);
      var b := Eval(second, env, fuel - 1);
      var r := Eval(EPair(first, second), env, fuel);
      && (r.Done? <==> a.Done? && b.Done?)
      && (r.Done? ==> r.value == VPair(a.value, b.value))
      && (a.Panic? ==> r == Panic(a.defect))
      && (a.Done? && b.Panic? ==> r == Panic(b.defect))
  {
  }

  /** A projection evaluates the pair and then projects its value. */
  lemma EvalProjections(pair: Expr, env: Telescope, fuel: nat)
    requires fuel > 0
    ensures
      var p := Eval(pair, env, fuel - 1);
      && (p.Done? ==> Eval(EFirst(pair), env, fuel) == First(p.value))
      && (p.Done? ==> Eval(ESecond(pair), env, fuel) == Second(p.value))
      && (p.Panic? ==> Eval(EFirst(pair), env, fuel) == Panic(p.defect))
      && (p.Panic? ==> Eval(ESecond(pair), env, fuel) == Panic(p.defect))
  {
  }

  /** A constructor evaluates its payload and tags it with its label. */
  lemma EvalConstructor(l: Label, payload: Expr, env: Telescope, fuel: nat)
    requires fuel > 0
    ensures
      var v := Eval(payload, env, fuel - 1);
      var r := Eval(ECon(l, payload), env, fuel);
      && (r.Done? <==> v.Done?)
      && (r.Done? ==> r.value == VCon(l, v.value))
      && (v.Panic? ==> r == Panic(v.defect))
  {
  }

  /** An application evaluates the head, then the argument, then applies;
      the first defect met is the result. */
  lemma EvalApplication(head: Expr, argument: Expr, env: Telescope, fuel: nat)
    requires fuel > 0
    ensures
      var f := Eval(head, env, fuel - 1);
      var a := Eval(argument, env, fuel - 1);
      var r := Eval(EApp(head, argument), env, fuel);
      && (f.Done? && a.Done? ==> r == Apply(f.value, a.value, fuel - 1))
      && (f.Panic? ==> r == Panic(f.defect))
      && (f.Done? && a.Panic? ==> r == Panic(a.defect))
  {
  }

  /** A constant definition evaluates its body and then the rest of the
      term with the pattern bound to the body's value. */
  lemma EvalConstant(pattern: Pattern, body: Expr, rest: Expr, env: Telescope, fuel: nat)
    requires fuel > 0
    ensures
      var v := Eval(body, env, fuel - 1);
      var r := Eval(EConst(pattern, body, rest), env, fuel);
      && (v.Done? ==> r == Eval(rest, UpVar(env, pattern, v.value), fuel - 1))
      && (v.Panic? ==> r == Panic(v.defect))
  {
  }

  /** Literals evaluate to the matching values, type formers get level 0,
      and the empty type has no evaluation rule. */
  lemma EvalLiterals(env: Telescope, fuel: nat, l: nat)
    requires fuel > 0
    ensures Eval(EUnit, env, fuel) == Done(VUnit)
    ensures Eval(EOne, env, fuel) == Done(VOne)
    ensures Eval(EType(l), env, fuel) == Done(VType(l))
    ensures Eval(EVoid, env, fuel) == Panic(CannotEval(EVoid))
  {
  }

  /** Sum, Pi and Sigma formers always evaluate to level 0; Pi and Sigma
      close their codomain over the current environment, with the evaluated
      domain as the hint. */
  lemma FormerLevels(e: Expr, env: Telescope, fuel: nat)
    requires (e.ESum? || e.EPi? || e.ESigma?) && Eval(e, env, fuel).Done?
    ensures LevelSafe(Eval(e, env, fuel).value) == SomeLevel(0)
    ensures e.ESum? ==> Eval(e, env, fuel).value == VSum(BranchToRighted(e.branches, env), 0)
    ensures e.EPi? ==>
      var d := Eval(e.domain, env, fuel - 1).value;
      Eval(e, env, fuel).value == VPi(d, CAbs(e.pattern, Some(d), e.codomain, env), 0)
    ensures e.ESigma? ==>
      var d := Eval(e.domain, env, fuel - 1).value;
      Eval(e, env, fuel).value == VSigma(d, CAbs(e.pattern, Some(d), e.codomain, env), 0)
  {
  }

  /** A merge evaluates both operands to sums; the result has every label
      of either operand, the right operand's branch on a shared label, and
      the larger of the two levels. */
  lemma MergeUnion(left: Expr, right: Expr, env: Telescope, fuel: nat)
    requires Eval(EMerge(left, right), env, fuel).Done?
    ensures Eval(left, env, fuel - 1).Done? && Eval(left, env, fuel - 1).value.VSum?
    ensures Eval(right, env, fuel - 1).Done? && Eval(right, env, fuel - 1).value.VSum?
    ensures
      var l := Eval(left, env, fuel - 1).value;
      var r := Eval(right, env, fuel - 1).value;
      var m := Eval(EMerge(left, right), env, fuel).value;
      && m.VSum?
      && m.cases.Keys == l.cases.Keys + r.cases.Keys
      && (forall k :: k in r.cases ==> m.cases[k] == r.cases[k])
      && (forall k :: k in l.cases && k !in r.cases ==> m.cases[k] == l.cases[k])
      && m.level >= l.level && m.level >= r.level
      && (m.level == l.level || m.level == r.level)
  {
  }
}
