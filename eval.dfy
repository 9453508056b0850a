/** The evaluator (`inPat`, `patProj`, `getRho`, closure instantiation,
    `vfst`/`vsnd`, `app` and `eval` of Mini-TT), with the universe-level
    helpers.

    Evaluation need not terminate (a recursive declaration re-evaluates its
    body in an environment that contains itself), so every function of the
    mutually recursive group takes a `fuel` bound and answers `OutOfFuel`
    when it is spent. */
module Evaluator {
  import opened Labels
  import opened Syntax

  /** The names bound by a pattern (reference definition for `Contains`). */
  function PatternNames(p: Pattern): set<Name>
  {
    match p
    case PVar(n) => {n}
    case PPair(first, second) => PatternNames(first) + PatternNames(second)
    case PUnit => {}
  }

  /** `inPat`: whether the pattern binds `x`. */
  function Contains(p: Pattern, x: Name): (r: bool)
    ensures r <==> x in PatternNames(p)
  {
    match p
    case PVar(n) => n == x
    case PPair(first, second) => Contains(first, x) || Contains(second, x)
    case PUnit => false
  }

  /** `vfst`: the first component of a pair, stuck on a neutral. */
  function First(v: Value): (r: Run<Value>)
    ensures r.Done? <==> v.VPair? || v.VNeutral?
    ensures v.VPair? ==> r == Done(v.first)
    ensures v.VNeutral? ==> r == Done(VNeutral(NFirst(v.neutral)))
    ensures r.Panic? ==> r.defect == CannotFirst(v)
    ensures !r.OutOfFuel?
  {
    match v
    case VPair(a, _) => Done(a)
    case VNeutral(n) => Done(VNeutral(NFirst(n)))
    case _ => Panic(CannotFirst(v))
  }

  /** `vsnd`: the second component of a pair, stuck on a neutral. */
  function Second(v: Value): (r: Run<Value>)
    ensures r.Done? <==> v.VPair? || v.VNeutral?
    ensures v.VPair? ==> r == Done(v.second)
    ensures v.VNeutral? ==> r == Done(VNeutral(NSecond(v.neutral)))
    ensures r.Panic? ==> r.defect == CannotSecond(v)
    ensures !r.OutOfFuel?
  {
    match v
    case VPair(_, b) => Done(b)
    case VNeutral(n) => Done(VNeutral(NSecond(n)))
    case _ => Panic(CannotSecond(v))
  }

  /** Both projections at once. */
  function Destruct(v: Value): (r: Run<(Value, Value)>)
    ensures r.Done? <==> First(v).Done? && Second(v).Done?
    ensures r.Done? ==> r.value == (First(v).value, Second(v).value)
    ensures r.Panic? ==> r.defect == CannotDestruct(v)
    ensures !r.OutOfFuel?
  {
    match v
    case VPair(a, b) => Done((a, b))
    case VNeutral(n) => Done((VNeutral(NFirst(n)), VNeutral(NSecond(n))))
    case _ => Panic(CannotDestruct(v))
  }

  /** `patProj`: the part of `v` that the pattern binds to `x`. */
  function Project(p: Pattern, x: Name, v: Value): (r: Outcome<Value, LookupError>)
    ensures !r.Err? <==> Contains(p, x)
    ensures !r.Exhausted?
    ensures p.PVar? && p.name == x ==> r == Ok(v)
  {
    match p
    case PPair(first, second) =>
      if Contains(first, x) then
        var a :- Lift(First(v));
        Project(first, x, a)
      else if Contains(second, x) then
        var b :- Lift(Second(v));
        Project(second, x, b)
      else Err(CannotProject(x))
    case PVar(n) =>
      if n == x then Ok(v) else Err(ExpectedProjection(n, x))
    case PUnit => Err(UnitPattern)
  }

  /** `branch_to_righted`: close every branch over the current environment. */
  function BranchToRighted(branches: map<Label, Expr>, env: Telescope): (cases: CaseTree)
    ensures cases.Keys == branches.Keys
    ensures forall l :: l in cases ==> cases[l] == Righted(branches[l], env)
  {
    map l | l in branches :: Righted(branches[l], env)
  }

  /** The label map of two merged sums: `BTreeMap::append` of the right
      operand into the left one. */
  function Merged(left: CaseTree, right: CaseTree): (m: CaseTree)
    ensures m.Keys == left.Keys + right.Keys
    ensures forall l :: l in right ==> m[l] == right[l]
    ensures forall l :: l in left && l !in right ==> m[l] == left[l]
  {
    left + right
  }

  /** The names bound by some frame of an environment (reference
      definition for `Resolve`). */
  function EnvNames(env: Telescope): set<Name>
  {
    match env
    case Nil => {}
    case UpDec(context, declaration) => EnvNames(context) + PatternNames(declaration.pattern)
    case UpVar(context, pattern, _) => EnvNames(context) + PatternNames(pattern)
  }

  /** `getRho`: resolve a name through the environment chain. The innermost
      frame whose pattern binds the name wins. */
  function Resolve(env: Telescope, x: Name, fuel: nat): (r: Outcome<Value, LookupError>)
    ensures r.Err? <==> x !in EnvNames(env)
    ensures r.Err? ==> r.error == Unresolved(x)
    decreases fuel, Depth(env)
  {
    match env
    case Nil => Err(Unresolved(x))
    case UpDec(context, declaration) =>
      if Contains(declaration.pattern, x) then
        if fuel == 0 then Exhausted
        else
          var bodyEnv := if declaration.isRecursive then UpDec(context, declaration) else context;
          var v :- Lift(Eval(declaration.body, bodyEnv, fuel - 1));
          Project(declaration.pattern, x, v)
      else Resolve(context, x, fuel)
    case UpVar(context, pattern, v) =>
      if Contains(pattern, x) then Project(pattern, x, v)
      else Resolve(context, x, fuel)
  }

  /** Instantiate a closure with an argument. */
  function Instantiate(c: Closure, arg: Value, fuel: nat): Run<Value>
    decreases fuel, 0
  {
    if fuel == 0 then OutOfFuel
    else
      match c
      case CAbs(pattern, _, body, env) => Eval(body, UpVar(env, pattern, arg), fuel - 1)
      case CValue(v) => Done(v)
      case CChoice(inner, l) => Instantiate(inner, VCon(l, arg), fuel - 1)
  }

  /** `reduce_to_value`: evaluate a captured branch in its environment. */
  function ReduceToValue(branch: Righted, fuel: nat): Run<Value>
    decreases fuel, 1
  {
    Eval(branch.body, branch.env, fuel)
  }

  /** `app`: apply a function value to an argument. */
  function Apply(f: Value, arg: Value, fuel: nat): Run<Value>
    decreases fuel, 0
  {
    if fuel == 0 then OutOfFuel
    else
      match f
      case VLambda(c) => Instantiate(c, arg, fuel - 1)
      case VSplit(cases) =>
        (match arg
         case VCon(l, payload) =>
           if l !in cases then Panic(MissingBranch(l))
           else
             var branch :- ReduceToValue(cases[l], fuel - 1);
             Apply(branch, payload, fuel - 1)
         case VNeutral(n) => Done(VNeutral(NSplit(cases, n)))
         case _ => Panic(CannotSplitOn(arg)))
      case VNeutral(n) => Done(VNeutral(NApp(n, arg)))
      case _ => Panic(CannotApply(f))
  }

  /** `eval`: reduce a term to a weak-head value under an environment. */
  function Eval(e: Expr, env: Telescope, fuel: nat): Run<Value>
    decreases fuel, 0
  {
    if fuel == 0 then OutOfFuel
    else
      match e
      case EUnit => Done(VUnit)
      case EOne => Done(VOne)
      case EType(l) => Done(VType(l))
      case EVar(x) =>
        (match Resolve(env, x, fuel - 1)
         case Ok(v) => Done(v)
         case Err(error) => Panic(UnresolvedReference(error))
         case Defective(d) => Panic(d)
         case Exhausted => OutOfFuel)
      case ESum(branches) => Done(VSum(BranchToRighted(branches, env), 0))
      case EMerge(left, right) =>
        var lv :- Eval(left, env, fuel - 1);
        if !lv.VSum? then Panic(NotASum(lv))
        else
          var rv :- Eval(right, env, fuel - 1);
          if !rv.VSum? then Panic(NotASum(rv))
          else Done(VSum(Merged(lv.cases, rv.cases), if lv.level >= rv.level then lv.level else rv.level))
      case ESplit(branches) => Done(VSplit(BranchToRighted(branches, env)))
      case EPi(pattern, domain, codomain) =>
        var dv :- Eval(domain, env, fuel - 1);
        Done(VPi(dv, CAbs(pattern, Some(dv), codomain, env), 0))
      case ESigma(pattern, domain, codomain) =>
        var dv :- Eval(domain, env, fuel - 1);
        Done(VSigma(dv, CAbs(pattern, Some(dv), codomain, env), 0))
      case ELambda(pattern, annotation, body) => Done(VLambda(CAbs(pattern, annotation, body, env)))
      case EFirst(pair) =>
        var pv :- Eval(pair, env, fuel - 1);
        First(pv)
      case ESecond(pair) =>
        var pv :- Eval(pair, env, fuel - 1);
        Second(pv)
      case EApp(head, argument) =>
        var fv :- Eval(head, env, fuel - 1);
        var av :- Eval(argument, env, fuel - 1);
        Apply(fv, av, fuel - 1)
      case EPair(first, second) =>
        var a :- Eval(first, env, fuel - 1);
        var b :- Eval(second, env, fuel - 1);
        Done(VPair(a, b))
      case ECon(l, payload) =>
        var v :- Eval(payload, env, fuel - 1);
        Done(VCon(l, v))
      case EDec(declaration, rest) => Eval(rest, UpDec(env, declaration), fuel - 1)
      case EConst(pattern, body, rest) =>
        var v :- Eval(body, env, fuel - 1);
        Eval(rest, UpVar(env, pattern, v), fuel - 1)
      case EVoid => Panic(CannotEval(e))
  }

  datatype MaybeLevel = NoLevel | SomeLevel(level: nat)

  /** The universe level of a type value, if it is one. */
  function LevelSafe(v: Value): (r: MaybeLevel)
    ensures r.SomeLevel? <==> v.VOne? || v.VType? || v.VPi? || v.VSigma? || v.VSum?
    ensures v.VOne? ==> r == SomeLevel(0)
    ensures v.VType? ==> r.level == v.level + 1
    ensures v.VPi? || v.VSigma? || v.VSum? ==> r == SomeLevel(v.level)
  {
    match v
    case VOne => SomeLevel(0)
    case VType(l) => SomeLevel(1 + l)
    case VPi(_, _, l) => SomeLevel(l)
    case VSigma(_, _, l) => SomeLevel(l)
    case VSum(_, l) => SomeLevel(l)
    case _ => NoLevel
  }

  /** `levelView`: the level of a type value; a defect for any other value. */
  function Level(v: Value): (r: Run<nat>)
    ensures r.Done? <==> LevelSafe(v).SomeLevel?
    ensures r.Done? ==> r.value == LevelSafe(v).level
    ensures r.Panic? ==> r.defect == NotAType(v)
    ensures !r.OutOfFuel?
  {
    match LevelSafe(v)
    case SomeLevel(l) => Done(l)
    case NoLevel => Panic(NotAType(v))
  }

  /** The level of a type value, or 0 where `Level` would fail. */
  function SucLevel(v: Value): (r: nat)
    ensures Level(v).Done? ==> r == Level(v).value
    ensures !Level(v).Done? ==> r == 0
  {
    match LevelSafe(v)
    case SomeLevel(l) => l
    case NoLevel => 0
  }
}
