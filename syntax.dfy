/** The data model of Mini-TT: binding patterns, surface syntax, semantic
    values (weak-head, with stuck neutral forms), closures and the
    environment chain ("telescope"), plus the outcome types shared by the
    evaluator, read-back and the checker. */
module Syntax {
  import opened Labels

  type Name = string

  datatype Option<+T> = None | Some(value: T)

  /** Binding patterns: how one bound value destructures into names. */
  datatype Pattern =
    | PVar(name: Name)
    | PPair(first: Pattern, second: Pattern)
    | PUnit

  /** A local declaration; `isRecursive` lets its body see itself. */
  datatype Declaration = Declaration(pattern: Pattern, body: Expr, isRecursive: bool)

  /** Surface syntax. The level fields that the evaluator and the checker
      ignore on sum, Pi and Sigma formers are not represented. */
  datatype Expr =
    | EUnit
    | EOne
    | EType(level: nat)
    | EVoid
    | EVar(name: Name)
    | ESum(branches: map<Label, Expr>)
    | EMerge(left: Expr, right: Expr)
    | EPi(pattern: Pattern, domain: Expr, codomain: Expr)
    | ESigma(pattern: Pattern, domain: Expr, codomain: Expr)
    | ELambda(pattern: Pattern, annotation: Option<Value>, body: Expr)
    | EApp(head: Expr, argument: Expr)
    | EPair(first: Expr, second: Expr)
    | EFirst(pair: Expr)
    | ESecond(pair: Expr)
    | ECon(ctor: Label, payload: Expr)
    | ESplit(branches: map<Label, Expr>)
    | EDec(declaration: Declaration, rest: Expr)
    | EConst(pattern: Pattern, body: Expr, rest: Expr)

  /** A branch of a sum or case-split captured with its environment. */
  datatype Righted = Righted(body: Expr, env: Telescope)

  type CaseTree = map<Label, Righted>

  /** Semantic values. Sum and case-split values are label maps closed over
      environments; `VInferredSum` is the minimal sum type synthesised for a
      bare constructor. */
  datatype Value =
    | VUnit
    | VOne
    | VType(level: nat)
    | VPi(domain: Value, codomain: Closure, level: nat)
    | VSigma(domain: Value, codomain: Closure, level: nat)
    | VLambda(closure: Closure)
    | VPair(first: Value, second: Value)
    | VCon(ctor: Label, payload: Value)
    | VSplit(cases: CaseTree)
    | VSum(cases: CaseTree, level: nat)
    | VInferredSum(payloads: map<Label, Value>)
    | VNeutral(neutral: Neutral)

  /** Stuck computations headed by a generated placeholder. */
  datatype Neutral =
    | NGen(id: nat)
    | NApp(head: Neutral, argument: Value)
    | NFirst(pair: Neutral)
    | NSecond(pair: Neutral)
    | NSplit(cases: CaseTree, scrutinee: Neutral)

  /** Deferred computations: an abstraction over a pattern, an already
      evaluated value that ignores its argument, or a closure whose argument
      is first tagged with a constructor label. */
  datatype Closure =
    | CAbs(pattern: Pattern, hint: Option<Value>, body: Expr, env: Telescope)
    | CValue(value: Value)
    | CChoice(inner: Closure, ctor: Label)

  /** The persistent environment chain. */
  datatype Telescope =
    | Nil
    | UpDec(context: Telescope, declaration: Declaration)
    | UpVar(context: Telescope, pattern: Pattern, value: Value)

  /** Number of frames in an environment chain. */
  function Depth(env: Telescope): nat
  {
    match env
    case Nil => 0
    case UpDec(context, _) => 1 + Depth(context)
    case UpVar(context, _, _) => 1 + Depth(context)
  }

  /** Internal-consistency failures: what the evaluator does when a value
      has a shape that checking should have ruled out. They are kept apart
      from the checker's typing errors. */
  datatype Defect =
    | NotAType(value: Value)
    | CannotFirst(value: Value)
    | CannotSecond(value: Value)
    | CannotDestruct(value: Value)
    | MissingBranch(ctor: Label)
    | CannotSplitOn(value: Value)
    | CannotApply(value: Value)
    | UnresolvedReference(error: LookupError)
    | NotASum(value: Value)
    | CannotEval(term: Expr)
    | NoReadBack(value: Value)

  /** Errors of pattern projection and name resolution. */
  datatype LookupError =
    | CannotProject(name: Name)
    | ExpectedProjection(patternName: Name, name: Name)
    | UnitPattern
    | Unresolved(name: Name)

  /** Result of evaluation: a value, a defect, or exhausted fuel. */
  datatype Run<+T> = Done(value: T) | Panic(defect: Defect) | OutOfFuel
  {
    predicate IsFailure() { !Done? }

    function PropagateFailure<U>(): Run<U>
      requires !Done?
    {
      if Panic? then Panic(defect) else OutOfFuel
    }

    function Extract(): T
      requires Done?
    {
      value
    }
  }

  /** Result of an operation that also has recoverable errors; a defect or
      exhausted fuel met on the way is carried as `Defective` or `Exhausted`. */
  datatype Outcome<+T, +E> = Ok(value: T) | Err(error: E) | Defective(defect: Defect) | Exhausted
  {
    predicate IsFailure() { !Ok? }

    function PropagateFailure<U>(): Outcome<U, E>
      requires !Ok?
    {
      match this
      case Err(e) => Err(e)
      case Defective(d) => Defective(d)
      case Exhausted => Exhausted
    }

    function Extract(): T
      requires Ok?
    {
      value
    }
  }

  /** An evaluation result seen as an outcome without recoverable errors. */
  function Lift<T, E>(r: Run<T>): (o: Outcome<T, E>)
    ensures o.Ok? <==> r.Done?
    ensures r.Done? ==> o.value == r.value
    ensures !o.Err?
  {
    match r
    case Done(v) => Ok(v)
    case Panic(d) => Defective(d)
    case OutOfFuel => Exhausted
  }
}
