/** Normalisation by evaluation: fresh neutral generation (`genV`), read-back
    of values, neutrals and telescopes to first-order normal forms (`rbV`,
    `rbN`, `rbRho`), and equality up to normal form (`eqNf`).

    Binders in normal forms are the read-back index at which they were
    introduced, so two values that differ only in the names of bound
    variables read back to the same tree. Reading back a closure evaluates
    its body, which need not terminate, hence the `fuel` bound. */
module ReadBack {
  import opened Labels
  import opened Syntax
  import opened Evaluator

  datatype Normal =
    | NfLambda(binder: nat, body: Normal)
    | NfUnit
    | NfOne
    | NfType
    | NfPi(domain: Normal, binder: nat, codomain: Normal)
    | NfSigma(domain: Normal, binder: nat, codomain: Normal)
    | NfPair(first: Normal, second: Normal)
    | NfCon(ctor: Label, payload: Normal)
    | NfSplit(cases: NormalCases)
    | NfSum(cases: NormalCases)
    | NfNeutral(neutral: NormalNeutral)

  datatype NormalNeutral =
    | NnGen(id: nat)
    | NnApp(head: NormalNeutral, argument: Normal)
    | NnFirst(pair: NormalNeutral)
    | NnSecond(pair: NormalNeutral)
    | NnSplit(cases: NormalCases, scrutinee: NormalNeutral)

  datatype NormalTelescope =
    | NtNil
    | NtUpDec(context: NormalTelescope, declaration: Declaration)
    | NtUpVar(context: NormalTelescope, pattern: Pattern, value: Normal)

  /** A branch keeps its syntax; only its environment is read back. */
  datatype NormalBranch = NormalBranch(body: Expr, env: NormalTelescope)

  type NormalCases = map<Label, NormalBranch>

  /** `genV`: the fresh placeholder with identity `id`. */
  function GenerateValue(id: nat): Value
  {
    VNeutral(NGen(id))
  }

  /** `rbV`: read a value back at the next fresh index `index`. */
  function ReadBackValue(v: Value, index: nat, fuel: nat): Run<Normal>
    decreases fuel, 0
  {
    if fuel == 0 then OutOfFuel
    else
      match v
      case VLambda(c) =>
        var body :- Instantiate(c, GenerateValue(index), fuel - 1);
        var nb :- ReadBackValue(body, index + 1, fuel - 1);
        Done(NfLambda(index, nb))
      case VUnit => Done(NfUnit)
      case VOne => Done(NfOne)
      case VType(_) => Done(NfType)
      case VPi(domain, codomain, _) =>
        var nd :- ReadBackValue(domain, index, fuel - 1);
        var cv :- Instantiate(codomain, GenerateValue(index), fuel - 1);
        var nc :- ReadBackValue(cv, index + 1, fuel - 1);
        Done(NfPi(nd, index, nc))
      case VSigma(domain, codomain, _) =>
        var nd :- ReadBackValue(domain, index, fuel - 1);
        var cv :- Instantiate(codomain, GenerateValue(index), fuel - 1);
        var nc :- ReadBackValue(cv, index + 1, fuel - 1);
        Done(NfSigma(nd, index, nc))
      case VPair(a, b) =>
        var na :- ReadBackValue(a, index, fuel - 1);
        var nb :- ReadBackValue(b, index, fuel - 1);
        Done(NfPair(na, nb))
      case VCon(l, payload) =>
        var np :- ReadBackValue(payload, index, fuel - 1);
        Done(NfCon(l, np))
      case VSplit(cases) =>
        var nc :- ReadBackCases(SortedLabels(cases.Keys), cases, index, fuel - 1);
        Done(NfSplit(nc))
      case VSum(cases, _) =>
        var nc :- ReadBackCases(SortedLabels(cases.Keys), cases, index, fuel - 1);
        Done(NfSum(nc))
      case VInferredSum(_) => Panic(NoReadBack(v))
      case VNeutral(n) =>
        var nn :- ReadBackNeutral(n, index, fuel - 1);
        Done(NfNeutral(nn))
  }

  /** `rbN`: read a stuck computation back. A placeholder keeps its own
      identity whatever the index. */
  function ReadBackNeutral(n: Neutral, index: nat, fuel: nat): Run<NormalNeutral>
    decreases fuel, 0
  {
    if fuel == 0 then OutOfFuel
    else
      match n
      case NGen(k) => Done(NnGen(k))
      case NApp(head, argument) =>
        var nh :- ReadBackNeutral(head, index, fuel - 1);
        var na :- ReadBackValue(argument, index, fuel - 1);
        Done(NnApp(nh, na))
      case NFirst(pair) =>
        var np :- ReadBackNeutral(pair, index, fuel - 1);
        Done(NnFirst(np))
      case NSecond(pair) =>
        var np :- ReadBackNeutral(pair, index, fuel - 1);
        Done(NnSecond(np))
      case NSplit(cases, scrutinee) =>
        var nc :- ReadBackCases(SortedLabels(cases.Keys), cases, index, fuel - 1);
        var ns :- ReadBackNeutral(scrutinee, index, fuel - 1);
        Done(NnSplit(nc, ns))
  }

  /** `rbRho`: read an environment back frame by frame. */
  function ReadBackTelescope(env: Telescope, index: nat, fuel: nat): Run<NormalTelescope>
    decreases fuel, 0
  {
    if fuel == 0 then OutOfFuel
    else
      match env
      case Nil => Done(NtNil)
      case UpDec(context, declaration) =>
        var nc :- ReadBackTelescope(context, index, fuel - 1);
        Done(NtUpDec(nc, declaration))
      case UpVar(context, pattern, v) =>
        var nc :- ReadBackTelescope(context, index, fuel - 1);
        var nv :- ReadBackValue(v, index, fuel - 1);
        Done(NtUpVar(nc, pattern, nv))
  }

  /** Read back the environments of the branches named by `labels`, in
      that order, keeping each branch's syntax. */
  function ReadBackCases(labels: seq<Label>, cases: CaseTree, index: nat, fuel: nat): (r: Run<NormalCases>)
    requires forall l :: l in labels ==> l in cases
    ensures r.Done? ==> r.value.Keys == set l | l in labels
    ensures r.Done? ==> forall l :: l in r.value ==> r.value[l].body == cases[l].body
    decreases fuel, |labels|
  {
    if labels == [] then Done(map[])
    else if fuel == 0 then OutOfFuel
    else
      var l := labels[0];
      var ne :- ReadBackTelescope(cases[l].env, index, fuel - 1);
      var rest :- ReadBackCases(labels[1..], cases, index, fuel);
      Done(rest[l := NormalBranch(cases[l].body, ne)])
  }

  /** `eqNf`: two values are equal up to normal form when they read back to
      the same tree from the same index; otherwise both trees are reported. */
  function EqNormal(a: Value, index: nat, b: Value, fuel: nat): (r: Outcome<(), (Normal, Normal)>)
    ensures r.Ok? <==>
      ReadBackValue(a, index, fuel).Done? && ReadBackValue(b, index, fuel).Done? &&
      ReadBackValue(a, index, fuel).value == ReadBackValue(b, index, fuel).value
    ensures r.Err? ==>
      ReadBackValue(a, index, fuel).Done? && ReadBackValue(b, index, fuel).Done? &&
      r.error == (ReadBackValue(a, index, fuel).value, ReadBackValue(b, index, fuel).value) &&
      r.error.0 != r.error.1
  {
    var na :- Lift(ReadBackValue(a, index, fuel));
    var nb :- Lift(ReadBackValue(b, index, fuel));
    if na == nb then Ok(()) else Err((na, nb))
  }
}
