/** Properties of read-back and of equality up to normal form: the equality
    is an equivalence, a placeholder reads back to its own identity, a
    binder is named by the read-back index (so bound-variable names do not
    matter), environments keep their frames, first-order values read back
    to a fixed tree whatever the index. */
module ReadBackProps {
  import opened Labels
  import opened Syntax
  import opened Evaluator
  import opened ReadBack
  import EvalProps

  // ---------------------------------------------------------------------
  // Equality up to normal form is an equivalence
  // ---------------------------------------------------------------------

  /** A value that reads back is equal to itself. */
  lemma EqNormalReflexive(a: Value, index: nat, fuel: nat)
    requires ReadBackValue(a, index, fuel).Done?
    ensures EqNormal(a, index, a, fuel) == Ok(())
  {
  }

  /** The verdict does not depend on the order of the arguments, and a
      mismatch reports the two trees swapped. */
  lemma EqNormalSymmetric(a: Value, index: nat, b: Value, fuel: nat)
    ensures EqNormal(a, index, b, fuel).Ok? <==> EqNormal(b, index, a, fuel).Ok?
    ensures EqNormal(a, index, b, fuel).Err? <==> EqNormal(b, index, a, fuel).Err?
    ensures EqNormal(a, index, b, fuel).Err? ==>
      EqNormal(b, index, a, fuel).error == (EqNormal(a, index, b, fuel).error.1, EqNormal(a, index, b, fuel).error.0)
  {
  }

  lemma EqNormalTransitive(a: Value, b: Value, c: Value, index: nat, fuel: nat)
    requires EqNormal(a, index, b, fuel).Ok? && EqNormal(b, index, c, fuel).Ok?
    ensures EqNormal(a, index, c, fuel).Ok?
  {
  }

  // ---------------------------------------------------------------------
  // Placeholders and binders
  // ---------------------------------------------------------------------

  /** A generated placeholder reads back to its own identity, whatever the
      current read-back index. */
  lemma GeneratedKeepsId(id: nat, index: nat, fuel: nat)
    requires fuel >= 2
    ensures ReadBackValue(GenerateValue(id), index, fuel) == Done(NfNeutral(NnGen(id)))
  {
  }

  /** A lambda reads back by instantiating its closure with the placeholder
      for the current index and reading the body at the next index; the
      binder is the current index. Two closures that agree on the
      placeholder read back to the same tree, however their bound variables
      are named. */
  lemma {:induction false} LambdaReadBack(c1: Closure, c2: Closure, index: nat, fuel: nat)
    requires fuel > 0
    requires Instantiate(c1, GenerateValue(index), fuel - 1) == Instantiate(c2, GenerateValue(index), fuel - 1)
    ensures ReadBackValue(VLambda(c1), index, fuel) == ReadBackValue(VLambda(c2), index, fuel)
    ensures var body := Instantiate(c1, GenerateValue(index), fuel - 1);
      ReadBackValue(VLambda(c1), index, fuel).Done? <==>
        body.Done? && ReadBackValue(body.value, index + 1, fuel - 1).Done?
    ensures var body := Instantiate(c1, GenerateValue(index), fuel - 1);
      ReadBackValue(VLambda(c1), index, fuel).Done? ==>
        ReadBackValue(VLambda(c1), index, fuel).value ==
        NfLambda(index, ReadBackValue(body.value, index + 1, fuel - 1).value)
  {
  }

  /** The same for the two type formers: the domain is read at the current
      index, the codomain, under the placeholder, at the next one, and the
      binder is the current index. */
  lemma {:induction false} FormerReadBack(d: Value, c1: Closure, c2: Closure, l1: nat, l2: nat, index: nat, fuel: nat)
    requires fuel > 0
    requires Instantiate(c1, GenerateValue(index), fuel - 1) == Instantiate(c2, GenerateValue(index), fuel - 1)
    ensures ReadBackValue(VPi(d, c1, l1), index, fuel) == ReadBackValue(VPi(d, c2, l2), index, fuel)
    ensures ReadBackValue(VSigma(d, c1, l1), index, fuel) == ReadBackValue(VSigma(d, c2, l2), index, fuel)
    ensures var cod := Instantiate(c1, GenerateValue(index), fuel - 1);
      ReadBackValue(VPi(d, c1, l1), index, fuel).Done? <==>
        ReadBackValue(d, index, fuel - 1).Done? && cod.Done? && ReadBackValue(cod.value, index + 1, fuel - 1).Done?
    ensures var cod := Instantiate(c1, GenerateValue(index), fuel - 1);
      ReadBackValue(VPi(d, c1, l1), index, fuel).Done? ==>
        ReadBackValue(VPi(d, c1, l1), index, fuel).value ==
        NfPi(ReadBackValue(d, index, fuel - 1).value, index, ReadBackValue(cod.value, index + 1, fuel - 1).value)
    ensures var cod := Instantiate(c1, GenerateValue(index), fuel - 1);
      ReadBackValue(VSigma(d, c1, l1), index, fuel).Done? <==>
        ReadBackValue(d, index, fuel - 1).Done? && cod.Done? && ReadBackValue(cod.value, index + 1, fuel - 1).Done?
    ensures var cod := Instantiate(c1, GenerateValue(index), fuel - 1);
      ReadBackValue(VSigma(d, c1, l1), index, fuel).Done? ==>
        ReadBackValue(VSigma(d, c1, l1), index, fuel).value ==
        NfSigma(ReadBackValue(d, index, fuel - 1).value, index, ReadBackValue(cod.value, index + 1, fuel - 1).value)
  {
  }

  /** The identity function read back: whatever its variable is called and
      whatever environment it closed over, it is `NfLambda(i, Gen(i))`. */
  lemma IdentityReadBack(x: Name, hint: Option<Value>, env: Telescope, index: nat, fuel: nat)
    requires fuel >= 3
    ensures ReadBackValue(VLambda(CAbs(PVar(x), hint, EVar(x), env)), index, fuel) ==
      Done(NfLambda(index, NfNeutral(NnGen(index))))
  {
    var generated := GenerateValue(index);
    EvalProps.ResolveShadowing(env, PVar(x), generated, x, fuel - 3);
    assert Instantiate(CAbs(PVar(x), hint, EVar(x), env), generated, fuel - 1) == Done(generated);
    GeneratedKeepsId(index, index + 1, fuel - 1);
  }

  /** Hence two identity functions are equal up to normal form, whatever
      their variable names and environments (alpha-equivalence). */
  lemma IdentityAlphaInvariant(x: Name, y: Name, h1: Option<Value>, h2: Option<Value>, env1: Telescope,
                               env2: Telescope, index: nat, fuel: nat)
    requires fuel >= 3
    ensures EqNormal(VLambda(CAbs(PVar(x), h1, EVar(x), env1)), index,
                     VLambda(CAbs(PVar(y), h2, EVar(y), env2)), fuel) == Ok(())
  {
    IdentityReadBack(x, h1, env1, index, fuel);
    IdentityReadBack(y, h2, env2, index, fuel);
  }

  /** Alpha-invariance for lambdas whose body binds nothing and captures no
      environment: renaming the bound variable (to a name the body does not
      already use) does not change the read-back, so the two lambdas are
      equal up to normal form exactly when the first one reads back. */
  lemma AlphaInvariant(x: Name, y: Name, h1: Option<Value>, h2: Option<Value>, body: Expr, env: Telescope,
                       index: nat, fuel: nat)
    requires EvalProps.BinderFree(body) && (x == y || !EvalProps.Mentions(body, y))
    ensures ReadBackValue(VLambda(CAbs(PVar(x), h1, body, env)), index, fuel) ==
      ReadBackValue(VLambda(CAbs(PVar(y), h2, EvalProps.Rename(body, x, y), env)), index, fuel)
    ensures EqNormal(VLambda(CAbs(PVar(x), h1, body, env)), index,
                     VLambda(CAbs(PVar(y), h2, EvalProps.Rename(body, x, y), env)), fuel).Ok? <==>
      ReadBackValue(VLambda(CAbs(PVar(x), h1, body, env)), index, fuel).Done?
  {
    var c1 := CAbs(PVar(x), h1, body, env);
    var c2 := CAbs(PVar(y), h2, EvalProps.Rename(body, x, y), env);
    if fuel > 0 {
      if fuel > 1 {
        EvalProps.EvalRenamed(body, x, y, env, GenerateValue(index), fuel - 2);
      }
      LambdaReadBack(c1, c2, index, fuel);
    }
  }

  // ---------------------------------------------------------------------
  // Environments keep their frames
  // ---------------------------------------------------------------------

  /** What a frame binds, without its value. */
  datatype Frame = DecFrame(declaration: Declaration) | VarFrame(pattern: Pattern)

  /** The frames of an environment, outermost first. */
  function Frames(env: Telescope): seq<Frame>
  {
    match env
    case Nil => []
    case UpDec(context, d) => Frames(context) + [DecFrame(d)]
    case UpVar(context, p, _) => Frames(context) + [VarFrame(p)]
  }

  function NormalFrames(nt: NormalTelescope): seq<Frame>
  {
    match nt
    case NtNil => []
    case NtUpDec(context, d) => NormalFrames(context) + [DecFrame(d)]
    case NtUpVar(context, p, _) => NormalFrames(context) + [VarFrame(p)]
  }

  /** Reading an environment back keeps every declaration and pattern in
      place. */
  lemma {:induction false} TelescopeKeepsFrames(env: Telescope, index: nat, fuel: nat)
    ensures ReadBackTelescope(env, index, fuel).Done? ==>
      NormalFrames(ReadBackTelescope(env, index, fuel).value) == Frames(env)
    decreases env
  {
    if fuel > 0 {
      match env
      case Nil =>
      case UpDec(context, _) => TelescopeKeepsFrames(context, index, fuel - 1);
      case UpVar(context, _, _) => TelescopeKeepsFrames(context, index, fuel - 1);
    }
  }

  /** Frame by frame: a declaration frame is kept as it is and a variable
      frame's value is read back at the same index; either succeeds exactly
      when the rest of the environment does and, for a variable frame, its
      value reads back. */
  lemma TelescopeFrameReadBack(context: Telescope, d: Declaration, p: Pattern, v: Value, index: nat, fuel: nat)
    requires fuel > 0
    ensures ReadBackTelescope(Nil, index, fuel) == Done(NtNil)
    ensures ReadBackTelescope(UpDec(context, d), index, fuel).Done? <==>
      ReadBackTelescope(context, index, fuel - 1).Done?
    ensures ReadBackTelescope(UpDec(context, d), index, fuel).Done? ==>
      ReadBackTelescope(UpDec(context, d), index, fuel).value ==
      NtUpDec(ReadBackTelescope(context, index, fuel - 1).value, d)
    ensures ReadBackTelescope(UpVar(context, p, v), index, fuel).Done? <==>
      ReadBackTelescope(context, index, fuel - 1).Done? && ReadBackValue(v, index, fuel - 1).Done?
    ensures ReadBackTelescope(UpVar(context, p, v), index, fuel).Done? ==>
      ReadBackTelescope(UpVar(context, p, v), index, fuel).value ==
      NtUpVar(ReadBackTelescope(context, index, fuel - 1).value, p, ReadBackValue(v, index, fuel - 1).value)
  {
  }

  // ---------------------------------------------------------------------
  // Structural cases
  // ---------------------------------------------------------------------

  /** A pair reads back component by component at the same index; a
      component that fails makes the whole read-back fail. */
  lemma PairReadBack(a: Value, b: Value, index: nat, fuel: nat)
    requires fuel > 0
    ensures ReadBackValue(VPair(a, b), index, fuel).Done? <==>
      ReadBackValue(a, index, fuel - 1).Done? && ReadBackValue(b, index, fuel - 1).Done?
    ensures ReadBackValue(VPair(a, b), index, fuel).Done? ==>
      ReadBackValue(VPair(a, b), index, fuel).value ==
      NfPair(ReadBackValue(a, index, fuel - 1).value, ReadBackValue(b, index, fuel - 1).value)
  {
  }

  /** A constructor reads back its payload at the same index and keeps its
      label. */
  lemma ConReadBack(l: Label, a: Value, index: nat, fuel: nat)
    requires fuel > 0
    ensures ReadBackValue(VCon(l, a), index, fuel).Done? <==> ReadBackValue(a, index, fuel - 1).Done?
    ensures ReadBackValue(VCon(l, a), index, fuel).Done? ==>
      ReadBackValue(VCon(l, a), index, fuel).value == NfCon(l, ReadBackValue(a, index, fuel - 1).value)
  {
  }

  /** Stuck applications and projections read back structurally at the
      same index. */
  lemma NeutralReadBack(a: Value, h: Neutral, index: nat, fuel: nat)
    requires fuel > 0
    ensures ReadBackNeutral(NApp(h, a), index, fuel).Done? <==>
      ReadBackNeutral(h, index, fuel - 1).Done? && ReadBackValue(a, index, fuel - 1).Done?
    ensures ReadBackNeutral(NApp(h, a), index, fuel).Done? ==>
      ReadBackNeutral(NApp(h, a), index, fuel).value ==
      NnApp(ReadBackNeutral(h, index, fuel - 1).value, ReadBackValue(a, index, fuel - 1).value)
    ensures ReadBackNeutral(NFirst(h), index, fuel) ==
      (match ReadBackNeutral(h, index, fuel - 1)
       case Done(nh) => Done(NnFirst(nh))
       case Panic(d) => Panic(d)
       case OutOfFuel => OutOfFuel)
    ensures ReadBackNeutral(NSecond(h), index, fuel) ==
      (match ReadBackNeutral(h, index, fuel - 1)
       case Done(nh) => Done(NnSecond(nh))
       case Panic(d) => Panic(d)
       case OutOfFuel => OutOfFuel)
  {
  }

  /** A stuck split reads back at the same index: its case tree keeps its
      labels and branch bodies, and its stuck argument is read back
      structurally. */
  lemma SplitNeutralReadBack(h: Neutral, cases: CaseTree, index: nat, fuel: nat)
    requires fuel > 0
    ensures var nc := ReadBackCases(SortedLabels(cases.Keys), cases, index, fuel - 1);
      ReadBackNeutral(NSplit(cases, h), index, fuel).Done? <==>
        nc.Done? && ReadBackNeutral(h, index, fuel - 1).Done?
    ensures var nc := ReadBackCases(SortedLabels(cases.Keys), cases, index, fuel - 1);
      ReadBackNeutral(NSplit(cases, h), index, fuel).Done? ==>
        ReadBackNeutral(NSplit(cases, h), index, fuel).value == NnSplit(nc.value, ReadBackNeutral(h, index, fuel - 1).value) &&
        nc.value.Keys == cases.Keys &&
        forall l :: l in nc.value ==> nc.value[l].body == cases[l].body
  {
    SortedCasesKeepSyntax(cases, index, fuel - 1);
  }

  /** Reading a case tree back in key order keeps its labels and its
      branch bodies. */
  lemma SortedCasesKeepSyntax(cases: CaseTree, index: nat, fuel: nat)
    ensures var nc := ReadBackCases(SortedLabels(cases.Keys), cases, index, fuel);
      nc.Done? ==> nc.value.Keys == cases.Keys && forall l :: l in nc.value ==> nc.value[l].body == cases[l].body
  {
    assert (set l | l in SortedLabels(cases.Keys)) == cases.Keys;
  }

  /** Literals read back to the matching normal literal, and a sum value
      whose type was only inferred has no normal form. */
  lemma LiteralReadBack(level: nat, payloads: map<Label, Value>, index: nat, fuel: nat)
    requires fuel > 0
    ensures ReadBackValue(VUnit, index, fuel) == Done(NfUnit)
    ensures ReadBackValue(VOne, index, fuel) == Done(NfOne)
    ensures ReadBackValue(VType(level), index, fuel) == Done(NfType)
    ensures ReadBackValue(VInferredSum(payloads), index, fuel).Panic?
  {
  }

  /** Case trees keep their syntax: the branches of a split or sum read
      back under exactly the same labels, with the same bodies. */
  lemma CasesKeepSyntax(cases: CaseTree, index: nat, fuel: nat)
    requires fuel > 0
    ensures ReadBackValue(VSplit(cases), index, fuel).Done? ==>
      var nf := ReadBackValue(VSplit(cases), index, fuel).value;
      nf.NfSplit? && nf.cases.Keys == cases.Keys &&
      forall l :: l in nf.cases ==> nf.cases[l].body == cases[l].body
  {
    var labels := SortedLabels(cases.Keys);
    assert (set l | l in labels) == cases.Keys;
  }

  // ---------------------------------------------------------------------
  // First-order values
  // ---------------------------------------------------------------------

  /** Values built from unit, the unit type, universes, pairs, constructors
      and placeholders: nothing to instantiate and nothing stuck but a
      placeholder. */
  predicate FirstOrder(v: Value)
  {
    match v
    case VUnit => true
    case VOne => true
    case VType(_) => true
    case VPair(a, b) => FirstOrder(a) && FirstOrder(b)
    case VCon(_, payload) => FirstOrder(payload)
    case VNeutral(n) => n.NGen?
    case _ => false
  }

  /** The read-back fuel a first-order value needs, less one. */
  function Height(v: Value): nat
    requires FirstOrder(v)
  {
    match v
    case VPair(a, b) => 1 + (if Height(a) < Height(b) then Height(b) else Height(a))
    case VCon(_, payload) => 1 + Height(payload)
    case VNeutral(_) => 1
    case _ => 0
  }

  /** The normal form of a first-order value, written directly. */
  function Quote(v: Value): Normal
    requires FirstOrder(v)
  {
    match v
    case VUnit => NfUnit
    case VOne => NfOne
    case VType(_) => NfType
    case VPair(a, b) => NfPair(Quote(a), Quote(b))
    case VCon(l, payload) => NfCon(l, Quote(payload))
    case VNeutral(n) => NfNeutral(NnGen(n.id))
  }

  /** With enough fuel a first-order value reads back to its quotation, the
      same tree at every index. */
  lemma {:induction false} FirstOrderReadBack(v: Value, index: nat, fuel: nat)
    requires FirstOrder(v) && fuel > Height(v)
    ensures ReadBackValue(v, index, fuel) == Done(Quote(v))
    decreases v
  {
    match v
    case VPair(a, b) =>
      FirstOrderReadBack(a, index, fuel - 1);
      FirstOrderReadBack(b, index, fuel - 1);
    case VCon(_, payload) =>
      FirstOrderReadBack(payload, index, fuel - 1);
    case _ =>
  }

  /** Two first-order values that agree everywhere except, perhaps, in the
      levels of their universes: normal forms carry no level. */
  predicate SameUpToLevels(a: Value, b: Value)
    requires FirstOrder(a) && FirstOrder(b)
  {
    match a
    case VType(_) => b.VType?
    case VPair(a1, a2) =>
      b.VPair? && SameUpToLevels(a1, b.first) && SameUpToLevels(a2, b.second)
    case VCon(l, payload) =>
      b.VCon? && b.ctor == l && SameUpToLevels(payload, b.payload)
    case _ => a == b
  }

  /** Quotation loses nothing but universe levels. */
  lemma {:induction false} QuoteFaithful(a: Value, b: Value)
    requires FirstOrder(a) && FirstOrder(b)
    ensures Quote(a) == Quote(b) <==> SameUpToLevels(a, b)
    decreases a
  {
    match a
    case VPair(a1, a2) =>
      if b.VPair? {
        QuoteFaithful(a1, b.first);
        QuoteFaithful(a2, b.second);
      }
    case VCon(_, payload) =>
      if b.VCon? {
        QuoteFaithful(payload, b.payload);
      }
    case _ =>
  }

  /** On first-order values equality up to normal form is equality up to
      universe levels. */
  lemma EqNormalFirstOrder(a: Value, b: Value, index: nat, fuel: nat)
    requires FirstOrder(a) && FirstOrder(b) && fuel > Height(a) && fuel > Height(b)
    ensures EqNormal(a, index, b, fuel).Ok? <==> SameUpToLevels(a, b)
    ensures EqNormal(a, index, b, fuel).Err? <==> !SameUpToLevels(a, b)
  {
    FirstOrderReadBack(a, index, fuel);
    FirstOrderReadBack(b, index, fuel);
    QuoteFaithful(a, b);
  }
}
