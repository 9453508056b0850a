/** The results of the evaluator and the checker on small terms, stated and
    proved: the identity function, an injection into a sum, a pair of units,
    an exhaustive and two non-exhaustive case splits, and an unbound name.
    The collaborators are constrained only by what each scenario needs of
    them. */
module Scenarios {
  import opened Labels
  import opened Syntax
  import opened Evaluator
  import opened ReadBack
  import opened Checker
  import CheckProps

  /** `\x. x` */
  function Identity(): Expr
  {
    ELambda(PVar("x"), None, EVar("x"))
  }

  /** Applying the identity to unit evaluates to unit once four nested steps
      (application, instantiation, variable, lookup) have fuel. */
  lemma IdentityAppliedToUnit(fuel: nat)
    requires fuel >= 4
    ensures Eval(EApp(Identity(), EUnit), Nil, fuel) == Done(VUnit)
  {
    var env := UpVar(Nil, PVar("x"), VUnit);
    assert Resolve(env, "x", fuel - 4) == Ok(VUnit);
    assert Eval(EVar("x"), env, fuel - 3) == Done(VUnit);
    var c := CAbs(PVar("x"), None, EVar("x"), Nil);
    assert Instantiate(c, VUnit, fuel - 2) == Done(VUnit);
    assert Apply(VLambda(c), VUnit, fuel - 1) == Done(VUnit);
    assert Eval(Identity(), Nil, fuel - 1) == Done(VLambda(c));
  }

  /** The identity checks against `Pi(_: One). One` when Gamma grows by the
      bound name and subtyping is reflexive; the state that comes back has
      `x : One` in Gamma and `x` bound to the placeholder of index 0. */
  lemma IdentityChecks(o: Collaborators, fuel: nat)
    requires fuel >= 2
    requires forall g, x, t, v :: o.updateGamma(g, PVar(x), t, v) == Ok(g[x := t])
    requires forall i, st, t :: o.subtype(i, st, t, t) == Ok(st)
    ensures Check(0, State(map[], Nil), Identity(), VPi(VOne, CValue(VOne), 0), o, fuel) ==
      Ok(State(map["x" := VOne], UpVar(Nil, PVar("x"), GenerateValue(0))))
  {
    var s1 := State(map["x" := VOne], UpVar(Nil, PVar("x"), GenerateValue(0)));
    assert map[]["x" := VOne] == map["x" := VOne];
    assert CheckInfer(1, s1, EVar("x"), o, fuel - 1) == Ok(VOne);
    assert Check(1, s1, EVar("x"), VOne, o, fuel - 1) == Ok(s1);
    assert Instantiate(CValue(VOne), GenerateValue(0), fuel) == Done(VOne);
  }

  /** What `Pi(_: One). One` evaluates to. */
  function OneToOne(): Value
  {
    VPi(VOne, CAbs(PVar("_"), Some(VOne), EOne, Nil), 0)
  }

  /** The identity also checks against the evaluated `Pi(_: One). One`,
      with the same resulting state. */
  lemma IdentityChecksEvaluated(o: Collaborators, fuel: nat)
    requires fuel >= 2
    requires forall g, x, t, v :: o.updateGamma(g, PVar(x), t, v) == Ok(g[x := t])
    requires forall i, st, t :: o.subtype(i, st, t, t) == Ok(st)
    ensures Eval(EPi(PVar("_"), EOne, EOne), Nil, fuel) == Done(OneToOne())
    ensures Check(0, State(map[], Nil), Identity(), OneToOne(), o, fuel) ==
      Ok(State(map["x" := VOne], UpVar(Nil, PVar("x"), GenerateValue(0))))
  {
    var s1 := State(map["x" := VOne], UpVar(Nil, PVar("x"), GenerateValue(0)));
    assert Eval(EOne, Nil, fuel - 1) == Done(VOne);
    assert map[]["x" := VOne] == map["x" := VOne];
    assert CheckInfer(1, s1, EVar("x"), o, fuel - 1) == Ok(VOne);
    assert Check(1, s1, EVar("x"), VOne, o, fuel - 1) == Ok(s1);
    assert Eval(EOne, UpVar(Nil, PVar("_"), GenerateValue(0)), fuel - 1) == Done(VOne);
    assert Instantiate(CAbs(PVar("_"), Some(VOne), EOne, Nil), GenerateValue(0), fuel) == Done(VOne);
  }

  /** The sum `inl | inr`, both payloads of type One. */
  function InlInrSum(): CaseTree
  {
    map["inl" := Righted(EOne, Nil), "inr" := Righted(EOne, Nil)]
  }

  /** `inl ()` checks against `inl | inr` and hands the state back; against
      a sum without `inl` it is an invalid constructor. */
  lemma InjectionChecks(index: nat, s: State, o: Collaborators, fuel: nat)
    requires fuel >= 2
    ensures Check(index, s, ECon("inl", EUnit), VSum(InlInrSum(), 0), o, fuel) == Ok(s)
    ensures Check(index, s, ECon("inl", EUnit), VSum(map["inr" := Righted(EOne, Nil)], 0), o, fuel) ==
      Err(InvalidConstructor("inl"))
  {
    assert ReduceToValue(Righted(EOne, Nil), fuel) == Done(VOne);
    assert Check(index, s, EUnit, VOne, o, fuel - 1) == Ok(s);
  }

  /** `One * One`, the value of the type `Sigma(_: One). One`. */
  function OneTimesOne(): Value
  {
    VSigma(VOne, CAbs(PVar("_"), Some(VOne), EOne, Nil), 0)
  }

  /** The pair `((), ())` checks against `One * One`, which is what the
      written type evaluates to. */
  lemma PairChecks(index: nat, s: State, o: Collaborators, fuel: nat)
    requires fuel >= 2
    ensures Eval(ESigma(PVar("_"), EOne, EOne), Nil, fuel) == Done(OneTimesOne())
    ensures Check(index, s, EPair(EUnit, EUnit), OneTimesOne(), o, fuel) == Ok(s)
  {
    assert Eval(EOne, Nil, fuel - 1) == Done(VOne);
    assert Check(index, s, EUnit, VOne, o, fuel - 1) == Ok(s);
    assert Eval(EUnit, s.env, fuel) == Done(VUnit);
    assert Instantiate(CAbs(PVar("_"), Some(VOne), EOne, Nil), VUnit, fuel) == Done(VOne);
  }

  /** Both projections of `((), ())` evaluate to unit. */
  lemma PairProjections(env: Telescope, fuel: nat)
    requires fuel >= 3
    ensures Eval(EFirst(EPair(EUnit, EUnit)), env, fuel) == Done(VUnit)
    ensures Eval(ESecond(EPair(EUnit, EUnit)), env, fuel) == Done(VUnit)
  {
    assert Eval(EPair(EUnit, EUnit), env, fuel - 1) == Done(VPair(VUnit, VUnit));
  }

  /** A name bound nowhere cannot be inferred. */
  lemma UnboundName(index: nat, env: Telescope, o: Collaborators, fuel: nat)
    requires fuel > 0
    ensures CheckInfer(index, State(map[], env), EVar("z"), o, fuel) == Err(UnresolvedName("z"))
  {
  }

  /** The sum `A | B | C`, every payload of type One. */
  function AbcSum(): CaseTree
  {
    map["A" := Righted(EOne, Nil), "B" := Righted(EOne, Nil), "C" := Righted(EOne, Nil)]
  }

  /** `\u. unit`, the branch used for every label. */
  function UnitBranch(): Expr
  {
    ELambda(PVar("u"), None, EUnit)
  }

  /** The unit branch checks, for any label, against a payload type One and
      the constant codomain One. */
  lemma UnitBranchChecks(index: nat, s: State, l: Label, o: Collaborators, fuel: nat)
    requires fuel >= 2
    requires forall g, x, t, v :: o.updateGamma(g, PVar(x), t, v) == Ok(g[x := t])
    ensures CheckProps.BranchChecks(index, s, UnitBranch(), Righted(EOne, Nil), l, CValue(VOne), o, fuel)
  {
    assert ReduceToValue(Righted(EOne, Nil), fuel) == Done(VOne);
    var generated := GenerateValue(index);
    assert Instantiate(CChoice(CValue(VOne), l), generated, fuel) == Done(VOne);
    var s1 := State(s.gamma["u" := VOne], UpVar(s.env, PVar("u"), generated));
    assert Check(index + 1, s1, EUnit, VOne, o, fuel - 1) == Ok(s1);
  }

  /** Branches for `A` and `B` only: the split is rejected for the missing
      `C`. */
  lemma SplitMissingC(index: nat, s: State, o: Collaborators, fuel: nat)
    requires fuel >= 3
    requires forall g, x, t, v :: o.updateGamma(g, PVar(x), t, v) == Ok(g[x := t])
    ensures Check(index, s, ESplit(map["A" := UnitBranch(), "B" := UnitBranch()]),
                  VPi(VSum(AbcSum(), 0), CValue(VOne), 0), o, fuel) == Err(MissingCase("C"))
  {
    var branches := map["A" := UnitBranch(), "B" := UnitBranch()];
    forall m | m in AbcSum() && Precedes(m, "C")
      ensures m in branches
      ensures CheckProps.BranchChecks(index, s, branches[m], AbcSum()[m], m, CValue(VOne), o, fuel - 1)
    {
      assert AbcSum()[m] == Righted(EOne, Nil);
      UnitBranchChecks(index, s, m, o, fuel - 1);
    }
    CheckProps.SplitMissingCase(index, s, branches, AbcSum(), 0, CValue(VOne), 0, o, fuel, "C");
  }

  /** A split of a sum whose payloads are all One, with the unit branch
      for every label, is decided by its extra branches alone. */
  lemma UnitSplit(index: nat, s: State, sum: CaseTree, branches: map<Label, Expr>, o: Collaborators, fuel: nat)
    requires fuel >= 3
    requires forall g, x, t, v :: o.updateGamma(g, PVar(x), t, v) == Ok(g[x := t])
    requires forall l :: l in sum ==> sum[l] == Righted(EOne, Nil) && l in branches && branches[l] == UnitBranch()
    ensures Check(index, s, ESplit(branches), VPi(VSum(sum, 0), CValue(VOne), 0), o, fuel) ==
      if branches.Keys == sum.Keys then Ok(s)
      else Err(UnexpectedCases(JoinLabels(SortedLabels(branches.Keys - sum.Keys))))
  {
    forall l | l in sum
      ensures CheckProps.BranchChecks(index, s, branches[l], sum[l], l, CValue(VOne), o, fuel - 1)
    {
      UnitBranchChecks(index, s, l, o, fuel - 1);
    }
    CheckProps.SplitComplete(index, s, branches, sum, 0, CValue(VOne), 0, o, fuel);
  }

  /** Branches for exactly `A`, `B` and `C`: the split checks and hands the
      state back. */
  lemma SplitExhaustive(index: nat, s: State, o: Collaborators, fuel: nat)
    requires fuel >= 3
    requires forall g, x, t, v :: o.updateGamma(g, PVar(x), t, v) == Ok(g[x := t])
    ensures Check(index, s, ESplit(map["A" := UnitBranch(), "B" := UnitBranch(), "C" := UnitBranch()]),
                  VPi(VSum(AbcSum(), 0), CValue(VOne), 0), o, fuel) == Ok(s)
  {
    var branches := map["A" := UnitBranch(), "B" := UnitBranch(), "C" := UnitBranch()];
    UnitSplit(index, s, AbcSum(), branches, o, fuel);
    assert branches.Keys == AbcSum().Keys;
  }

  /** The four branches `A` to `D`. */
  function AbcdBranches(): map<Label, Expr>
  {
    map["A" := UnitBranch(), "B" := UnitBranch(), "C" := UnitBranch(), "D" := UnitBranch()]
  }

  /** An extra branch `D` is reported as an unexpected case. */
  lemma SplitUnexpectedD(index: nat, s: State, o: Collaborators, fuel: nat)
    requires fuel >= 3
    requires forall g, x, t, v :: o.updateGamma(g, PVar(x), t, v) == Ok(g[x := t])
    ensures Check(index, s, ESplit(AbcdBranches()), VPi(VSum(AbcSum(), 0), CValue(VOne), 0), o, fuel) ==
      Err(UnexpectedCases("D"))
  {
    UnitSplit(index, s, AbcSum(), AbcdBranches(), o, fuel);
    OnlyD();
  }

  /** Beyond the sum's labels there is just `D`, and it is listed on its
      own. */
  lemma OnlyD()
    ensures AbcdBranches().Keys - AbcSum().Keys == {"D"}
    ensures JoinLabels(SortedLabels(AbcdBranches().Keys - AbcSum().Keys)) == "D"
  {
    assert "D" in AbcdBranches().Keys - AbcSum().Keys;
    assert {"D"} - {"D"} == {};
    assert SortedLabels({"D"}) == ["D"];
  }
}
