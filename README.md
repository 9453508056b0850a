# Mini-TT core: evaluation, read-back and bidirectional checking

This project is a Dafny model of the core of minitt-rs, a Rust implementation
of Mini-TT, a small dependently typed language with Pi and Sigma types,
labelled sums, case splits and a universe hierarchy. It has three parts:

- **The evaluator**: `Evaluator`, in `eval.dfy`.
  - It turns expressions into weak-head values under an environment chain
    (the telescope).
  - It projects names out of binding patterns and instantiates closures.
  - It applies lambdas and case splits, and builds stuck neutral terms when a
    placeholder gets in the way.
  - It computes the level of a type value.
- **Read-back**: `ReadBack`, in `read_back.dfy`.
  - It turns values, neutrals and telescopes into first-order normal forms.
  - It names each binder by the read-back index at which the binder was met.
    So the name of a bound variable does not matter. This is proved for
    lambdas whose body binds nothing and captures no environment, and for
    the identity function in any environment.
  - It decides equality up to normal form.
- **The checker**: `Checker`, in `check.dfy`.
  - Inference (`checkI`), type formation (`checkT`) and instance checking
    (`check`), with the sum-type, Pi/Sigma-former and exhaustive case-split
    rules.
  - An infer-then-subtype fallback.
  - `CheckLoops`, in `check_loops.dfy`, holds the source's two loops as
    imperative methods. They are the sum-payload loop and the case-split loop
    that removes branches from a mutable label map. Each is proved equal to
    the recursive rule the rest of the model uses.

Evaluation, read-back and checking need not terminate on ill-typed input:
evaluating a term may run forever. So every function of those recursive
groups takes a `fuel` bound. Running out is a separate outcome: `OutOfFuel`,
or `Exhausted` inside the checker.

The Rust code has three kinds of failure, and the model keeps them apart:
- a value of the wrong shape makes the Rust code panic, and the model
  returns `Panic(defect)` (`Defective(defect)` inside the checker);
- a typing error is `Err(TypeError)`;
- a failed lookup is `Err(LookupError)`.

Label maps are ordered maps in the source. `Labels.SortedLabels` gives their
iteration order, ascending lexicographic order of the labels. That order
decides which missing case, failing payload or leftover branch is reported.

The properties are proved in `eval_props.dfy`, `read_back_props.dfy` and
`check_props.dfy`. `scenarios.dfy` states and proves the results of the
evaluator and the checker on the identity function, an injection into a sum,
a pair of units, three case splits and an unbound name.

## Model

| member | source | states |
|---|---|---|
| Evaluator.Eval | src/eval.rs:184-251 | definition of `eval`, one arm per expression form; it has no contract of its own. Each arm is stated by an `EvalProps` lemma: literals and Void by `EvalLiterals`, variables by `EvalVariable`, formers by `FormerLevels`, merges by `MergeUnion`, lambdas, splits and declarations by `EvalClosures`, pairs by `EvalPair`, constructors by `EvalConstructor`, applications by `EvalApplication`, constant definitions by `EvalConstant`, and projections by `EvalProjections` with `ProjectionShapes` |
| Evaluator.Resolve | src/eval.rs:44-71 | a lookup is an error exactly when no frame of the environment binds the name, and that error is always "unresolved" |
| Evaluator.Instantiate | src/eval.rs:77-87 | definition of closure instantiation; stated by `EvalProps.ClosureShapes` and `EvalProps.InstantiateFuelMonotone` |
| Evaluator.Apply | src/eval.rs:156-177 | definition of `app`; stated by `EvalProps.ApplyShapes` and `EvalProps.ApplyFuelMonotone` |
| Evaluator.ReduceToValue | src/eval.rs:163-166 | a captured branch is evaluated in the environment it captured; a definition with no contract of its own |
| Evaluator.First | src/eval.rs:121-128 | the first projection succeeds exactly on pairs and neutrals, giving the first component or a stuck projection, and otherwise panics naming the value |
| Evaluator.Second | src/eval.rs:132-139 | the same for the second projection |
| Evaluator.Contains | src/eval.rs:7-13 | a pattern contains a name exactly when the name is among the pattern's variables |
| Evaluator.Project | src/eval.rs:16-38 | projection fails exactly when the pattern does not contain the name; a variable pattern projects its own name to the whole value |
| Evaluator.Destruct | src/eval.rs:143-153 | destructuring succeeds exactly when both projections do, returns the pair of them, and otherwise reports the value |
| Evaluator.BranchToRighted | src/eval.rs:196 | every branch of a sum or split is captured with the current environment, and no label is added or lost |
| Evaluator.Merged | src/eval.rs:198-209 | a merge has the labels of both sums, and the right operand wins on a shared label |
| Evaluator.LevelSafe | src/eval.rs:92-102 | only One, Type, Pi, Sigma and Sum have a level; One has level 0, `Type(l)` has level `l + 1`, and Pi, Sigma and Sum have their stored level |
| Evaluator.Level | src/eval.rs:104-109 | `level` succeeds exactly when `level_safe` gives a level, and otherwise panics naming the value; it never runs out of fuel |
| Evaluator.SucLevel | src/eval.rs:112-117 | `suc_level` is the level when there is one and 0 otherwise |
| EvalProps.ProjectAgreesWithBindings | src/eval.rs:16-38 | when a value has the pattern's shape, projecting a name gives the value the pattern binds to it, and projecting any other name fails |
| EvalProps.ResolveIsLookup | src/eval.rs:44-71 | in an environment of variable frames, resolving a name is a lookup in the map of its bindings, innermost frame first; an unbound name is unresolved |
| EvalProps.ResolveShadowing | src/eval.rs:63-69 | the innermost variable frame that binds the name answers the lookup; otherwise the lookup goes on outward; the empty chain resolves nothing |
| EvalProps.ResolveDeclarationFrame | src/eval.rs:48-61 | a declaration frame that does not bind the name is skipped; one that binds it evaluates its body, in an environment holding the declaration itself when it is recursive, and projects the name out of the result |
| EvalProps.EvalRenamed | src/eval.rs:184-251 | renaming a frame's variable and its occurrences in a body that binds nothing leaves evaluation unchanged, provided the new name was unused |
| EvalProps.EvalFuelMonotone | src/eval.rs:184-250 | once evaluation finishes, more fuel gives the same result |
| EvalProps.SequencedFuelMonotone | src/eval.rs:198-242 | the same for merge, application, pair and constant, which evaluate two sub-terms in sequence |
| EvalProps.ResolveFuelMonotone | src/eval.rs:44-71 | a finished lookup is unchanged by more fuel |
| EvalProps.InstantiateFuelMonotone | src/eval.rs:77-87 | a finished instantiation is unchanged by more fuel |
| EvalProps.ApplyFuelMonotone | src/eval.rs:156-177 | a finished application is unchanged by more fuel |
| EvalProps.ClosureShapes | src/eval.rs:77-87 | an abstraction evaluates its body with the argument bound to its pattern; a value closure ignores the argument; a choice closure tags the argument with its label first |
| EvalProps.ProjectionShapes | src/eval.rs:121-141 | the projections take a pair apart, turn a neutral into a stuck projection, and panic on anything else |
| EvalProps.ApplyShapes | src/eval.rs:156-177 | a lambda instantiates its closure; a split picks the branch of the constructor's label and applies it to the payload, or panics on an unknown label; a split or neutral applied to a neutral is stuck; a split applied to anything else panics with "cannot split on" it, and any other function value panics with "cannot apply" it |
| EvalProps.EvalVariable | src/eval.rs:190-193 | a variable evaluates to the value resolving it gives; a name no frame binds is the fatal unresolved-reference defect, and a defect met while resolving is passed on |
| EvalProps.EvalClosures | src/eval.rs:210-243 | a lambda and a case split close over the current environment without evaluating anything; a declaration evaluates the rest with the declaration pushed as a frame |
| EvalProps.EvalPair | src/eval.rs:238-241 | a pair evaluates exactly when both components do, to the pair of their values; a defect in the first component, or else in the second, is the result |
| EvalProps.EvalProjections | src/eval.rs:233-234 | a projection term evaluates the pair and projects its value; a defect in the pair is the result |
| EvalProps.EvalConstructor | src/eval.rs:242 | a constructor evaluates exactly when its payload does, to the payload tagged with the label; a defect in the payload is the result |
| EvalProps.EvalApplication | src/eval.rs:235-237 | an application applies the head's value to the argument's value; a defect in the head, or else in the argument, is the result |
| EvalProps.EvalConstant | src/eval.rs:244-248 | a constant definition evaluates the rest with the pattern bound to the body's value; a defect in the body is the result |
| EvalProps.EvalLiterals | src/eval.rs:184-248 | unit, One and `Type(l)` evaluate to themselves; Void has no evaluation rule and panics |
| EvalProps.FormerLevels | src/eval.rs:196-226 | sum, Pi and Sigma formers evaluate at level 0; Pi and Sigma close their codomain over the current environment with the evaluated domain as the hint |
| EvalProps.MergeUnion | src/eval.rs:198-209 | a merge succeeds only when both operands evaluate to sums; the result holds every label of either, and its level is the larger of the two |
| ReadBack.GenerateValue | src/read_back.rs:7-10 | the placeholder with a given identity; a definition, stated by `ReadBackProps.GeneratedKeepsId` |
| ReadBack.ReadBackValue | src/read_back.rs:45-91 | definition of `rbV`; stated arm by arm by the `ReadBackProps` lemmas below |
| ReadBack.ReadBackNeutral | src/read_back.rs:116-131 | definition of `rbN`; stated by `ReadBackProps.NeutralReadBack`, `ReadBackProps.SplitNeutralReadBack` and `ReadBackProps.GeneratedKeepsId` |
| ReadBack.ReadBackTelescope | src/read_back.rs:98-109 | definition of `rbRho`; stated by `ReadBackProps.TelescopeFrameReadBack` and `ReadBackProps.TelescopeKeepsFrames` |
| ReadBack.ReadBackCases | src/read_back.rs:83-88 | reading back a case tree keeps exactly its labels and every branch's syntax |
| ReadBack.EqNormal | src/read_back.rs:26-38 | equal up to normal form exactly when both sides read back to the same tree; a mismatch carries both trees, which differ |
| ReadBackProps.EqNormalReflexive | src/read_back.rs:26-38 | a value that reads back is equal to itself |
| ReadBackProps.EqNormalSymmetric | src/read_back.rs:26-38 | the verdict does not depend on argument order, and a swapped mismatch reports the trees swapped |
| ReadBackProps.EqNormalTransitive | src/read_back.rs:26-38 | equality up to normal form is transitive |
| ReadBackProps.GeneratedKeepsId | src/read_back.rs:7-10 | the placeholder `generate_value(id)` reads back to `Generated(id)` at any index |
| ReadBackProps.LambdaReadBack | src/read_back.rs:47-54 | a lambda reads back as `Lambda(index, b)`, where `b` is its body under the index's placeholder read back at `index + 1`; it succeeds exactly when both steps do; two closures that agree on the placeholder read back alike |
| ReadBackProps.FormerReadBack | src/read_back.rs:58-75 | Pi and Sigma read the domain at the index, name the binder by the index, and read the codomain under the placeholder at `index + 1`; they succeed exactly when all three steps do; closures that agree there read back alike |
| ReadBackProps.IdentityReadBack | src/read_back.rs:47-54 | `\x. x`, under any name and environment, reads back to `Lambda(i, Generated(i))` |
| ReadBackProps.IdentityAlphaInvariant | src/read_back.rs:26-54 | two identity functions with different variable names and environments are equal up to normal form |
| ReadBackProps.AlphaInvariant | src/read_back.rs:26-54 | two lambdas that differ only in the name of their variable, with a body that binds nothing, read back to the same tree and are equal up to normal form exactly when they read back |
| ReadBackProps.TelescopeFrameReadBack | src/read_back.rs:98-109 | a declaration frame is kept as it is; a variable frame keeps its pattern and its value is read back at the same index; each succeeds exactly when the rest of the environment and the value do |
| ReadBackProps.TelescopeKeepsFrames | src/read_back.rs:98-109 | telescope read-back keeps every declaration and pattern in place and in order |
| ReadBackProps.PairReadBack | src/read_back.rs:76-79 | a pair reads back component-wise at the same index, and succeeds exactly when both components do |
| ReadBackProps.ConReadBack | src/read_back.rs:80-82 | a constructor reads back its payload at the same index, keeps its label, and succeeds exactly when the payload does |
| ReadBackProps.NeutralReadBack | src/read_back.rs:120-125 | stuck applications and projections read back structurally at the same index |
| ReadBackProps.SplitNeutralReadBack | src/read_back.rs:126-129 | a stuck split reads back its case tree, with the same labels and branch bodies, and its stuck argument, at the same index; it succeeds exactly when both do |
| ReadBackProps.LiteralReadBack | src/read_back.rs:55-57 | unit and One map to the matching normal literal, and every universe `Type(l)` maps to the level-less normal `Type`, whatever its level |
| ReadBackProps.CasesKeepSyntax | src/read_back.rs:83-85 | a case split reads back with the same labels and the same branch bodies |
| ReadBackProps.FirstOrderReadBack | src/read_back.rs:45-91 | a value built from literals, pairs and constructors reads back to a fixed tree, whatever the index |
| ReadBackProps.QuoteFaithful | src/read_back.rs:55-82 | two such values have the same normal form exactly when they agree everywhere except in the levels of their universes |
| ReadBackProps.EqNormalFirstOrder | src/read_back.rs:26-38 | on such values equality up to normal form is exactly equality up to universe levels, in both directions |
| Labels.SortedLabels | src/check/expr.rs:152 | the iteration order of a label map lists exactly its labels, each once |
| Labels.SortedLabelsAscending | src/check/expr.rs:152 | that order is strictly ascending |
| Labels.SortedLabelsDistinct | src/check/expr.rs:152 | no label is visited twice |
| CheckLoops.CheckSumTypeLoop | src/check/expr.rs:193-198 | the payload loop computes exactly the sum-type rule |
| CheckLoops.CheckSplitLoop | src/check/expr.rs:150-173 | the case-split loop, removing branches from a mutable map, computes exactly the split rule |
| Checker.CheckInfer | src/check/expr.rs:10-79 | definition of `checkI`, one arm per term shape; stated by `CheckProps.InferLiterals`, `InferConstructorSingleton`, `InferPairNonDependent`, `InferErrors` (projections, non-Pi heads, unreachable and uninferable terms), `InferSumRule`, `InferFormerRule`, `InferAnnotatedApplication` and `InferApplication` |
| Checker.InferFormer | src/check/expr.rs:50-57 | inference of a Pi or Sigma former; stated by `CheckProps.InferFormerRule` |
| Checker.CheckType | src/check/expr.rs:83-93 | definition of `checkT`; stated by `CheckProps.CheckTrivial` and `CheckProps.CheckTypeGrows` |
| Checker.Check | src/check/expr.rs:97-183 | definition of `check`, one arm per term shape; stated by `CheckProps.CheckTrivial`, `CheckLambdaBindsGenerated`, `CheckPairRule`, `CheckConstructor`, `CheckFormersAgainstType`, `CheckDeclarationRule`, `CheckConstantRule`, `SplitFallsThrough` and the `Split*` lemmas |
| Checker.CheckFallback | src/check/expr.rs:187-190 | infer, then ask the subtyping collaborator; a definition with no contract of its own |
| Checker.CheckSumType | src/check/expr.rs:193-198 | the sum-type rule; stated by `CheckProps.SumTypeChecksEveryPayload` and `CheckProps.SumTypeFirstFailure` |
| Checker.CheckPayloads | src/check/expr.rs:194-197 | the payload walk; stated by `CheckProps.PayloadsAll` and `CheckProps.PayloadsFirstFailure` |
| Checker.CheckTelescoped | src/check/expr.rs:201-222 | the Pi/Sigma former rule; stated by `CheckProps.CheckTelescopedRule` and `CheckProps.CheckTelescopedGrows` |
| Checker.CheckSplit | src/check/expr.rs:150-173 | the case-split rule; stated by `CheckProps.SplitWalkSound`, `CheckProps.SplitWalkMissing` and `CheckProps.SplitWalkComplete` |
| Checker.CheckCases | src/check/expr.rs:152-172 | the walk over the sum's labels; stated by `CheckProps.CasesSound`, `CheckProps.CasesComplete`, `CheckProps.CasesLeftover` and `CheckProps.CasesMissing` |
| Checker.JoinLabels | src/check/expr.rs:170-171 | labels joined by a bar between spaces; stated by `CheckProps.CasesLeftover` and `Scenarios.SplitUnexpectedD` |
| CheckProps.InferLiterals | src/check/expr.rs:13-19 | unit has type One; Type, Void and One have type `Type`; a bound name has its Gamma type |
| CheckProps.InferConstructorSingleton | src/check/expr.rs:20-24 | a constructor infers exactly when its payload does, to an inferred sum with that one label |
| CheckProps.InferPairNonDependent | src/check/expr.rs:25-32 | a pair infers a non-dependent Sigma of the two inferred types |
| CheckProps.InferErrors | src/check/expr.rs:33-77 | the first projection of a non-Sigma, the second projection of a non-Sigma, and applying a non-Pi are errors; declarations and constants are unreachable; other forms cannot be inferred |
| CheckProps.InferSumRule | src/check/expr.rs:44-49 | a sum former infers `Type` exactly when every payload is a type, and otherwise has the sum-type rule's error |
| CheckProps.InferAnnotatedApplication | src/check/expr.rs:59-66 | an annotated lambda applied to an argument checks the argument against the annotation, binds the pattern to the placeholder of index `index + 1` in Gamma and the environment, and infers the body at `index + 1`; a failing argument check or Gamma update is the result |
| CheckProps.InferApplication | src/check/expr.rs:67-73 | any other application whose head has a Pi type checks the argument against the domain and has the codomain instantiated at the argument's value; a failing argument check or a defect evaluating it is the result |
| CheckProps.InferFormerRule | src/check/expr.rs:50-57 | Pi and Sigma formers infer alike: the domain is a type and the codomain is a type with the pattern typed in Gamma but the environment not extended; the type is `Type` |
| CheckProps.CheckTrivial | src/check/expr.rs:101-103 | the trivial rules hand back the state unchanged, and Void checks against anything |
| CheckProps.CheckLambdaBindsGenerated | src/check/expr.rs:104-114 | a lambda checks its body one index up, with the placeholder bound in Gamma and the environment, against the codomain instantiated there |
| CheckProps.CheckPairRule | src/check/expr.rs:115-124 | a pair against a Sigma checks its first component against the domain, then its second against the codomain instantiated at the evaluated first component, both under the original state; a failure of the first check, or a defect evaluating the first component, is the result |
| CheckProps.CheckConstructor | src/check/expr.rs:125-131 | a label not in the sum is an invalid constructor; otherwise the payload is checked against the label's type |
| CheckProps.CheckFormersAgainstType | src/check/expr.rs:132-136 | a sum former against `Type` is the sum-type rule, and a Pi or Sigma former against `Type` is the telescoped rule |
| CheckProps.CheckDeclarationRule | src/check/expr.rs:137-140 | a declaration is checked by the declaration checker, then the rest against the same type in the state it returns; its error is the result |
| CheckProps.CheckConstantRule | src/check/expr.rs:141-148 | a local constant infers the body's type, then checks the rest with the pattern typed at it in Gamma and bound to the body's evaluated value (not a placeholder) in the environment; an inference error is the result |
| CheckProps.SplitFallsThrough | src/check/expr.rs:174-179 | a split against a Pi whose domain is not a sum goes to the fallback rule |
| CheckProps.PayloadsAll | src/check/expr.rs:194-197 | the payload walk succeeds exactly when every payload is a type, and hands back the state |
| CheckProps.PayloadsFirstFailure | src/check/expr.rs:194-197 | the walk reports the first failing payload in walk order |
| CheckProps.SumTypeChecksEveryPayload | src/check/expr.rs:193-198 | a sum former is a type exactly when every payload is |
| CheckProps.SumTypeFirstFailure | src/check/expr.rs:193-198 | the error is the one of the least failing label in key order |
| CheckProps.CasesSound | src/check/expr.rs:152-172 | a successful walk hands back the state, consumed exactly the walked labels, and checked each branch |
| CheckProps.CasesComplete | src/check/expr.rs:152-166 | when every walked label has a checking branch, the walk reaches its end with those branches removed |
| CheckProps.CasesLeftover | src/check/expr.rs:167-172 | at the end, no leftover branches means success; leftovers are reported in key order, joined by a bar between spaces |
| CheckProps.CasesMissing | src/check/expr.rs:153-156 | the first walked label without a branch is the missing case |
| CheckProps.SplitWalkSound | src/check/expr.rs:150-173 | a split that checks has exactly the sum's labels, and every branch checks |
| CheckProps.SplitWalkMissing | src/check/expr.rs:150-173 | a sum label without a branch is reported when all earlier labels check |
| CheckProps.SplitWalkComplete | src/check/expr.rs:150-173 | when every sum label has a checking branch, the split succeeds, or else reports the extra branches |
| CheckProps.SplitWalksSumLabels | src/check/expr.rs:150-151 | a split against `Pi(Sum, c)` is the case-split walk over the sum's labels |
| CheckProps.SplitSound | src/check/expr.rs:150-173 | the same soundness, stated for `check` |
| CheckProps.SplitMissingCase | src/check/expr.rs:150-173 | the same missing-case verdict, stated for `check` |
| CheckProps.SplitComplete | src/check/expr.rs:150-173 | the same completeness verdict, stated for `check` |
| CheckProps.PlainEvaluates | src/eval.rs:188-235 | closed first-order terms evaluate, given fuel beyond their height |
| CheckProps.InferCheckBridge | src/check/expr.rs:97-190 | with reflexive subtyping, a term whose type is inferred also checks against that type and keeps the state (restricted fragment, see below) |
| CheckProps.VoidPairBreaksBridge | src/check/expr.rs:115-124 | `(Void, ())` infers a Sigma type but fails to check against it, because checking evaluates Void |
| CheckProps.CheckGrows | src/check/expr.rs:97-183 | with collaborators that never drop bindings, checking only adds names to Gamma and frames to the environment |
| CheckProps.CheckTypeGrows | src/check/expr.rs:83-93 | the same for type formation |
| CheckProps.CheckTelescopedRule | src/check/expr.rs:201-222 | a Pi or Sigma former is a type when its domain is one and its codomain is one at `index + 1`, with the pattern typed at the domain's value in Gamma and bound to the placeholder of index `index` in the environment; the domain's error, or the Gamma update's, is the result |
| CheckProps.CheckTelescopedGrows | src/check/expr.rs:201-222 | the same for Pi and Sigma formers, which push one frame |
| Scenarios.IdentityAppliedToUnit | src/eval.rs:229-231 | `(\x. x) ()` evaluates to unit |
| Scenarios.IdentityChecks | src/check/expr.rs:104-114 | `\x. x` checks against a Pi from One whose codomain is the constant One, leaving `x : One` in Gamma and the placeholder of index 0 in the environment |
| Scenarios.IdentityChecksEvaluated | src/check/expr.rs:104-114 | `Pi(_: One). One` evaluates to a Pi whose codomain closure evaluates One, and `\x. x` checks against that value with the same resulting state |
| Scenarios.InjectionChecks | src/check/expr.rs:125-131 | `inl ()` checks against the sum of `inl` and `inr`, both of type One, and is an invalid constructor against the sum of `inr` alone |
| Scenarios.PairChecks | src/check/expr.rs:115-124 | `((), ())` checks against `One * One`, the value of the written type `Sigma(_: One). One` |
| Scenarios.PairProjections | src/eval.rs:233-234 | both projections of `((), ())` evaluate to unit |
| Scenarios.UnboundName | src/check/expr.rs:15-19 | inferring an unbound name is an unresolved-name error |
| Scenarios.SplitMissingC | src/check/expr.rs:153-156 | branches for `A` and `B` against the sum of `A`, `B` and `C` miss case `C` |
| Scenarios.SplitExhaustive | src/check/expr.rs:150-168 | branches for `A`, `B` and `C` against that sum check |
| Scenarios.SplitUnexpectedD | src/check/expr.rs:167-172 | an extra branch `D` is the unexpected case `"D"` |

## Left out

- Evaluator.ReduceToValue and Evaluator.BranchToRighted: `src/eval.rs` only calls `reduce_to_value` and `branch_to_righted` (lines 165, 196 and 210), and their bodies are not part of this model. The definitions here are the model's own: evaluate a branch in the environment it captured, and capture every branch with the current environment.

- The collaborators the checker calls but which are not modelled are subtyping, declaration checking and `update_gamma`. The model takes them as a `Checker.Collaborators` record of uninterpreted functions, and lemmas that need a property of them state it as a hypothesis.
- The checker's wrappers in `src/check/mod.rs`, the command-line front end, parsing and the formatting of error messages are not part of this model. Errors carry the data they report, not the text.
- `Rc`/`Box` sharing and cloning are left out. Values are immutable trees.
- Evaluation, read-back and checking are not proved to terminate. Each carries a fuel bound instead, and running out is reported as its own outcome.
- Fuel monotonicity is proved for the evaluator but not for read-back or the checker.
- Indices and levels are unbounded naturals. The source's `u32` overflow is not modelled.
- The level fields that sum, Pi and Sigma formers carry on expressions are not represented: the evaluator and the checker ignore them.
- The checker's level-less `Type` is `VType(0)`. A `Type` expression checks against every `VType(l)`: the level is ignored, as in the level-less source.
- Read-back follows the same level-less revision: every `VType(l)` reads back to the normal `Type`, so equality up to normal form does not distinguish universe levels.
- Sums and case splits carry a map from labels to branches, each captured with its own environment, as `src/eval.rs` builds them. `src/read_back.rs` and `src/check/expr.rs` were written against a form with one shared environment. So read-back reads back every branch's environment in key order, and the checker evaluates a label's payload type in the environment its branch captured.
- `src/read_back.rs` has no rule for the checker's inferred sum type. Reading one back is the defect `NoReadBack`.
- Inference of Pi and Sigma formers does not push the pattern onto the environment for the codomain, unlike type formation of the same formers. The model follows the code (`CheckProps.InferFormerRule`).
- ReadBackProps.IdentityAlphaInvariant: alpha-invariance is proved for the identity function in any two environments, and by `ReadBackProps.AlphaInvariant` for any lambda whose body binds nothing and captures no environment (no inner lambda, former, sum, split or local definition), renamed in the same environment. For other lambdas it is reduced, by `ReadBackProps.LambdaReadBack`, to the two closures agreeing on the placeholder, which is not proved in general; neither are environments that differ but are equal up to normal form.
- CheckProps.InferCheckBridge: stated for terms that are not Pi or Sigma formers at the top and whose pairs have closed first-order first components, because checking a pair evaluates its first component. `(Void, ())` shows the bridge fails in general (`CheckProps.VoidPairBreaksBridge`). A Pi or Sigma former at the top is left out because checking it (`check_telescoped`) pushes the pattern onto the environment and hands the extended state back, while inferring it (`Checker.InferFormer`) does not, so the two states differ.
