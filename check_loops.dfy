/** The two loops of the checker, as loops: the payload walk of a sum former
    and the case-split walk that consumes branches from a mutable label map.
    Each is proved to compute exactly what the recursive rule of `Checker`
    that the rest of the checker calls computes. */
module CheckLoops {
  import opened Labels
  import opened Syntax
  import opened Evaluator
  import opened Checker

  /** Check every payload of a sum former in key order, stopping at the first
      failure; on success the state is handed back unchanged. */
  method CheckSumTypeLoop(index: nat, s: State, branches: map<Label, Expr>, o: Collaborators, fuel: nat)
    returns (r: Outcome<State, TypeError>)
    ensures r == CheckSumType(index, s, branches, o, fuel)
  {
    if fuel == 0 {
      return Exhausted;
    }
    var labels := SortedLabels(branches.Keys);
    var k := 0;
    while k < |labels|
      invariant 0 <= k <= |labels|
      invariant CheckPayloads(index, s, labels, branches, o, fuel - 1)
             == CheckPayloads(index, s, labels[k..], branches, o, fuel - 1)
    {
      var _ :- CheckType(index, s, branches[labels[k]], o, fuel - 1);
      assert labels[k..][1..] == labels[k + 1..];
      k := k + 1;
    }
    return Ok(s);
  }

  /** The exhaustive case split: walk the sum labels in key order, remove
      each one's branch from `remaining` (a missing branch is a missing
      case), check it against `Pi(payload type, Choice(c, label))`, and
      finally reject whatever branches are left. */
  method CheckSplitLoop(index: nat, s: State, sum: CaseTree, branches: map<Label, Expr>, c: Closure,
                        o: Collaborators, fuel: nat)
    returns (r: Outcome<State, TypeError>)
    ensures r == CheckSplit(index, s, sum, branches, c, o, fuel)
  {
    if fuel == 0 {
      return Exhausted;
    }
    var labels := SortedLabels(sum.Keys);
    var remaining := branches;
    var k := 0;
    while k < |labels|
      invariant 0 <= k <= |labels|
      invariant CheckCases(index, s, labels, branches, sum, c, o, fuel - 1)
             == CheckCases(index, s, labels[k..], remaining, sum, c, o, fuel - 1)
    {
      var l := labels[k];
      assert labels[k..][0] == l && labels[k..][1..] == labels[k + 1..];
      if l !in remaining {
        return Err(MissingCase(l));
      }
      ghost var before := remaining;
      var branch := remaining[l];
      remaining := remaining - {l};
      var payloadType :- Lift(ReduceToValue(sum[l], fuel - 1));
      var _ :- Check(index, s, branch, VPi(payloadType, CChoice(c, l), 0), o, fuel - 1);
      assert CheckCases(index, s, labels[k..], before, sum, c, o, fuel - 1)
          == CheckCases(index, s, labels[k + 1..], remaining, sum, c, o, fuel - 1);
      k := k + 1;
    }
    if |remaining| == 0 {
      return Ok(s);
    }
    return Err(UnexpectedCases(JoinLabels(SortedLabels(remaining.Keys))));
  }
}
