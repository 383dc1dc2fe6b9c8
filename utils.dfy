/**
 * The genetic operators of pygenetics/utils.py: the cumulative selection
 * distribution, the best-member scan, per-locus mutation and single-point
 * crossover.
 */
module Utils {
  import opened Wrappers
  import opened Values
  import opened Members
  import opened Parameters

  // ---------------------------------------------------------------------
  // Cumulative distribution of selection probabilities (calc_cdf_vals)
  // ---------------------------------------------------------------------

  /** The total fitness of a list of members (Python's `sum` over them). */
  function FitnessSum(ms: seq<Member>): real
    decreases |ms|
  {
    if |ms| == 0 then 0.0 else FitnessSum(ms[..|ms| - 1]) + ms[|ms| - 1].FitnessScore()
  }

  lemma PrefixSumStep(ms: seq<Member>, j: nat)
    requires 0 < j <= |ms|
    ensures FitnessSum(ms[..j]) == FitnessSum(ms[..j - 1]) + ms[j - 1].FitnessScore()
  {
    assert ms[..j][..j - 1] == ms[..j - 1];
  }

  /** More members always weigh more, since every fitness score is positive. */
  lemma {:induction false} PrefixSumIncreasing(ms: seq<Member>, i: nat, j: nat)
    requires i < j <= |ms|
    ensures FitnessSum(ms[..i]) < FitnessSum(ms[..j])
    decreases j
  {
    PrefixSumStep(ms, j);
    if i < j - 1 {
      PrefixSumIncreasing(ms, i, j - 1);
    }
  }

  lemma FitnessSumPositive(ms: seq<Member>)
    requires |ms| > 0
    ensures FitnessSum(ms) > 0.0
  {
    assert ms[..0] == [] && ms[..|ms|] == ms;
    PrefixSumIncreasing(ms, 0, |ms|);
  }

  /** The specification of calc_cdf_vals: entry i is the fitness share of members 0..i. */
  function Cdf(ms: seq<Member>): (c: seq<real>)
    ensures |c| == |ms|
  {
    if |ms| == 0 then []
    else
      FitnessSumPositive(ms);
      seq(|ms|, i requires 0 <= i < |ms| => FitnessSum(ms[..i + 1]) / FitnessSum(ms))
  }

  lemma CdfAt(ms: seq<Member>, i: nat)
    requires i < |ms|
    ensures FitnessSum(ms) > 0.0
    ensures Cdf(ms)[i] == FitnessSum(ms[..i + 1]) / FitnessSum(ms)
  {
    FitnessSumPositive(ms);
  }

  lemma DivAdd(a: real, b: real, c: real)
    requires c != 0.0
    ensures a / c + b / c == (a + b) / c
  {
  }

  lemma DivMonotone(a: real, b: real, c: real)
    requires a < b && c > 0.0
    ensures a / c < b / c
  {
    assert b / c - a / c == (b - a) / c;
  }

  /** The distribution ends at exactly 1. */
  lemma CdfLastIsOne(ms: seq<Member>)
    requires |ms| > 0
    ensures Cdf(ms)[|ms| - 1] == 1.0
  {
    var t := FitnessSum(ms);
    assert ms[..|ms|] == ms;
    CdfAt(ms, |ms| - 1);
    assert Cdf(ms)[|ms| - 1] == t / t;
    DivSelf(t);
  }

  lemma DivSelf(t: real)
    requires t > 0.0
    ensures t / t == 1.0
  {
  }

  /** The distribution is positive and strictly increasing. */
  lemma CdfIncreasing(ms: seq<Member>, i: nat, j: nat)
    requires i < j < |ms|
    ensures 0.0 < Cdf(ms)[i] < Cdf(ms)[j]
  {
    CdfAt(ms, i);
    CdfAt(ms, j);
    var t, a, b := FitnessSum(ms), FitnessSum(ms[..i + 1]), FitnessSum(ms[..j + 1]);
    assert 0.0 < a < b by {
      assert ms[..0] == [];
      PrefixSumIncreasing(ms, 0, i + 1);
      PrefixSumIncreasing(ms, i + 1, j + 1);
    }
    SharesIncreasing(a, b, t);
  }

  lemma SharesIncreasing(a: real, b: real, t: real)
    requires 0.0 < a < b && t > 0.0
    ensures 0.0 < a / t < b / t
  {
    DivMonotone(0.0, a, t);
    DivMonotone(a, b, t);
  }

  /** One accumulation step: adding member k's share to the share of members 0..k-1. */
  lemma CumulativeShareStep(ms: seq<Member>, k: nat, total: real)
    requires k < |ms| && total != 0.0
    ensures FitnessSum(ms[..k]) / total + ms[k].FitnessScore() / total == FitnessSum(ms[..k + 1]) / total
  {
    PrefixSumStep(ms, k + 1);
    DivAdd(FitnessSum(ms[..k]), ms[k].FitnessScore(), total);
  }

  /** A list of the cumulative fitness shares is the distribution, with its properties. */
  lemma CumulativeSharesAreCdf(ms: seq<Member>, total: real, c: seq<real>)
    requires |ms| > 0 && |c| == |ms| && total == FitnessSum(ms) && total > 0.0
    requires forall j :: 0 <= j < |c| ==> c[j] == FitnessSum(ms[..j + 1]) / total
    ensures c == Cdf(ms)
    ensures c[|ms| - 1] == 1.0
    ensures forall i, j :: 0 <= i < j < |c| ==> 0.0 < c[i] < c[j]
  {
    forall i | 0 <= i < |ms|
      ensures c[i] == Cdf(ms)[i]
    {
      CdfAt(ms, i);
    }
    CdfLastIsOne(ms);
    forall i, j | 0 <= i < j < |c|
      ensures 0.0 < c[i] < c[j]
    {
      CdfIncreasing(ms, i, j);
    }
  }

  /** calc_cdf_vals: normalise each fitness by the total, then accumulate. */
  method CalcCdfVals(members: seq<Member>) returns (cdfVals: seq<real>)
    ensures cdfVals == Cdf(members)
    ensures |members| > 0 ==> cdfVals[|members| - 1] == 1.0
    ensures forall i, j :: 0 <= i < j < |cdfVals| ==> 0.0 < cdfVals[i] < cdfVals[j]
  {
    var fitnessSum := FitnessSum(members);
    if |members| > 0 {
      FitnessSumPositive(members);
    }
    var selectionProbs := seq(|members|, i requires 0 <= i < |members| => members[i].FitnessScore() / fitnessSum);
    cdfVals := [];
    var cumsum := 0.0;
    for k := 0 to |selectionProbs|
      invariant |cdfVals| == k
      invariant |members| > 0 ==> cumsum == FitnessSum(members[..k]) / fitnessSum
      invariant forall j :: 0 <= j < k ==> cdfVals[j] == FitnessSum(members[..j + 1]) / fitnessSum
    {
      CumulativeShareStep(members, k, fitnessSum);
      cumsum := cumsum + selectionProbs[k];
      cdfVals := cdfVals + [cumsum];
    }
    if |members| > 0 {
      CumulativeSharesAreCdf(members, fitnessSum, cdfVals);
    }
  }

  // ---------------------------------------------------------------------
  // The best member (determine_best_member)
  // ---------------------------------------------------------------------

  /** The index of the earliest member of highest fitness. */
  function BestIndex(ms: seq<Member>): (b: nat)
    requires |ms| > 0
    ensures b < |ms|
    ensures forall j :: 0 <= j < |ms| ==> ms[j].FitnessScore() <= ms[b].FitnessScore()
    ensures forall j :: 0 <= j < b ==> ms[j].FitnessScore() < ms[b].FitnessScore()
    decreases |ms|
  {
    if |ms| == 1 then 0
    else
      var k := BestIndex(ms[..|ms| - 1]);
      if ms[|ms| - 1].FitnessScore() > ms[k].FitnessScore() then |ms| - 1 else k
  }

  /** The best member also has the lowest objective value. */
  lemma BestHasLowestObjective(ms: seq<Member>, j: nat)
    requires j < |ms|
    ensures ms[BestIndex(ms)].objFnVal <= ms[j].objFnVal
  {
    var b := BestIndex(ms);
    if ms[j].objFnVal < ms[b].objFnVal {
      FitnessStrictlyDecreasing(ms[j].objFnVal, ms[b].objFnVal);
    }
  }

  /** The outcome the source's tests check: objective values 0, 1, 2 make the first member best. */
  lemma BestMemberExample()
    ensures var ms := [Member([IntV(0), IntV(0), IntV(0)], 0.0), Member([IntV(1), IntV(1), IntV(1)], 1.0),
                       Member([IntV(2), IntV(2), IntV(2)], 2.0)];
      BestIndex(ms) == 0 && ms[BestIndex(ms)].FitnessScore() == 1.0
  {
    var ms := [Member([IntV(0), IntV(0), IntV(0)], 0.0), Member([IntV(1), IntV(1), IntV(1)], 1.0),
               Member([IntV(2), IntV(2), IntV(2)], 2.0)];
    FitnessStrictlyDecreasing(0.0, 1.0);
    FitnessStrictlyDecreasing(0.0, 2.0);
    assert ms[0].FitnessScore() == 1.0;
  }

  /**
   * determine_best_member: a forward scan that replaces the candidate only
   * on a strictly greater fitness, so the earliest best member wins.
   */
  method DetermineBestMember(members: seq<Member>) returns (bestFitness: real, bestRetVal: real, bestParams: seq<Value>)
    requires |members| > 0
    ensures var b := BestIndex(members);
      bestFitness == members[b].FitnessScore() && bestRetVal == members[b].objFnVal && bestParams == members[b].params
    ensures forall j :: 0 <= j < |members| ==> members[j].FitnessScore() <= bestFitness
  {
    bestFitness := members[0].FitnessScore();
    bestRetVal := members[0].objFnVal;
    bestParams := members[0].params;
    ghost var best := 0;
    assert members[..1] == [members[0]];
    for i := 1 to |members|
      invariant best == BestIndex(members[..i])
      invariant bestFitness == members[best].FitnessScore()
      invariant bestRetVal == members[best].objFnVal && bestParams == members[best].params
    {
      assert members[..i + 1][..i] == members[..i];
      if members[i].FitnessScore() > bestFitness {
        bestFitness := members[i].FitnessScore();
        bestRetVal := members[i].objFnVal;
        bestParams := members[i].params;
        best := i;
      }
    }
    assert members[..|members|] == members;
  }

  // ---------------------------------------------------------------------
  // Per-locus mutation (mutate_params)
  // ---------------------------------------------------------------------

  /** The draws for one locus: the `uniform(0, 1)` gate and the attempts of mutate. */
  datatype LocusDraw = LocusDraw(gate: real, tries: seq<MutDraw>)

  predicate ValidLocusDraw(d: LocusDraw) {
    0.0 <= d.gate < 1.0 && forall t :: t in d.tries ==> ValidMutDraw(t)
  }

  /** One locus: mutated when its gate falls below the mutation rate, kept otherwise. */
  function MutateLocus(p: Parameter, v: Value, pMutation: real, d: LocusDraw): (r: Option<Value>)
    ensures d.gate >= pMutation ==> r == Some(v)
    ensures d.gate < pMutation ==> r == Mutate(p, v, d.tries)
    ensures r.Some? && p.Valid() && v.KindOf() == p.dtype ==> r.value.KindOf() == p.dtype
  {
    if d.gate < pMutation then Mutate(p, v, d.tries) else Some(v)
  }

  /**
   * The specification of mutate_params: every locus treated by MutateLocus;
   * None when some mutate call did not return within its draws.
   */
  function Mutated(curr: seq<Value>, ps: seq<Parameter>, pMutation: real, draws: seq<LocusDraw>): (r: Option<seq<Value>>)
    requires |curr| <= |ps| && |draws| == |curr|
    ensures r.Some? <==> forall i :: 0 <= i < |curr| ==> MutateLocus(ps[i], curr[i], pMutation, draws[i]).Some?
    ensures r.Some? ==> |r.value| == |curr|
    ensures r.Some? ==> forall i :: 0 <= i < |curr| ==>
      r.value[i] == curr[i] || Mutate(ps[i], curr[i], draws[i].tries) == Some(r.value[i])
  {
    if forall i :: 0 <= i < |curr| ==> MutateLocus(ps[i], curr[i], pMutation, draws[i]).Some? then
      Some(seq(|curr|, i requires 0 <= i < |curr| => MutateLocus(ps[i], curr[i], pMutation, draws[i]).value))
    else None
  }

  /** mutate_params: a loop appending each locus, mutated or kept. */
  method MutateParams(currParams: seq<Value>, params: seq<Parameter>, pMutation: real, draws: seq<LocusDraw>)
    returns (newParams: Option<seq<Value>>)
    requires |currParams| <= |params| && |draws| == |currParams|
    ensures newParams == Mutated(currParams, params, pMutation, draws)
  {
    var acc: seq<Value> := [];
    for idx := 0 to |currParams|
      invariant |acc| == idx
      invariant forall i :: 0 <= i < idx ==>
        MutateLocus(params[i], currParams[i], pMutation, draws[i]) == Some(acc[i])
    {
      if draws[idx].gate < pMutation {
        var m := Mutate(params[idx], currParams[idx], draws[idx].tries);
        if m.None? {
          assert MutateLocus(params[idx], currParams[idx], pMutation, draws[idx]).None?;
          return None;
        }
        acc := acc + [m.value];
      } else {
        acc := acc + [currParams[idx]];
      }
    }
    ghost var r := Mutated(currParams, params, pMutation, draws);
    assert r.Some? && r.value == acc;
    newParams := Some(acc);
  }

  /** With mutation rate 0 the vector comes back unchanged. */
  lemma MutatedZeroRate(curr: seq<Value>, ps: seq<Parameter>, draws: seq<LocusDraw>)
    requires |curr| <= |ps| && |draws| == |curr|
    requires forall i :: 0 <= i < |draws| ==> ValidLocusDraw(draws[i])
    ensures Mutated(curr, ps, 0.0, draws) == Some(curr)
  {
    assert forall i :: 0 <= i < |curr| ==> MutateLocus(ps[i], curr[i], 0.0, draws[i]) == Some(curr[i]);
    var r := Mutated(curr, ps, 0.0, draws);
    assert r.Some? && r.value == curr;
  }

  /**
   * With mutation rate 1 every locus goes through mutate, and a locus whose
   * parameter is not a small int range always changes.
   */
  lemma MutatedFullRate(curr: seq<Value>, ps: seq<Parameter>, draws: seq<LocusDraw>, r: seq<Value>)
    requires |curr| <= |ps| && |draws| == |curr|
    requires forall i :: 0 <= i < |draws| ==> ValidLocusDraw(draws[i])
    requires Mutated(curr, ps, 1.0, draws) == Some(r)
    ensures forall i :: 0 <= i < |curr| ==> Mutate(ps[i], curr[i], draws[i].tries) == Some(r[i])
    ensures forall i :: 0 <= i < |curr| && !ps[i].SmallIntSpan() ==> r[i].Num() != curr[i].Num()
  {
    forall i | 0 <= i < |curr|
      ensures Mutate(ps[i], curr[i], draws[i].tries) == Some(r[i])
    {
      assert MutateLocus(ps[i], curr[i], 1.0, draws[i]).Some?;
    }
  }

  /** Every parameter in the list is a constructed one. */
  predicate AllValid(ps: seq<Parameter>) {
    forall p :: p in ps ==> p.Valid()
  }

  /**
   * A vector fits the parameter list: one entry per parameter, each of the
   * parameter's kind, and within bounds wherever the parameter is restricted.
   */
  predicate Conforms(v: seq<Value>, ps: seq<Parameter>) {
    |v| == |ps| &&
    forall j :: 0 <= j < |ps| ==>
      v[j].KindOf() == ps[j].dtype && (ps[j].restrict && ps[j].Ordered() ==> ps[j].Contains(v[j]))
  }

  /** Mutation keeps a vector conforming. */
  lemma MutatedConforms(curr: seq<Value>, ps: seq<Parameter>, pMutation: real, draws: seq<LocusDraw>)
    requires Conforms(curr, ps) && |draws| == |curr| && AllValid(ps)
    ensures Mutated(curr, ps, pMutation, draws).Some? ==> Conforms(Mutated(curr, ps, pMutation, draws).value, ps)
  {
    var r := Mutated(curr, ps, pMutation, draws);
    if r.Some? {
      forall j | 0 <= j < |ps|
        ensures r.value[j].KindOf() == ps[j].dtype && (ps[j].restrict && ps[j].Ordered() ==> ps[j].Contains(r.value[j]))
      {
        assert ps[j] in ps;
      }
    }
  }

  // ---------------------------------------------------------------------
  // Single-point crossover (perform_crossover)
  // ---------------------------------------------------------------------

  /** Python's `s[:k]` for `k >= 0`. */
  function Take<T>(s: seq<T>, k: nat): (r: seq<T>)
    ensures |r| == if k <= |s| then k else |s|
    ensures forall i :: 0 <= i < |r| ==> r[i] == s[i]
  {
    if k <= |s| then s[..k] else s
  }

  /** Python's `s[k:]` for `k >= 0`. */
  function Drop<T>(s: seq<T>, k: nat): (r: seq<T>)
    ensures |r| == if k <= |s| then |s| - k else 0
    ensures forall i :: 0 <= i < |r| ==> r[i] == s[k + i]
    ensures Take(s, k) + r == s
  {
    if k <= |s| then s[k..] else []
  }

  /**
   * perform_crossover at the cut point `crossPt` drawn by `randint(1, len - 1)`:
   * the heads are kept and the tails swapped.
   */
  function PerformCrossover(params1: seq<Value>, params2: seq<Value>, crossPt: nat): (r: (seq<Value>, seq<Value>))
    requires 1 <= crossPt <= |params1| - 1
    ensures |params1| == |params2| ==> |r.0| == |params1| && |r.1| == |params1|
    ensures |params1| == |params2| ==> forall i :: 0 <= i < |params1| ==>
      (i < crossPt ==> r.0[i] == params1[i] && r.1[i] == params2[i]) &&
      (crossPt <= i ==> r.0[i] == params2[i] && r.1[i] == params1[i])
  {
    var firstParams := Take(params1, crossPt) + Drop(params2, crossPt);
    var secondParams := Take(params2, crossPt) + Drop(params1, crossPt);
    (firstParams, secondParams)
  }

  /** Crossing the children again at the same point gives back the parents. */
  lemma CrossoverInvolution(params1: seq<Value>, params2: seq<Value>, crossPt: nat)
    requires |params1| == |params2| && 1 <= crossPt <= |params1| - 1
    ensures var (c1, c2) := PerformCrossover(params1, params2, crossPt);
      PerformCrossover(c1, c2, crossPt) == (params1, params2)
  {
    var (c1, c2) := PerformCrossover(params1, params2, crossPt);
    var (d1, d2) := PerformCrossover(c1, c2, crossPt);
    assert d1 == params1;
    assert d2 == params2;
  }

  /** Crossover only rearranges values: the children hold the parents' values together. */
  lemma CrossoverPreservesValues(params1: seq<Value>, params2: seq<Value>, crossPt: nat)
    requires |params1| == |params2| && 1 <= crossPt <= |params1| - 1
    ensures var (c1, c2) := PerformCrossover(params1, params2, crossPt);
      multiset(c1) + multiset(c2) == multiset(params1) + multiset(params2)
  {
    assert params1 == params1[..crossPt] + params1[crossPt..];
    assert params2 == params2[..crossPt] + params2[crossPt..];
  }

  /** Children of conforming parents conform. */
  lemma CrossoverConforms(params1: seq<Value>, params2: seq<Value>, ps: seq<Parameter>, crossPt: nat)
    requires Conforms(params1, ps) && Conforms(params2, ps) && 1 <= crossPt <= |params1| - 1
    ensures Conforms(PerformCrossover(params1, params2, crossPt).0, ps)
    ensures Conforms(PerformCrossover(params1, params2, crossPt).1, ps)
  {
  }

  /** The outcomes the source's tests check. */
  lemma CrossoverExamples()
    ensures PerformCrossover([IntV(0), IntV(0)], [IntV(1), IntV(1)], 1) == ([IntV(0), IntV(1)], [IntV(1), IntV(0)])
    ensures forall k :: 1 <= k <= 3 ==>
      var (c1, c2) := PerformCrossover([IntV(0), IntV(0), IntV(0), IntV(0)], [IntV(1), IntV(1), IntV(1), IntV(1)], k);
      c1 in FourLocusOutcomes() && c2 in FourLocusOutcomes()
  {
    var (a1, a2) := PerformCrossover([IntV(0), IntV(0)], [IntV(1), IntV(1)], 1);
    assert a1 == [IntV(0), IntV(1)] && a2 == [IntV(1), IntV(0)];
    forall k | 1 <= k <= 3
      ensures var (c1, c2) := PerformCrossover([IntV(0), IntV(0), IntV(0), IntV(0)], [IntV(1), IntV(1), IntV(1), IntV(1)], k);
        c1 in FourLocusOutcomes() && c2 in FourLocusOutcomes()
    {
      FourLocusCut(k);
    }
  }

  /** One cut of `[0,0,0,0]` with `[1,1,1,1]`: the children are outcomes `3 - k` and `6 - k`. */
  lemma FourLocusCut(k: nat)
    requires 1 <= k <= 3
    ensures var (c1, c2) := PerformCrossover([IntV(0), IntV(0), IntV(0), IntV(0)], [IntV(1), IntV(1), IntV(1), IntV(1)], k);
      c1 == FourLocusOutcomes()[3 - k] && c2 == FourLocusOutcomes()[6 - k]
  {
    var (c1, c2) := PerformCrossover([IntV(0), IntV(0), IntV(0), IntV(0)], [IntV(1), IntV(1), IntV(1), IntV(1)], k);
    var o := FourLocusOutcomes();
    assert |c1| == 4 == |o[3 - k]| && forall i :: 0 <= i < 4 ==> c1[i] == o[3 - k][i];
    assert |c2| == 4 == |o[6 - k]| && forall i :: 0 <= i < 4 ==> c2[i] == o[6 - k][i];
  }

  function FourLocusOutcomes(): seq<seq<Value>> {
    [[IntV(0), IntV(0), IntV(0), IntV(1)], [IntV(0), IntV(0), IntV(1), IntV(1)], [IntV(0), IntV(1), IntV(1), IntV(1)],
     [IntV(1), IntV(1), IntV(1), IntV(0)], [IntV(1), IntV(1), IntV(0), IntV(0)], [IntV(1), IntV(0), IntV(0), IntV(0)]]
  }

  // ---------------------------------------------------------------------
  // Objective evaluation (call_obj_fn)
  // ---------------------------------------------------------------------

  /** call_obj_fn: the vector paired with the objective's value on it. */
  function CallObjFn(params: seq<Value>, objFn: seq<Value> -> real): (r: (seq<Value>, real))
    ensures r.0 == params
    ensures r.1 == objFn(params)
  {
    (params, objFn(params))
  }
}
