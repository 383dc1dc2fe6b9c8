/**
 * The population and its generation step (pygenetics/population.py):
 * Empty (no parameters) -> Configured (parameters, no members) ->
 * Initialized (members present).
 */
module Populations {
  import opened Wrappers
  import opened Values
  import opened Members
  import opened Parameters
  import opened Utils

  /** The exceptions the population raises, and the model's one extra outcome. */
  datatype PopError =
    | PopSizeTooSmall                 // ValueError: `pop_size <= 1`
    | ParamAfterInit                  // RuntimeError: add_param once members exist
    | InvalidParam(cause: ParamError) // ValueError raised by Parameter
    | NoParams                        // RuntimeError: initialize without parameters
    | NotInitialized                  // RuntimeError: next_generation before initialize
    | BadCrossoverProb                // ValueError: `p_crossover` outside [0, 1]
    | BadMutationProb                 // ValueError: `p_mutation` outside [0, 1]
    | OutOfDraws                      // a retry loop used up the draws supplied to it

  // ---------------------------------------------------------------------
  // Selection
  // ---------------------------------------------------------------------

  /**
   * `bisect(a, x)` (bisect_right): the first index whose entry exceeds `x`,
   * which on a sorted list is the insertion point after every entry <= x.
   */
  function Bisect(a: seq<real>, x: real): (i: nat)
    ensures i <= |a|
    ensures forall j :: 0 <= j < i ==> a[j] <= x
    ensures i < |a| ==> x < a[i]
    ensures |a| > 0 && x < a[|a| - 1] ==> i < |a|
    decreases |a|
  {
    if |a| == 0 || x < a[0] then 0 else 1 + Bisect(a[1..], x)
  }

  /** The mate: the first of the mate draws that selects a member other than `chosen`. */
  function MateIndex(cdf: seq<real>, chosen: nat, mates: seq<real>): (r: Option<nat>)
    ensures r.Some? ==> r.value != chosen
    ensures r.Some? && |cdf| > 0 && (forall j :: 0 <= j < |mates| ==> mates[j] < cdf[|cdf| - 1]) ==> r.value < |cdf|
    ensures r.Some? ==> exists j :: 0 <= j < |mates| && r.value == Bisect(cdf, mates[j])
    decreases |mates|
  {
    if |mates| == 0 then None
    else
      var m := Bisect(cdf, mates[0]);
      if m != chosen then Some(m) else MateIndex(cdf, chosen, mates[1..])
  }

  /** The mate-resampling loop: draw again while the draw selects the chosen member. */
  method SelectMate(cdf: seq<real>, chosen: nat, mates: seq<real>) returns (mate: Option<nat>)
    ensures mate == MateIndex(cdf, chosen, mates)
  {
    if |mates| == 0 {
      return None;
    }
    var j := 0;
    var m := Bisect(cdf, mates[0]);
    while m == chosen
      invariant 0 <= j < |mates|
      invariant m == Bisect(cdf, mates[j])
      invariant MateIndex(cdf, chosen, mates[j..]) == MateIndex(cdf, chosen, mates)
      decreases |mates| - j
    {
      assert mates[j..][1..] == mates[j + 1..];
      j := j + 1;
      if j == |mates| {
        assert mates[j..] == [];
        return None;
      }
      m := Bisect(cdf, mates[j]);
    }
    mate := Some(m);
  }

  // ---------------------------------------------------------------------
  // Sampling an initial vector
  // ---------------------------------------------------------------------

  /** `[p.rand_val for p in params]` for one draw per parameter. */
  function Sample(ps: seq<Parameter>, us: seq<real>): (v: seq<Value>)
    requires |us| == |ps|
    ensures |v| == |ps|
    ensures forall j :: 0 <= j < |ps| ==> v[j] == RandVal(ps[j], us[j]) && v[j].KindOf() == ps[j].dtype
  {
    seq(|ps|, j requires 0 <= j < |ps| => RandVal(ps[j], us[j]))
  }

  /** A sampled vector conforms and lies within every ordered parameter's bounds. */
  lemma SampleConforms(ps: seq<Parameter>, us: seq<real>)
    requires |us| == |ps| && AllValid(ps)
    requires forall j :: 0 <= j < |us| ==> 0.0 <= us[j] < 1.0
    ensures Conforms(Sample(ps, us), ps)
    ensures forall j :: 0 <= j < |ps| && ps[j].Ordered() ==> ps[j].Contains(Sample(ps, us)[j])
  {
    forall j | 0 <= j < |ps| && ps[j].Ordered()
      ensures ps[j].Contains(Sample(ps, us)[j])
    {
      assert ps[j] in ps;
      RandValWithinBounds(ps[j], us[j]);
    }
  }

  // ---------------------------------------------------------------------
  // One iteration of the offspring loop
  // ---------------------------------------------------------------------

  /**
   * The draws of one iteration: `random()` for the chosen member, the
   * `uniform(0, 1)` crossover gate, the `random()` draws of the mate loop,
   * the `randint` cut point and the per-locus draws of the one or two
   * mutate_params calls.
   */
  datatype GenDraw = GenDraw(select: real, gate: real, mates: seq<real>, crossPt: nat,
                             loci1: seq<LocusDraw>, loci2: seq<LocusDraw>)

  predicate ValidGenDraw(d: GenDraw, nParams: nat) {
    && 0.0 <= d.select < 1.0
    && 0.0 <= d.gate < 1.0
    && (forall j :: 0 <= j < |d.mates| ==> 0.0 <= d.mates[j] < 1.0)
    && (nParams > 1 ==> 1 <= d.crossPt <= nParams - 1)
    && |d.loci1| == nParams && |d.loci2| == nParams
    && (forall l :: l in d.loci1 ==> ValidLocusDraw(l))
    && (forall l :: l in d.loci2 ==> ValidLocusDraw(l))
  }

  predicate AllValidGenDraws(draws: seq<GenDraw>, nParams: nat) {
    forall i :: 0 <= i < |draws| ==> ValidGenDraw(draws[i], nParams)
  }

  /** What the loop body needs: members present, their distribution, vectors of the right length. */
  predicate BreedReady(ms: seq<Member>, ps: seq<Parameter>, cdf: seq<real>) {
    && |ms| > 0 && |cdf| == |ms| && cdf[|ms| - 1] == 1.0
    && forall i :: 0 <= i < |ms| ==> |ms[i].params| == |ps|
  }

  /**
   * The offspring of one iteration: crossover of the chosen member and its
   * mate (two vectors) when there is more than one parameter and the gate
   * falls below `p_crossover`, else the chosen member alone; every vector
   * then goes through mutate_params.
   */
  function Breed(ms: seq<Member>, ps: seq<Parameter>, cdf: seq<real>, pCrossover: real, pMutation: real, d: GenDraw)
    : (kids: Option<seq<seq<Value>>>)
    requires BreedReady(ms, ps, cdf) && ValidGenDraw(d, |ps|)
    ensures kids.Some? ==> 1 <= |kids.value| <= 2
    ensures kids.Some? ==> (|kids.value| == 2 <==> |ps| > 1 && d.gate < pCrossover)
  {
    var chosen := Bisect(cdf, d.select);
    if |ps| > 1 && d.gate < pCrossover then
      match MateIndex(cdf, chosen, d.mates)
      case None => None
      case Some(mate) =>
        var (c1, c2) := PerformCrossover(ms[chosen].params, ms[mate].params, d.crossPt);
        var m1 := Mutated(c1, ps, pMutation, d.loci1);
        var m2 := Mutated(c2, ps, pMutation, d.loci2);
        if m1.Some? && m2.Some? then Some([m1.value, m2.value]) else None
    else
      var m := Mutated(ms[chosen].params, ps, pMutation, d.loci1);
      if m.Some? then Some([m.value]) else None
  }

  /** The body of the offspring loop in next_generation. */
  method BreedStep(ms: seq<Member>, ps: seq<Parameter>, cdf: seq<real>, pCrossover: real, pMutation: real, d: GenDraw)
    returns (kids: Option<seq<seq<Value>>>)
    requires BreedReady(ms, ps, cdf) && ValidGenDraw(d, |ps|)
    ensures kids == Breed(ms, ps, cdf, pCrossover, pMutation, d)
  {
    var chosen := Bisect(cdf, d.select);
    if |ps| > 1 && d.gate < pCrossover {
      var mate := SelectMate(cdf, chosen, d.mates);
      if mate.None? {
        return None;
      }
      var (newParams1, newParams2) := PerformCrossover(ms[chosen].params, ms[mate.value].params, d.crossPt);
      var m1 := MutateParams(newParams1, ps, pMutation, d.loci1);
      if m1.None? {
        return None;
      }
      var m2 := MutateParams(newParams2, ps, pMutation, d.loci2);
      if m2.None? {
        return None;
      }
      kids := Some([m1.value, m2.value]);
    } else {
      var m := MutateParams(ms[chosen].params, ps, pMutation, d.loci1);
      if m.None? {
        return None;
      }
      kids := Some([m.value]);
    }
  }

  /** The chosen member and its mate are two distinct members. */
  lemma BreedPicksDistinctParents(ms: seq<Member>, ps: seq<Parameter>, cdf: seq<real>, d: GenDraw)
    requires BreedReady(ms, ps, cdf) && ValidGenDraw(d, |ps|)
    ensures Bisect(cdf, d.select) < |ms|
    ensures MateIndex(cdf, Bisect(cdf, d.select), d.mates).Some? ==>
      var mate := MateIndex(cdf, Bisect(cdf, d.select), d.mates).value;
      mate < |ms| && mate != Bisect(cdf, d.select)
  {
  }

  /** The offspring of conforming members conform. */
  lemma BreedConforms(ms: seq<Member>, ps: seq<Parameter>, cdf: seq<real>, pCrossover: real, pMutation: real, d: GenDraw)
    requires BreedReady(ms, ps, cdf) && ValidGenDraw(d, |ps|) && AllValid(ps)
    requires forall i :: 0 <= i < |ms| ==> Conforms(ms[i].params, ps)
    ensures Breed(ms, ps, cdf, pCrossover, pMutation, d).Some? ==>
      forall v :: v in Breed(ms, ps, cdf, pCrossover, pMutation, d).value ==> Conforms(v, ps)
  {
    var chosen := Bisect(cdf, d.select);
    if |ps| > 1 && d.gate < pCrossover {
      var mate := MateIndex(cdf, chosen, d.mates);
      if mate.Some? {
        var (c1, c2) := PerformCrossover(ms[chosen].params, ms[mate.value].params, d.crossPt);
        CrossoverConforms(ms[chosen].params, ms[mate.value].params, ps, d.crossPt);
        MutatedConforms(c1, ps, pMutation, d.loci1);
        MutatedConforms(c2, ps, pMutation, d.loci2);
      }
    } else {
      MutatedConforms(ms[chosen].params, ps, pMutation, d.loci1);
    }
  }

  // ---------------------------------------------------------------------
  // The whole offspring loop
  // ---------------------------------------------------------------------

  /**
   * The offspring loop from the vectors `acc` gathered so far, `k`
   * iterations in: iterate until at least `popSize` vectors exist, with no
   * truncation of a crossover pair that overshoots.
   */
  function Offspring(ms: seq<Member>, ps: seq<Parameter>, cdf: seq<real>, pCrossover: real, pMutation: real,
                     draws: seq<GenDraw>, popSize: nat, acc: seq<seq<Value>>, k: nat): (r: Option<seq<seq<Value>>>)
    requires BreedReady(ms, ps, cdf) && AllValidGenDraws(draws, |ps|)
    requires popSize <= |draws| && k <= |acc|
    ensures |acc| >= popSize ==> r == Some(acc)
    ensures r.Some? ==> popSize <= |r.value| && acc <= r.value
    ensures r.Some? && |acc| <= popSize + 1 ==> |r.value| <= popSize + 1
    decreases popSize - |acc|
  {
    if |acc| >= popSize then Some(acc)
    else
      match Breed(ms, ps, cdf, pCrossover, pMutation, draws[k])
      case None => None
      case Some(kids) => Offspring(ms, ps, cdf, pCrossover, pMutation, draws, popSize, acc + kids, k + 1)
  }

  /** The loop ends with `popSize` or `popSize + 1` conforming vectors. */
  lemma {:induction false} OffspringShape(ms: seq<Member>, ps: seq<Parameter>, cdf: seq<real>, pCrossover: real, pMutation: real,
                                          draws: seq<GenDraw>, popSize: nat, acc: seq<seq<Value>>, k: nat)
    requires BreedReady(ms, ps, cdf) && AllValidGenDraws(draws, |ps|)
    requires popSize <= |draws| && k <= |acc| && |acc| <= popSize + 1
    requires AllValid(ps) && forall i :: 0 <= i < |ms| ==> Conforms(ms[i].params, ps)
    requires forall v :: v in acc ==> Conforms(v, ps)
    ensures Offspring(ms, ps, cdf, pCrossover, pMutation, draws, popSize, acc, k).Some? ==>
      var r := Offspring(ms, ps, cdf, pCrossover, pMutation, draws, popSize, acc, k).value;
      popSize <= |r| <= popSize + 1 && forall v :: v in r ==> Conforms(v, ps)
    decreases popSize - |acc|
  {
    if |acc| < popSize {
      var kids := Breed(ms, ps, cdf, pCrossover, pMutation, draws[k]);
      if kids.Some? {
        BreedConforms(ms, ps, cdf, pCrossover, pMutation, draws[k]);
        OffspringShape(ms, ps, cdf, pCrossover, pMutation, draws, popSize, acc + kids.value, k + 1);
      }
    }
  }

  /** The offspring vectors of one next_generation call on members `ms`. */
  function Generation(ms: seq<Member>, ps: seq<Parameter>, pCrossover: real, pMutation: real,
                      draws: seq<GenDraw>, popSize: nat): (r: Option<seq<seq<Value>>>)
    requires |ms| > 0 && forall i :: 0 <= i < |ms| ==> |ms[i].params| == |ps|
    requires AllValidGenDraws(draws, |ps|) && popSize <= |draws|
    ensures r.Some? ==> popSize <= |r.value| <= popSize + 1
  {
    CdfLastIsOne(ms);
    Offspring(ms, ps, Cdf(ms), pCrossover, pMutation, draws, popSize, [], 0)
  }

  /** The offspring loop of next_generation: breed until `popSize` vectors exist. */
  method BreedAll(ms: seq<Member>, ps: seq<Parameter>, cdf: seq<real>, pCrossover: real, pMutation: real,
                  draws: seq<GenDraw>, popSize: nat) returns (r: Option<seq<seq<Value>>>)
    requires BreedReady(ms, ps, cdf) && AllValidGenDraws(draws, |ps|) && popSize <= |draws|
    ensures r == Offspring(ms, ps, cdf, pCrossover, pMutation, draws, popSize, [], 0)
  {
    var newParamVals: seq<seq<Value>> := [];
    var k := 0;
    while |newParamVals| < popSize
      invariant k <= |newParamVals|
      invariant Offspring(ms, ps, cdf, pCrossover, pMutation, draws, popSize, newParamVals, k)
             == Offspring(ms, ps, cdf, pCrossover, pMutation, draws, popSize, [], 0)
      decreases popSize - |newParamVals|
    {
      var kids := BreedStep(ms, ps, cdf, pCrossover, pMutation, draws[k]);
      if kids.None? {
        return None;
      }
      newParamVals := newParamVals + kids.value;
      k := k + 1;
    }
    r := Some(newParamVals);
  }

  /** The evaluation loop: one (vector, objective value) pair per vector, in order. */
  method EvaluateAll(vecs: seq<seq<Value>>, objFn: seq<Value> -> real) returns (results: seq<(seq<Value>, real)>)
    ensures |results| == |vecs|
    ensures forall t :: 0 <= t < |vecs| ==> results[t] == (vecs[t], objFn(vecs[t]))
  {
    results := [];
    for i := 0 to |vecs|
      invariant |results| == i
      invariant forall t :: 0 <= t < i ==> results[t] == (vecs[t], objFn(vecs[t]))
    {
      results := results + [CallObjFn(vecs[i], objFn)];
    }
  }

  /** The members built from evaluating each vector, in submission order. */
  function Evaluate(vecs: seq<seq<Value>>, objFn: seq<Value> -> real): (ms: seq<Member>)
    ensures |ms| == |vecs|
    ensures forall i :: 0 <= i < |vecs| ==> ms[i].params == vecs[i] && ms[i].objFnVal == objFn(vecs[i])
  {
    seq(|vecs|, i requires 0 <= i < |vecs| => Member(vecs[i], objFn(vecs[i])))
  }

  // ---------------------------------------------------------------------
  // Aggregates
  // ---------------------------------------------------------------------

  /** The total objective value of a list of members. */
  function ObjSum(ms: seq<Member>): real
    decreases |ms|
  {
    if |ms| == 0 then 0.0 else ObjSum(ms[..|ms| - 1]) + ms[|ms| - 1].objFnVal
  }

  lemma {:induction false} FitnessSumAtMostBound(ms: seq<Member>, c: real)
    requires forall i :: 0 <= i < |ms| ==> ms[i].FitnessScore() <= c
    ensures FitnessSum(ms) <= |ms| as real * c
    decreases |ms|
  {
    if |ms| > 0 {
      FitnessSumAtMostBound(ms[..|ms| - 1], c);
    }
  }

  /** A mean of fitness scores that are all at most `c` is positive and at most `c`. */
  lemma FitnessMeanAtMost(ms: seq<Member>, c: real)
    requires |ms| > 0
    requires forall i :: 0 <= i < |ms| ==> ms[i].FitnessScore() <= c
    ensures 0.0 < FitnessSum(ms) / |ms| as real <= c
  {
    FitnessSumPositive(ms);
    FitnessSumAtMostBound(ms, c);
    MeanBounds(FitnessSum(ms), |ms| as real, c);
  }

  lemma {:induction false} ObjSumAtLeast(ms: seq<Member>, c: real)
    requires forall i :: 0 <= i < |ms| ==> c <= ms[i].objFnVal
    ensures |ms| as real * c <= ObjSum(ms)
    decreases |ms|
  {
    if |ms| > 0 {
      ObjSumAtLeast(ms[..|ms| - 1], c);
    }
  }

  lemma DivAtMost(s: real, n: real, c: real)
    requires n > 0.0 && s <= n * c
    ensures s / n <= c
  {
    assert (n * c) / n == c;
    if s < n * c {
      DivMonotone(s, n * c, n);
    }
  }

  lemma MeanBounds(s: real, n: real, c: real)
    requires n > 0.0 && 0.0 < s <= n * c
    ensures 0.0 < s / n <= c
  {
    DivAtMost(s, n, c);
  }

  lemma DivAtLeast(s: real, n: real, c: real)
    requires n > 0.0 && n * c <= s
    ensures c <= s / n
  {
    assert (n * c) / n == c;
    if n * c < s {
      DivMonotone(n * c, s, n);
    }
  }

  /** The mean fitness is positive and at most the best fitness. */
  lemma AverageFitnessBounds(ms: seq<Member>)
    requires |ms| > 0
    ensures 0.0 < FitnessSum(ms) / |ms| as real <= ms[BestIndex(ms)].FitnessScore()
  {
    FitnessMeanAtMost(ms, ms[BestIndex(ms)].FitnessScore());
  }

  /** A mean of objective values that are all at least `c` is at least `c`. */
  lemma ObjMeanAtLeast(ms: seq<Member>, c: real)
    requires |ms| > 0
    requires forall i :: 0 <= i < |ms| ==> c <= ms[i].objFnVal
    ensures c <= ObjSum(ms) / |ms| as real
  {
    ObjSumAtLeast(ms, c);
    DivAtLeast(ObjSum(ms), |ms| as real, c);
  }

  /** The mean objective value is at least that of the best member. */
  lemma AverageRetValBound(ms: seq<Member>)
    requires |ms| > 0
    ensures ms[BestIndex(ms)].objFnVal <= ObjSum(ms) / |ms| as real
  {
    var c := ms[BestIndex(ms)].objFnVal;
    forall i | 0 <= i < |ms|
      ensures c <= ms[i].objFnVal
    {
      BestHasLowestObjective(ms, i);
    }
    ObjMeanAtLeast(ms, c);
  }

  // ---------------------------------------------------------------------
  // The population
  // ---------------------------------------------------------------------

  class Population {
    const popSize: int
    /** The objective function with its fixed keyword arguments already applied. */
    const objectiveFn: seq<Value> -> real
    var members: seq<Member>
    var params: seq<Parameter>

    /**
     * Every parameter is a constructed one, the population is empty or holds
     * `pop_size` or `pop_size + 1` members, and every member's vector conforms
     * to the parameter list.
     */
    ghost predicate Valid()
      reads this
    {
      && popSize >= 2
      && AllValid(params)
      && (members == [] || popSize <= |members| <= popSize + 1)
      && forall i :: 0 <= i < |members| ==> Conforms(members[i].params, params)
    }

    /** The attribute setup of Population.__init__, after its checks passed. */
    constructor Create(popSize: int, objectiveFn: seq<Value> -> real)
      requires popSize >= 2
      ensures Valid()
      ensures this.popSize == popSize && this.objectiveFn == objectiveFn
      ensures members == [] && params == []
    {
      this.popSize := popSize;
      this.objectiveFn := objectiveFn;
      members := [];
      params := [];
    }

    /** Population.__init__: a ValueError unless `pop_size >= 2`; otherwise an Empty population. */
    static method New(popSize: int, objectiveFn: seq<Value> -> real) returns (r: Result<Population, PopError>)
      ensures r.Failure? <==> popSize <= 1
      ensures r.Failure? ==> r.error == PopSizeTooSmall
      ensures r.Success? ==> fresh(r.value) && r.value.Valid()
      ensures r.Success? ==> r.value.popSize == popSize && r.value.objectiveFn == objectiveFn
      ensures r.Success? ==> r.value.members == [] && r.value.params == []
    {
      if popSize <= 1 {
        return Failure(PopSizeTooSmall);
      }
      var p := new Population.Create(popSize, objectiveFn);
      r := Success(p);
    }

    /** best_fitness: None without members, else the fitness of the best member. */
    method BestFitness() returns (r: Option<real>)
      ensures |members| == 0 ==> r == None
      ensures |members| > 0 ==> r == Some(members[BestIndex(members)].FitnessScore())
      ensures r.Some? ==> forall i :: 0 <= i < |members| ==> members[i].FitnessScore() <= r.value
    {
      if |members| == 0 {
        return None;
      }
      var bestFitness, _, _ := DetermineBestMember(members);
      r := Some(bestFitness);
    }

    /** best_ret_val: None without members, else the objective value of the best member, the lowest one. */
    method BestRetVal() returns (r: Option<real>)
      ensures |members| == 0 ==> r == None
      ensures |members| > 0 ==> r == Some(members[BestIndex(members)].objFnVal)
      ensures r.Some? ==> forall i :: 0 <= i < |members| ==> r.value <= members[i].objFnVal
    {
      if |members| == 0 {
        return None;
      }
      var _, bestRetVal, _ := DetermineBestMember(members);
      r := Some(bestRetVal);
      forall i | 0 <= i < |members|
        ensures bestRetVal <= members[i].objFnVal
      {
        BestHasLowestObjective(members, i);
      }
    }

    /** best_params: None without members, else the parameter vector of the best member. */
    method BestParams() returns (r: Option<seq<Value>>)
      ensures |members| == 0 ==> r == None
      ensures |members| > 0 ==> r == Some(members[BestIndex(members)].params)
    {
      if |members| == 0 {
        return None;
      }
      var _, _, bestParams := DetermineBestMember(members);
      r := Some(bestParams);
    }

    /** average_fitness: None without members, else the mean fitness. */
    function AverageFitness(): (r: Option<real>)
      reads this
      ensures r.None? <==> |members| == 0
      ensures r.Some? ==> 0.0 < r.value <= members[BestIndex(members)].FitnessScore()
    {
      if |members| == 0 then None
      else
        AverageFitnessBounds(members);
        Some(FitnessSum(members) / |members| as real)
    }

    /** average_ret_val: None without members, else the mean objective value. */
    function AverageRetVal(): (r: Option<real>)
      reads this
      ensures r.None? <==> |members| == 0
      ensures r.Some? ==> members[BestIndex(members)].objFnVal <= r.value
    {
      if |members| == 0 then None
      else
        AverageRetValBound(members);
        Some(ObjSum(members) / |members| as real)
    }

    /** add_param: a RuntimeError once members exist, else append one constructed Parameter. */
    method AddParam(minVal: Bound, maxVal: Bound, restrict: bool := true) returns (r: Outcome<PopError>)
      requires Valid()
      modifies this
      ensures Valid() && members == old(members)
      ensures old(members) != [] ==> r == Fail(ParamAfterInit) && params == old(params)
      ensures old(members) == [] && NewParameter(minVal, maxVal, restrict).Failure? ==>
        r == Fail(InvalidParam(NewParameter(minVal, maxVal, restrict).error)) && params == old(params)
      ensures old(members) == [] && NewParameter(minVal, maxVal, restrict).Success? ==>
        r == Pass && params == old(params) + [NewParameter(minVal, maxVal, restrict).value]
    {
      if |members| > 0 {
        return Fail(ParamAfterInit);
      }
      var p := NewParameter(minVal, maxVal, restrict);
      if p.Failure? {
        return Fail(InvalidParam(p.error));
      }
      params := params + [p.value];
      r := Pass;
    }

    /**
     * initialize: a RuntimeError without parameters; otherwise `pop_size`
     * fresh members, member i sampled from the draws `draws[i]` and
     * evaluated, replacing any current members.
     */
    method Initialize(draws: seq<seq<real>>) returns (r: Outcome<PopError>)
      requires Valid()
      requires |draws| == popSize
      requires forall i :: 0 <= i < |draws| ==> |draws[i]| == |params|
      requires forall i, j :: 0 <= i < |draws| && 0 <= j < |draws[i]| ==> 0.0 <= draws[i][j] < 1.0
      modifies this
      ensures Valid() && params == old(params)
      ensures old(params) == [] ==> r == Fail(NoParams) && members == old(members)
      ensures old(params) != [] ==> r == Pass && |members| == popSize
      ensures old(params) != [] ==> forall i :: 0 <= i < popSize ==>
        members[i].params == Sample(params, draws[i]) && members[i].objFnVal == objectiveFn(members[i].params)
      ensures old(params) != [] ==> forall i, j :: 0 <= i < popSize && 0 <= j < |params| && params[j].Ordered() ==>
        params[j].Contains(members[i].params[j])
    {
      if |params| == 0 {
        return Fail(NoParams);
      }
      members := [];
      var memberResults: seq<(seq<Value>, real)> := [];
      for i := 0 to popSize
        invariant members == [] && params == old(params)
        invariant |memberResults| == i
        invariant forall t :: 0 <= t < i ==> memberResults[t] == CallObjFn(Sample(params, draws[t]), objectiveFn)
      {
        var ps := Sample(params, draws[i]);
        memberResults := memberResults + [CallObjFn(ps, objectiveFn)];
      }
      for k := 0 to |memberResults|
        invariant params == old(params)
        invariant |members| == k
        invariant forall t :: 0 <= t < k ==> members[t] == Member(memberResults[t].0, memberResults[t].1)
      {
        members := members + [Member(memberResults[k].0, memberResults[k].1)];
      }
      forall i | 0 <= i < popSize
        ensures Conforms(members[i].params, params)
        ensures forall j :: 0 <= j < |params| && params[j].Ordered() ==> params[j].Contains(members[i].params[j])
      {
        SampleConforms(params, draws[i]);
      }
      r := Pass;
    }

    /** The evaluation of new vectors and the rebuilding of the member list. */
    method ReplaceMembers(vecs: seq<seq<Value>>)
      requires Valid()
      requires popSize <= |vecs| <= popSize + 1 && forall v :: v in vecs ==> Conforms(v, params)
      modifies this
      ensures Valid()
      ensures members == Evaluate(vecs, objectiveFn) && params == old(params)
    {
      var newMemberResults := EvaluateAll(vecs, objectiveFn);
      members := [];
      for i := 0 to |newMemberResults|
        invariant params == old(params)
        invariant |members| == i
        invariant forall t :: 0 <= t < i ==> members[t] == Member(newMemberResults[t].0, newMemberResults[t].1)
      {
        members := members + [Member(newMemberResults[i].0, newMemberResults[i].1)];
      }
      assert forall i :: 0 <= i < |members| ==> members[i].params in vecs;
    }

    /**
     * next_generation: a RuntimeError without members, then ValueErrors for
     * probabilities outside [0, 1]; otherwise the offspring loop runs on the
     * distribution of the current members and its vectors, evaluated,
     * replace the members. On every failure nothing changes.
     */
    method NextGeneration(draws: seq<GenDraw>, pCrossover: real := 0.5, pMutation: real := 0.01) returns (r: Outcome<PopError>)
      requires Valid()
      requires popSize <= |draws| && AllValidGenDraws(draws, |params|)
      modifies this
      ensures Valid() && params == old(params)
      ensures r.Fail? ==> members == old(members)
      ensures old(members) == [] ==> r == Fail(NotInitialized)
      ensures old(members) != [] && !(0.0 <= pCrossover <= 1.0) ==> r == Fail(BadCrossoverProb)
      ensures old(members) != [] && 0.0 <= pCrossover <= 1.0 && !(0.0 <= pMutation <= 1.0) ==> r == Fail(BadMutationProb)
      ensures old(members) != [] && 0.0 <= pCrossover <= 1.0 && 0.0 <= pMutation <= 1.0 ==>
        match Generation(old(members), old(params), pCrossover, pMutation, draws, popSize)
        case None => r == Fail(OutOfDraws)
        case Some(vecs) => r == Pass && members == Evaluate(vecs, objectiveFn)
    {
      if |members| == 0 {
        return Fail(NotInitialized);
      }
      if pCrossover < 0.0 || pCrossover > 1.0 {
        return Fail(BadCrossoverProb);
      }
      if pMutation < 0.0 || pMutation > 1.0 {
        return Fail(BadMutationProb);
      }
      var cdfVals := CalcCdfVals(members);
      var offspring := BreedAll(members, params, cdfVals, pCrossover, pMutation, draws, popSize);
      if offspring.None? {
        return Fail(OutOfDraws);
      }
      var newParamVals := offspring.value;
      assert Generation(members, params, pCrossover, pMutation, draws, popSize) == Some(newParamVals);
      OffspringShape(members, params, cdfVals, pCrossover, pMutation, draws, popSize, [], 0);
      assert forall v :: v in newParamVals ==> Conforms(v, params);
      ReplaceMembers(newParamVals);
      r := Pass;
    }
  }
}
