/** A population member and the fitness transform (pygenetics/member.py). */
module Members {
  import opened Values

  /**
   * Member.calc_fitness: maps an objective value to a fitness score,
   * `1 / (v + 1)` for non-negative values and `1 + |v|` for negative ones.
   */
  function CalcFitness(objFnVal: real): (f: real)
    ensures f > 0.0
    ensures objFnVal >= 0.0 ==> f <= 1.0
    ensures objFnVal < 0.0 ==> f > 1.0
  {
    if objFnVal >= 0.0 then 1.0 / (objFnVal + 1.0)
    else 1.0 + (if objFnVal < 0.0 then -objFnVal else objFnVal)
  }

  /**
   * A candidate solution: the parameter vector, the objective value obtained
   * for it, and (derived, never stored independently) its fitness score.
   */
  datatype Member = Member(params: seq<Value>, objFnVal: real) {
    /** The fitness score set by the constructor from the objective value. */
    function FitnessScore(): (f: real)
      ensures f > 0.0
      ensures objFnVal >= 0.0 ==> f <= 1.0
      ensures objFnVal < 0.0 ==> f > 1.0
    {
      CalcFitness(objFnVal)
    }
  }

  /** The inverse of the fitness transform, defined on positive scores. */
  function ObjFromFitness(f: real): real
    requires f > 0.0
  {
    if f <= 1.0 then 1.0 / f - 1.0 else 1.0 - f
  }

  /** The transform loses nothing: the objective value is recoverable. */
  lemma FitnessRoundTrip(v: real)
    ensures ObjFromFitness(CalcFitness(v)) == v
  {
    if v >= 0.0 {
      var f := CalcFitness(v);
      assert f * (v + 1.0) == 1.0;
      assert 1.0 / f == v + 1.0;
    }
  }

  /** Every positive score is the fitness of exactly the value ObjFromFitness gives. */
  lemma FitnessOnto(f: real)
    requires f > 0.0
    ensures CalcFitness(ObjFromFitness(f)) == f
  {
    if f <= 1.0 {
      var v := 1.0 / f - 1.0;
      assert 1.0 / f >= 1.0;
      assert v + 1.0 == 1.0 / f;
    }
  }

  /** A strictly lower objective value yields a strictly higher fitness. */
  lemma FitnessStrictlyDecreasing(v: real, w: real)
    requires v < w
    ensures CalcFitness(v) > CalcFitness(w)
  {
    if 0.0 <= v {
      assert (v + 1.0) * CalcFitness(v) == 1.0;
      assert (w + 1.0) * CalcFitness(w) == 1.0;
    }
  }

  /** The values the source's tests check. */
  lemma FitnessExamples()
    ensures CalcFitness(0.0) == 1.0
    ensures CalcFitness(1.0) == 0.5
    ensures CalcFitness(-1.0) == 2.0
  {
  }
}
