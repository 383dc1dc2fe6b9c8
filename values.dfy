/**
 * Scalar parameter values. A parameter value is a Python `int` or a Python
 * `float`; floats are modelled exactly as Dafny `real`s.
 */
module Values {

  /** The numeric kind of a parameter: Python's `int` or `float`. */
  datatype Kind = IntKind | RealKind

  /** One entry of a parameter vector. */
  datatype Value = IntV(i: int) | RealV(r: real) {

    /** The kind (Python type) of this value. */
    function KindOf(): Kind {
      if IntV? then IntKind else RealKind
    }

    /** The number this value denotes; Python compares `int` and `float` by it. */
    function Num(): real {
      match this
      case IntV(n) => n as real
      case RealV(x) => x
    }
  }

  /** Python's `int(x)` on a float: truncation toward zero. */
  function Trunc(x: real): (n: int)
    ensures 0.0 <= x ==> n as real <= x < n as real + 1.0
    ensures x < 0.0 ==> n as real - 1.0 < x <= n as real
  {
    if x >= 0.0 then x.Floor else -((-x).Floor)
  }

  /** Python's `dtype(x)` for `dtype` in {int, float}, applied to a float. */
  function Cast(k: Kind, x: real): (v: Value)
    ensures v.KindOf() == k
  {
    match k
    case IntKind => IntV(Trunc(x))
    case RealKind => RealV(x)
  }

  /** Truncating a number between two integers stays between them. */
  lemma TruncBetween(x: real, lo: int, hi: int)
    requires lo as real <= x <= hi as real
    ensures lo <= Trunc(x) <= hi
  {
  }
}
