/**
  The shape shared by every pressure and density law of the model:
  `scale * base^exponent`. The source evaluates the power with the C
  library's `pow` (isa.cpp:151, 190, 288, 318), which is transcendental; the
  model keeps the three operands and leaves the power function a parameter.
 */
module PowerLaw {

  datatype PowerTerm = PowerTerm(scale: real, base: real, exponent: real)

  /** The value of a term under a power function `pow(base, exponent)`, in
      the source's order `pow(...) * scale`. */
  function Evaluate(t: PowerTerm, pow: (real, real) -> real): real {
    pow(t.base, t.exponent) * t.scale
  }

  /** Under any power function with `pow(1, y) == 1`, a term whose base is 1
      evaluates to its scale. */
  lemma UnitBaseEvaluatesToScale(t: PowerTerm, pow: (real, real) -> real)
    requires forall y :: pow(1.0, y) == 1.0
    requires t.base == 1.0
    ensures Evaluate(t, pow) == t.scale
  {
  }

  /** Under any power function with `pow(x, 0) == 1`, a term whose exponent
      is 0 evaluates to its scale. */
  lemma ZeroExponentEvaluatesToScale(t: PowerTerm, pow: (real, real) -> real)
    requires forall x :: pow(x, 0.0) == 1.0
    requires t.exponent == 0.0
    ensures Evaluate(t, pow) == t.scale
  {
  }
}
