/** Values the host environment supplies to the animation. */
module Inputs {

  /** Math.PI, written out in decimal. */
  const Pi: real := 3.141592653589793

  /** A value Math.random can return. */
  predicate IsDraw(r: real)
  {
    0.0 <= r < 1.0
  }

  /** A value Math.sin or Math.cos can return. */
  predicate IsSine(t: real)
  {
    -1.0 <= t <= 1.0
  }

  /** `Math.random() * extent`: a draw spread over [0, extent). */
  function Spread(r: real, extent: real): (v: real)
    requires IsDraw(r) && 0.0 <= extent
    ensures 0.0 <= v <= extent
    ensures 0.0 < extent ==> v < extent
  {
    MulNonNegative(r, extent);
    MulNonNegative(1.0 - r, extent);
    assert extent - r * extent == (1.0 - r) * extent;
    assert 0.0 < extent ==> (1.0 - r) * extent > 0.0 by {
      if 0.0 < extent { MulPositive(1.0 - r, extent); }
    }
    r * extent
  }

  lemma MulNonNegative(a: real, b: real)
    requires 0.0 <= a && 0.0 <= b
    ensures 0.0 <= a * b
  {
  }

  lemma MulPositive(a: real, b: real)
    requires 0.0 < a && 0.0 < b
    ensures 0.0 < a * b
  {
  }
}
