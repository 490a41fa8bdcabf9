/** `Logexp`: softplus onto the positive reals, with the identity taking over
    above `lim_val`. */
module Logexp {
  import opened Numerics
  import opened Arrays
  import opened Domains

  const DomainTag: Domain := Positive
  const Str: string := "(+ve)"

  /** Forward map: `x` above `lim_val`, `log(1 + exp(x))` otherwise. */
  function F(h: Host, x: real): (r: real)
    ensures x > h.limVal ==> r == x
  {
    if x > h.limVal then x else h.log(1.0 + h.exp(x))
  }

  /** Inverse map: `y` above `lim_val`, `log(exp(y) - 1)` otherwise. */
  function Finv(h: Host, y: real): (r: real)
    ensures y > h.limVal ==> r == y
  {
    if y > h.limVal then y else h.log(h.exp(y) - 1.0)
  }

  /** Slope of `F`, as a function of the constrained value `y`: exactly 1
      above `lim_val`, `1 - exp(-y)` otherwise. */
  function Gradfactor(h: Host, y: real): (r: real)
    ensures y > h.limVal ==> r == 1.0
  {
    if y > h.limVal then 1.0 else 1.0 - h.exp(-y)
  }

  /** Replaces every entry by its absolute value, warning when one was
      negative. */
  function Initialize(xs: seq<real>): (r: Repaired)
    ensures |r.values| == |xs|
    ensures forall i :: 0 <= i < |xs| ==> r.values[i] >= 0.0
    ensures forall i :: 0 <= i < |xs| ==> r.values[i] == Abs(xs[i])
    ensures r.warned <==> exists i :: 0 <= i < |xs| && xs[i] < 0.0
  {
    AbsRepair(xs)
  }

  /** Below the threshold, `F(x)` is the exponent whose exp is `1 + exp(x)`,
      and it exceeds `x`. */
  lemma SoftplusBranch(h: Host, x: real)
    requires h.Valid()
    ensures h.exp(h.log(1.0 + h.exp(x))) == 1.0 + h.exp(x)
    ensures h.log(1.0 + h.exp(x)) > x
    ensures h.log(1.0 + h.exp(x)) > 0.0
  {
    var s := h.log(1.0 + h.exp(x));
    assert h.exp(s) == 1.0 + h.exp(x);
    ExpStrictlyMonotone(h, x, s);
    ExpStrictlyMonotone(h, 0.0, s);
  }

  /** Every value of `F` is positive. */
  lemma FPositive(h: Host, x: real)
    requires h.Valid()
    ensures F(h, x) > 0.0
  {
    if x <= h.limVal {
      SoftplusBranch(h, x);
    }
  }

  /** `Finv` undoes `F` exactly when `x` is above the threshold or `F(x)` is
      not: for `x` just below `lim_val`, `F(x)` lands above it and `Finv`
      hands it back unchanged. */
  lemma FinvF(h: Host, x: real)
    requires h.Valid()
    ensures Finv(h, F(h, x)) == x <==> (x > h.limVal || F(h, x) <= h.limVal)
  {
    if x <= h.limVal {
      SoftplusBranch(h, x);
      var s := F(h, x);
      if s <= h.limVal {
        calc {
          Finv(h, s);
          h.log(h.exp(s) - 1.0);
          h.log(h.exp(x));
          x;
        }
      }
    }
  }

  /** `F` undoes `Finv` on the whole positive domain. */
  lemma FFinv(h: Host, y: real)
    requires h.Valid()
    requires y > 0.0
    ensures F(h, Finv(h, y)) == y
  {
    if y <= h.limVal {
      ExpStrictlyMonotone(h, 0.0, y);
      var z := h.log(h.exp(y) - 1.0);
      assert h.exp(z) == h.exp(y) - 1.0;
      ExpStrictlyMonotone(h, z, y);
      assert z < h.limVal;
      calc {
        F(h, z);
        h.log(1.0 + h.exp(z));
        h.log(h.exp(y));
        y;
      }
    }
  }

  /** The slope of `F` at `x`, written independently of `F`: 1 on the
      identity branch, the logistic sigmoid of `x` on the softplus branch. */
  ghost function Slope(h: Host, x: real): real
    requires h.Valid()
  {
    if x > h.limVal then 1.0 else Sigmoid(h, x)
  }

  /** `Gradfactor` at `F(x)` is the slope of `F` at `x` exactly when `Finv`
      undoes `F` there: on the band `x <= lim_val < F(x)` the factor takes its
      identity branch and is 1, while the slope is the sigmoid, below 1. */
  lemma GradfactorMatchesSlope(h: Host, x: real)
    requires h.Valid()
    ensures Gradfactor(h, F(h, x)) == Slope(h, x) <==> (x > h.limVal || F(h, x) <= h.limVal)
    ensures x <= h.limVal < F(h, x) ==> Gradfactor(h, F(h, x)) == 1.0 > Sigmoid(h, x)
  {
    SigmoidIsScale(h, x);
    if x <= h.limVal && F(h, x) <= h.limVal {
      var s := F(h, x);
      SoftplusBranch(h, x);
      ExpNegate(h, s);
      assert h.exp(-s) == 1.0 / (1.0 + h.exp(x));
      assert 1.0 - 1.0 / (1.0 + h.exp(x)) == h.exp(x) / (1.0 + h.exp(x));
    }
  }

  /** The band is never empty: `lim_val` itself lies in it, so there both
      `Finv` fails to undo `F` and `Gradfactor` misses the slope. */
  lemma ThresholdInBand(h: Host)
    requires h.Valid()
    ensures h.limVal < F(h, h.limVal)
    ensures Finv(h, F(h, h.limVal)) != h.limVal
    ensures Gradfactor(h, F(h, h.limVal)) != Slope(h, h.limVal)
  {
    SoftplusBranch(h, h.limVal);
    FinvF(h, h.limVal);
    GradfactorMatchesSlope(h, h.limVal);
  }

  /** On the positive domain the gradient factor is a scale in (0, 1]. */
  lemma GradfactorIsScale(h: Host, y: real)
    requires h.Valid()
    requires y > 0.0
    ensures 0.0 < Gradfactor(h, y) <= 1.0
  {
    ExpStrictlyMonotone(h, -y, 0.0);
  }
}
