/** `Exponent`: exp onto the positive reals, saturated at `exp(-lim_val)`
    and `exp(lim_val)`. */
module Exponent {
  import opened Numerics
  import opened Arrays
  import opened Domains

  const DomainTag: Domain := Positive
  const Str: string := "(+ve)"

  /** Forward map: exp of `x` clamped to `[-lim_val, lim_val]`, written as the
      two nested `where`s of the source. */
  function F(h: Host, x: real): (r: real)
    ensures h.limVal > 0.0 ==> r == h.exp(Clip(x, -h.limVal, h.limVal))
  {
    if x < h.limVal then (if x > -h.limVal then h.exp(x) else h.exp(-h.limVal)) else h.exp(h.limVal)
  }

  /** Every value of `F` lies between the two saturation values. */
  lemma FBounded(h: Host, x: real)
    requires h.Valid()
    ensures h.exp(-h.limVal) <= F(h, x) <= h.exp(h.limVal)
  {
    var c := Clip(x, -h.limVal, h.limVal);
    ExpStrictlyMonotone(h, -h.limVal, c);
    ExpStrictlyMonotone(h, c, h.limVal);
  }

  /** Inverse map: log. */
  function Finv(h: Host, y: real): (r: real)
    ensures h.Valid() && y > 0.0 ==> h.exp(r) == y
  {
    h.log(y)
  }

  /** `Finv` undoes `F` exactly when `x` is strictly inside the saturation
      thresholds or on one of them. */
  lemma FinvF(h: Host, x: real)
    requires h.Valid()
    ensures Finv(h, F(h, x)) == x <==> -h.limVal <= x <= h.limVal
  {
  }

  /** `F` undoes `Finv` exactly on the range of `F`. */
  lemma FFinv(h: Host, y: real)
    requires h.Valid()
    ensures F(h, Finv(h, y)) == y <==> h.exp(-h.limVal) <= y <= h.exp(h.limVal)
  {
    FBounded(h, Finv(h, y));
    if h.exp(-h.limVal) <= y <= h.exp(h.limVal) {
      var z := h.log(y);
      assert h.exp(z) == y;
      ExpStrictlyMonotone(h, -h.limVal, z);
      ExpStrictlyMonotone(h, z, h.limVal);
    }
  }

  /** Slope of `F`, as a function of the constrained value: the value itself. */
  function Gradfactor(y: real): real {
    y
  }

  /** Between the thresholds, `Gradfactor` at `F(x)` is the slope of exp at
      `x`, which is `exp(x)`. Beyond them `F` is flat, but the factor is the
      saturation value, which is not zero. */
  lemma GradfactorMatchesSlope(h: Host, x: real)
    requires h.Valid()
    ensures -h.limVal < x < h.limVal ==> Gradfactor(F(h, x)) == h.exp(x)
    ensures x > h.limVal ==> Gradfactor(F(h, x)) == h.exp(h.limVal) > 0.0
    ensures x < -h.limVal ==> Gradfactor(F(h, x)) == h.exp(-h.limVal) > 0.0
  {
  }

  /** Replaces every entry by its absolute value, warning when one was
      negative. */
  function Initialize(xs: seq<real>): (r: Repaired)
    ensures |r.values| == |xs|
    ensures forall i :: 0 <= i < |xs| ==> r.values[i] == Abs(xs[i])
    ensures r.warned <==> exists i :: 0 <= i < |xs| && xs[i] < 0.0
  {
    AbsRepair(xs)
  }
}
