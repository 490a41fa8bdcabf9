/** `LogexpClipped`: softplus with its exponent clipped to
    `[log(min_bound), log(max_bound)]` and its result clipped to
    `[min_bound, max_bound]`, so that `F` is bounded whatever its input.

    The inverse map as written, `log(exp(f - 1))`, places the `- 1` inside the
    exp; `FinvAsWritten` models it and `Finv` the softplus inverse
    `log(exp(f) - 1)` that `Logexp` uses. */
module LogexpClipped {
  import opened Numerics
  import opened Arrays
  import opened Domains

  const DomainTag: Domain := Positive
  const Str: string := "(+ve_c)"

  const MaxBound: real := 1e100
  const MinBound: real := 1e-10

  /** Forward map: softplus of the clipped exponent, clipped to the bounds. */
  function F(h: Host, x: real): (r: real)
    ensures MinBound <= r <= MaxBound
  {
    var e := h.exp(Clip(x, h.log(MinBound), h.log(MaxBound)));
    Clip(h.log(1.0 + e), MinBound, MaxBound)
  }

  /** Neither clip in `F` is active at `x`. */
  ghost predicate Unclipped(h: Host, x: real) {
    && h.log(MinBound) <= x <= h.log(MaxBound)
    && MinBound <= h.log(1.0 + h.exp(x)) <= MaxBound
  }

  /** `log(exp(f - 1))`, the inverse map as written. */
  function FinvAsWritten(h: Host, y: real): (r: real)
    ensures h.Valid() ==> r == y - 1.0
  {
    h.log(h.exp(y - 1.0))
  }

  /** Because every value of `F` is at least `min_bound`, the inverse as
      written sends it above -1: every `x <= -1` fails the round trip. */
  lemma FinvAsWrittenMissesRoundTrip(h: Host, x: real)
    requires h.Valid()
    requires x <= -1.0
    ensures FinvAsWritten(h, F(h, x)) != x
  {
  }

  /** Inverse map: the softplus inverse `log(exp(y) - 1)`, whose softplus is
      `y` again for every positive `y`. */
  function Finv(h: Host, y: real): (r: real)
    ensures h.Valid() && y > 0.0 ==> h.log(1.0 + h.exp(r)) == y
  {
    SoftplusInverse(h, y);
    h.log(h.exp(y) - 1.0)
  }

  lemma SoftplusInverse(h: Host, y: real)
    ensures h.Valid() && y > 0.0 ==> h.log(1.0 + h.exp(h.log(h.exp(y) - 1.0))) == y
  {
    if h.Valid() && y > 0.0 {
      ExpStrictlyMonotone(h, 0.0, y);
    }
  }

  /** Wherever neither clip is active, `Finv` undoes `F`. */
  lemma FinvF(h: Host, x: real)
    requires h.Valid()
    requires Unclipped(h, x)
    ensures Finv(h, F(h, x)) == x
  {
    var s := h.log(1.0 + h.exp(x));
    assert F(h, x) == s;
    assert h.exp(s) == 1.0 + h.exp(x);
  }

  /** Slope of `F`, as a function of the constrained value `y`:
      `(exp(y) - 1) / exp(y)`. */
  function Gradfactor(h: Host, y: real): (r: real)
    requires h.Valid()
    ensures y >= 0.0 ==> 0.0 <= r < 1.0
    ensures y > 0.0 ==> 0.0 < r
  {
    ExpStrictlyMonotone(h, 0.0, y);
    (h.exp(y) - 1.0) / h.exp(y)
  }

  /** Wherever neither clip is active, `Gradfactor` at `F(x)` is the slope of
      softplus at `x`. Everywhere it lies strictly between 0 and 1, so where
      the exponent clip holds `F` flat the factor is still not zero. */
  lemma GradfactorMatchesSlope(h: Host, x: real)
    requires h.Valid()
    ensures Unclipped(h, x) ==> Gradfactor(h, F(h, x)) == Sigmoid(h, x)
    ensures 0.0 < Gradfactor(h, F(h, x)) < 1.0
  {
    var y := F(h, x);
    if Unclipped(h, x) {
      var s := h.log(1.0 + h.exp(x));
      assert y == s;
      assert h.exp(s) == 1.0 + h.exp(x);
    }
  }

  /** Replaces every entry by its absolute value, warning when one was
      negative. */
  function Initialize(xs: seq<real>): (r: Repaired)
    ensures |r.values| == |xs|
    ensures forall i :: 0 <= i < |xs| ==> r.values[i] == Abs(xs[i])
    ensures r.warned <==> exists i :: 0 <= i < |xs| && xs[i] < 0.0
  {
    AbsRepair(xs)
  }
}
