/** `Square`: `x ** 2` onto the non-negative reals, with sqrt as inverse.

    The square is not one-to-one: `Finv` returns the non-negative root, and
    the gradient factor `2 * sqrt(y)` is `2 * |x|`, the slope of `x ** 2` only
    where `x >= 0`. */
module Square {
  import opened Numerics
  import opened Arrays
  import opened Domains

  const DomainTag: Domain := Positive
  const Str: string := "(+sq)"

  /** Forward map: the square. */
  function F(x: real): (r: real)
    ensures r >= 0.0
  {
    x * x
  }

  /** Inverse map: sqrt. */
  function Finv(h: Host, y: real): (r: real)
    ensures h.Valid() && y >= 0.0 ==> r >= 0.0 && r * r == y
  {
    h.sqrt(y)
  }

  /** Slope of `F`, as a function of the constrained value: `2 * sqrt(y)`. */
  function Gradfactor(h: Host, y: real): (r: real)
    ensures h.Valid() && y >= 0.0 ==> r >= 0.0 && r * r == 4.0 * y
  {
    2.0 * h.sqrt(y)
  }

  /** The elementwise absolute value, with no warning. */
  function Initialize(xs: seq<real>): (r: Repaired)
    ensures |r.values| == |xs|
    ensures forall i :: 0 <= i < |xs| ==> r.values[i] == Abs(xs[i])
    ensures !r.warned
  {
    Repaired(AbsRepair(xs).values, false)
  }

  lemma FactorOfZeroProduct(d: real, p: real)
    requires p > 0.0 && d * p == 0.0
    ensures d == 0.0
  {
  }

  /** sqrt of a square is the absolute value. */
  lemma SqrtOfSquare(h: Host, x: real)
    requires h.Valid()
    ensures h.sqrt(x * x) == Abs(x)
  {
    var s, a := h.sqrt(x * x), Abs(x);
    assert s >= 0.0 && s * s == x * x == a * a;
    var sum := s + a;
    if sum != 0.0 {
      assert (s - a) * sum == s * s - a * a == 0.0;
      FactorOfZeroProduct(s - a, sum);
    }
  }

  /** `F` undoes `Finv` on the whole non-negative domain. */
  lemma FFinv(h: Host, y: real)
    requires h.Valid()
    requires y >= 0.0
    ensures F(Finv(h, y)) == y
  {
  }

  /** `Finv` undoes `F` exactly for non-negative `x`. */
  lemma FinvF(h: Host, x: real)
    requires h.Valid()
    ensures Finv(h, F(x)) == x <==> x >= 0.0
  {
    SqrtOfSquare(h, x);
  }

  /** `Gradfactor` at `F(x)` is `2 * |x|`, which is the slope `2 * x` of the
      square exactly when `x >= 0`. */
  lemma GradfactorMatchesSlope(h: Host, x: real)
    requires h.Valid()
    ensures Gradfactor(h, F(x)) == 2.0 * Abs(x)
    ensures Gradfactor(h, F(x)) == 2.0 * x <==> x >= 0.0
  {
    SqrtOfSquare(h, x);
  }

  /** The repair changes the array exactly when some entry is negative, and
      never warns even then. */
  lemma InitializeChangesSilently(xs: seq<real>)
    ensures Initialize(xs).values != xs <==> exists i :: 0 <= i < |xs| && xs[i] < 0.0
    ensures !Initialize(xs).warned
  {
    AbsRepairWarnsIffChanged(xs);
  }
}
