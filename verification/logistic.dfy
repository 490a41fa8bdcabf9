/** `Logistic`: a sigmoid rescaled onto the interval `[lower, upper]` fixed
    when the transformation is built. */
module Logistic {
  import opened Numerics
  import opened Arrays
  import opened Domains
  import opened Python

  const DomainTag: Domain := Bounded

  /** The floor both clips of the inverse map raise their argument to. */
  const ClipFloor: real := 1e-10

  /** The configuration of one `Logistic` instance. */
  datatype Bounds = Bounds(lower: real, upper: real) {
    /** What the constructor's assertion guarantees of every instance. */
    predicate Valid() {
      lower < upper
    }

    function Difference(): real {
      upper - lower
    }

    predicate Contains(y: real) {
      lower <= y <= upper
    }
  }

  /** The constructor: raises AssertionError unless `lower < upper`. */
  function New(lower: real, upper: real): (r: Result<Bounds>)
    ensures r.Success? <==> lower < upper
    ensures r.Success? ==> r.value.Valid() && r.value.Difference() > 0.0
    ensures r.Success? ==> r.value.lower == lower && r.value.upper == upper
    ensures r.Failure? ==> r.error == AssertionError
  {
    if lower < upper then Success(Bounds(lower, upper)) else Failure(AssertionError)
  }

  /** `'({},{})'.format(lower, upper)`, given how Python renders one float. */
  function Str(b: Bounds, render: real -> string): (r: string)
    ensures |r| == 3 + |render(b.lower)| + |render(b.upper)|
    ensures r[0] == '(' && r[|r| - 1] == ')'
    ensures r[1..1 + |render(b.lower)|] == render(b.lower)
    ensures r[1 + |render(b.lower)|] == ','
    ensures r[2 + |render(b.lower)|..|r| - 1] == render(b.upper)
  {
    "(" + render(b.lower) + "," + render(b.upper) + ")"
  }

  /** Forward map: `lower + difference / (1 + exp(-x))`. */
  function F(h: Host, b: Bounds, x: real): (r: real)
    requires h.Valid()
    ensures b.Valid() ==> b.lower < r < b.upper
  {
    var q := 1.0 + h.exp(-x);
    assert q > 1.0;
    assert b.Valid() ==> 0.0 < b.Difference() / q < b.Difference();
    b.lower + b.Difference() / q
  }

  /** Inverse map: the log-odds of `y` within the interval, each side raised
      to at least `1e-10` first. Where neither side is raised, its exp is the
      ratio of the distances to the two ends. */
  function Finv(h: Host, b: Bounds, y: real): (r: real)
    ensures h.Valid() && y - b.lower >= ClipFloor && b.upper - y >= ClipFloor ==>
              h.exp(r) == (y - b.lower) / (b.upper - y)
  {
    var lo, hi := ClipBelow(y - b.lower, ClipFloor), ClipBelow(b.upper - y, ClipFloor);
    PositiveRatio(lo, hi);
    h.log(lo / hi)
  }

  /** Slope of `F`, as a function of the constrained value `y`. */
  function Gradfactor(b: Bounds, y: real): (r: real)
    requires b.Valid()
    ensures r > 0.0 <==> b.lower < y < b.upper
    ensures r == 0.0 <==> y == b.lower || y == b.upper
  {
    SidesProductSign(b, y);
    (y - b.lower) * (b.upper - y) / b.Difference()
  }

  /** The product of the distances to the two ends is positive inside the
      interval, zero at its ends and negative outside. */
  lemma SidesProductSign(b: Bounds, y: real)
    requires b.Valid()
    ensures (y - b.lower) * (b.upper - y) > 0.0 <==> b.lower < y < b.upper
    ensures (y - b.lower) * (b.upper - y) == 0.0 <==> y == b.lower || y == b.upper
  {
    var a, c := y - b.lower, b.upper - y;
    if y < b.lower {
      assert a < 0.0 && c > 0.0;
      assert a * c < 0.0;
    } else if y > b.upper {
      assert a > 0.0 && c < 0.0;
      assert a * c < 0.0;
    } else if b.lower < y < b.upper {
      assert a * c > 0.0;
    }
  }

  /** An entry `initialize` must repair. */
  predicate Outside(b: Bounds, y: real) {
    y < b.lower || y > b.upper
  }

  /** Entries outside `[lower, upper]` become `F(0)`, with a warning. */
  function Initialize(h: Host, b: Bounds, xs: seq<real>): (r: Repaired)
    requires h.Valid()
    ensures |r.values| == |xs|
    ensures forall i :: 0 <= i < |xs| && !Outside(b, xs[i]) ==> r.values[i] == xs[i]
    ensures forall i :: 0 <= i < |xs| && Outside(b, xs[i]) ==> r.values[i] == F(h, b, 0.0)
    ensures r.warned <==> exists i :: 0 <= i < |xs| && Outside(b, xs[i])
  {
    Repaired(Map(y => if Outside(b, y) then F(h, b, y * 0.0) else y, xs), Any(y => Outside(b, y), xs))
  }

  /** `F(0)` is the midpoint of the interval. */
  lemma Midpoint(h: Host, b: Bounds)
    requires h.Valid()
    ensures F(h, b, 0.0) == b.lower + b.Difference() / 2.0
  {
  }

  /** The repaired array lies in the interval, and the warning is raised
      exactly when the array changes. */
  lemma InitializeRepairs(h: Host, b: Bounds, xs: seq<real>)
    requires h.Valid()
    requires b.Valid()
    ensures forall i :: 0 <= i < |xs| ==> b.Contains(Initialize(h, b, xs).values[i])
    ensures Initialize(h, b, xs).warned <==> Initialize(h, b, xs).values != xs
  {
    var r := Initialize(h, b, xs);
    var mid := F(h, b, 0.0);
    if r.warned {
      var i :| 0 <= i < |xs| && Outside(b, xs[i]);
      assert r.values[i] == mid && !Outside(b, mid);
    } else {
      assert r.values == xs;
    }
  }

  /** The two clipped sides of `Finv` at `F(x)`, expressed through `exp(-x)`. */
  lemma SidesAtF(h: Host, b: Bounds, x: real)
    requires h.Valid()
    requires b.Valid()
    ensures F(h, b, x) - b.lower == b.Difference() / (1.0 + h.exp(-x))
    ensures b.upper - F(h, b, x) == b.Difference() * h.exp(-x) / (1.0 + h.exp(-x))
  {
    var e := h.exp(-x);
    var d := b.Difference();
    assert d - d / (1.0 + e) == d * e / (1.0 + e);
  }

  /** The ratio of the two sides at `F(x)` is `exp(x)`. */
  lemma SidesRatioAtF(h: Host, b: Bounds, x: real)
    requires h.Valid()
    requires b.Valid()
    ensures (F(h, b, x) - b.lower) / (b.upper - F(h, b, x)) == h.exp(x)
  {
    var e := h.exp(-x);
    SidesAtF(h, b, x);
    RatioOfShares(b.Difference(), e, 1.0 + e);
    ExpNegate(h, -x);
  }

  /** Wherever neither clip is active, `Finv` undoes `F`. */
  lemma FinvF(h: Host, b: Bounds, x: real)
    requires h.Valid()
    requires b.Valid()
    requires F(h, b, x) - b.lower >= ClipFloor && b.upper - F(h, b, x) >= ClipFloor
    ensures Finv(h, b, F(h, b, x)) == x
  {
    var z := Finv(h, b, F(h, b, x));
    SidesRatioAtF(h, b, x);
    assert h.exp(z) == h.exp(x);
    ExpStrictlyMonotone(h, z, x);
  }

  /** On the part of the interval where neither clip is active, `F` undoes
      `Finv`. */
  lemma FFinv(h: Host, b: Bounds, y: real)
    requires h.Valid()
    requires b.Valid()
    requires y - b.lower >= ClipFloor && b.upper - y >= ClipFloor
    ensures F(h, b, Finv(h, b, y)) == y
  {
    var lo, hi := y - b.lower, b.upper - y;
    var z := Finv(h, b, y);
    assert h.exp(z) == lo / hi;
    ExpNegate(h, z);
    InvertRatio(lo, hi);
    assert h.exp(-z) == hi / lo;
    RescaleByShare(lo, hi);
    assert b.Difference() == lo + hi;
  }

  /** Arithmetic steps of the two round trips, kept apart so that each
      nonlinear fact is proved on its own. */
  lemma PositiveRatio(a: real, c: real)
    requires a > 0.0 && c > 0.0
    ensures a / c > 0.0
  {
  }

  lemma InvertRatio(a: real, c: real)
    requires a > 0.0 && c > 0.0
    ensures 1.0 / (a / c) == c / a
  {
    assert (a / c) * (c / a) == 1.0;
  }

  lemma DivideByMultiple(a: real, e: real)
    requires a > 0.0 && e > 0.0
    ensures a / (a * e) == 1.0 / e
  {
    assert (a * e) * (1.0 / e) == a;
  }

  lemma RatioOfShares(d: real, e: real, q: real)
    requires d > 0.0 && e > 0.0 && q > 0.0
    ensures (d / q) / (d * e / q) == 1.0 / e
  {
    var a := d / q;
    assert a > 0.0;
    assert d * e / q == a * e;
    DivideByMultiple(a, e);
  }

  lemma RescaleByShare(lo: real, hi: real)
    requires lo > 0.0 && hi > 0.0
    ensures (lo + hi) / (1.0 + hi / lo) == lo
  {
    var t := 1.0 + hi / lo;
    assert hi / lo * lo == hi;
    assert t * lo == lo + hi;
  }

  /** `Gradfactor` at `F(x)` is the slope of `F` at `x`:
      `difference * s * (1 - s)` with `s` the logistic sigmoid of `x`. */
  lemma GradfactorMatchesSlope(h: Host, b: Bounds, x: real)
    requires h.Valid()
    requires b.Valid()
    ensures Gradfactor(b, F(h, b, x)) == b.Difference() * Sigmoid(h, x) * (1.0 - Sigmoid(h, x))
  {
    var e := h.exp(-x);
    var d := b.Difference();
    var s := 1.0 / (1.0 + e);
    SidesAtF(h, b, x);
    ExpNegate(h, x);
    assert Sigmoid(h, x) == s;
    assert F(h, b, x) - b.lower == d * s;
    assert b.upper - F(h, b, x) == d * (1.0 - s);
    assert (d * s) * (d * (1.0 - s)) / d == d * s * (1.0 - s);
  }

  /** On the unit interval, `F(0) = 0.5` and `Finv(0.5) = 0`. */
  lemma UnitInterval(h: Host)
    requires h.Valid()
    ensures F(h, Bounds(0.0, 1.0), 0.0) == 0.5
    ensures Finv(h, Bounds(0.0, 1.0), 0.5) == 0.0
  {
    Midpoint(h, Bounds(0.0, 1.0));
    assert h.log(h.exp(0.0)) == 0.0;
  }
}
