/** `NegativeExponent`: the point reflection of `Exponent` onto the negative
    reals.

    Like `Negative_logexp`, the class reaches `Exponent` by calling unbound
    methods through the class with a float or an array as the first argument,
    which raises TypeError in Python 2; the `...AsWritten` members model
    those calls and `F`, `Finv` and `Initialize` the evident reflection.
    `gradfactor` makes no such call and is modelled as written. */
module NegativeExponent {
  import opened Numerics
  import opened Arrays
  import opened Domains
  import opened Python
  import Exponent

  const DomainTag: Domain := Negative
  const Str: string := "(-ve)"

  /** `Exponent.f` and its siblings declare `self` and one argument; each
      class-level call supplies one. */
  const DeclaredParameters: nat := 2
  const SuppliedArguments: nat := 1

  /** The one argument supplied is a float or an array, never a `Exponent`
      instance. */
  const FirstArgumentIsInstance: bool := false

  /** `-Exponent.f(x)` as written. */
  function FAsWritten(h: Host, x: real): (r: Result<real>)
    ensures r == Failure(TypeError)
  {
    CallThroughClass(DeclaredParameters, SuppliedArguments, FirstArgumentIsInstance, Exponent.F(h, x)).MapValue(y => -y)
  }

  /** `Exponent.finv(-f)` as written. */
  function FinvAsWritten(h: Host, y: real): (r: Result<real>)
    ensures r == Failure(TypeError)
  {
    CallThroughClass(DeclaredParameters, SuppliedArguments, FirstArgumentIsInstance, Exponent.Finv(h, -y))
  }

  /** `-Exponent.initialize(f)` as written. */
  function InitializeAsWritten(xs: seq<real>): (r: Result<Repaired>)
    ensures r == Failure(TypeError)
  {
    CallThroughClass(DeclaredParameters, SuppliedArguments, FirstArgumentIsInstance, Exponent.Initialize(xs))
      .MapValue((p: Repaired) => Repaired(Map(x => -x, p.values), p.warned))
  }

  /** `-Exponent.initialize(f)` with the call repaired but nothing else
      changed: the negated values, and the warning `Exponent` raises for its
      own domain. */
  function InitializeReflected(xs: seq<real>): (r: Repaired)
    ensures |r.values| == |xs|
    ensures forall i :: 0 <= i < |xs| ==> r.values[i] == -Abs(xs[i])
    ensures r.warned <==> exists i :: 0 <= i < |xs| && xs[i] < 0.0
  {
    var p := Exponent.Initialize(xs);
    Repaired(Map(x => -x, p.values), p.warned)
  }

  /** The reflected repair warns on an already negative array, which it
      leaves unchanged, and stays silent on a positive one, which it negates. */
  lemma InitializeReflectedWarnsBackwards()
    ensures InitializeReflected([-1.0]) == Repaired([-1.0], true)
    ensures InitializeReflected([1.0]) == Repaired([-1.0], false)
  {
    assert InitializeReflected([-1.0]).values == [-1.0];
    assert InitializeReflected([1.0]).values == [-1.0];
  }

  /** Forward map: minus the saturated exp, between the two negated
      saturation values. */
  function F(h: Host, x: real): (r: real)
    ensures h.Valid() ==> -h.exp(h.limVal) <= r <= -h.exp(-h.limVal) < 0.0
  {
    assert h.Valid() ==> h.exp(-h.limVal) <= Exponent.F(h, x) <= h.exp(h.limVal) by {
      if h.Valid() {
        Exponent.FBounded(h, x);
      }
    }
    -Exponent.F(h, x)
  }

  /** Inverse map: log of the negated value, whose exp, negated, is `y`
      again for every negative `y`. */
  function Finv(h: Host, y: real): (r: real)
    ensures h.Valid() && y < 0.0 ==> -h.exp(r) == y
  {
    Exponent.Finv(h, -y)
  }

  /** Slope of `F`, as a function of the constrained value: the value itself,
      not negated, as in `Exponent`. */
  function Gradfactor(y: real): (r: real)
    ensures r == Exponent.Gradfactor(y)
  {
    y
  }

  /** Minus the absolute value of every entry, warning when one was positive. */
  function Initialize(xs: seq<real>): (r: Repaired)
    ensures |r.values| == |xs|
    ensures forall i :: 0 <= i < |xs| ==> r.values[i] == -Exponent.Initialize(xs).values[i]
    ensures r.warned <==> exists i :: 0 <= i < |xs| && xs[i] > 0.0
  {
    NegatedAbsRepair(xs)
  }

  /** `Finv` undoes `F` exactly between the thresholds, as for `Exponent`. */
  lemma FinvF(h: Host, x: real)
    requires h.Valid()
    ensures Finv(h, F(h, x)) == x <==> -h.limVal <= x <= h.limVal
  {
    Exponent.FinvF(h, x);
  }

  /** `F` undoes `Finv` exactly on the range of `F`. */
  lemma FFinv(h: Host, y: real)
    requires h.Valid()
    ensures F(h, Finv(h, y)) == y <==> -h.exp(h.limVal) <= y <= -h.exp(-h.limVal)
  {
    Exponent.FFinv(h, -y);
  }

  /** Between the thresholds, `Gradfactor` at `F(x)` is the slope of
      `-exp(x)`: the sign is already carried by the constrained value, so the
      unnegated factor is the right one. Beyond them `F` is flat, but the
      factor is the negated saturation value, which is not zero. */
  lemma GradfactorMatchesSlope(h: Host, x: real)
    requires h.Valid()
    ensures -h.limVal < x < h.limVal ==> Gradfactor(F(h, x)) == -h.exp(x)
    ensures x > h.limVal ==> Gradfactor(F(h, x)) == -h.exp(h.limVal) < 0.0
    ensures x < -h.limVal ==> Gradfactor(F(h, x)) == -h.exp(-h.limVal) < 0.0
  {
  }

  /** The repair lands in the negative domain, and warns exactly when it
      changes the array. */
  lemma InitializeWarnsIffChanged(xs: seq<real>)
    ensures forall i :: 0 <= i < |xs| ==> Initialize(xs).values[i] <= 0.0
    ensures Initialize(xs).warned <==> Initialize(xs).values != xs
  {
    NegatedAbsRepairWarnsIffChanged(xs);
  }
}
