/** `Negative_logexp`: the point reflection of `Logexp` onto the negative
    reals.

    The class delegates every operation to `Logexp` by calling the method
    through the class (`Logexp.f(x)`). In Python 2 that is an unbound method,
    and it raises TypeError because `x` is not a `Logexp` instance (and one
    argument is short of the two parameters). The `...AsWritten` members model
    those calls; `F`, `Finv`, `Gradfactor` and `Initialize` model the reflection the
    delegation evidently intends, with the warning of `Initialize` raised when
    an entry changes. */
module NegativeLogexp {
  import opened Numerics
  import opened Arrays
  import opened Domains
  import opened Python
  import Logexp

  const DomainTag: Domain := Negative
  const Str: string := "(-ve)"

  /** `Logexp.f` and its siblings declare two parameters, `self` and one
      argument; each class-level call supplies one argument. */
  const DeclaredParameters: nat := 2
  const SuppliedArguments: nat := 1

  /** The one argument supplied is a float or an array, never a `Logexp`
      instance. */
  const FirstArgumentIsInstance: bool := false

  /** `-Logexp.f(x)` as written. */
  function FAsWritten(h: Host, x: real): (r: Result<real>)
    ensures r == Failure(TypeError)
  {
    CallThroughClass(DeclaredParameters, SuppliedArguments, FirstArgumentIsInstance, Logexp.F(h, x)).MapValue(y => -y)
  }

  /** `Logexp.finv(-f)` as written. */
  function FinvAsWritten(h: Host, y: real): (r: Result<real>)
    ensures r == Failure(TypeError)
  {
    CallThroughClass(DeclaredParameters, SuppliedArguments, FirstArgumentIsInstance, Logexp.Finv(h, -y))
  }

  /** `-Logexp.gradfactor(-f)` as written. */
  function GradfactorAsWritten(h: Host, y: real): (r: Result<real>)
    ensures r == Failure(TypeError)
  {
    CallThroughClass(DeclaredParameters, SuppliedArguments, FirstArgumentIsInstance, Logexp.Gradfactor(h, -y)).MapValue(g => -g)
  }

  /** `-Logexp.initialize(f)` as written. */
  function InitializeAsWritten(xs: seq<real>): (r: Result<Repaired>)
    ensures r == Failure(TypeError)
  {
    CallThroughClass(DeclaredParameters, SuppliedArguments, FirstArgumentIsInstance, Logexp.Initialize(xs))
      .MapValue((p: Repaired) => Repaired(Map(x => -x, p.values), p.warned))
  }

  /** `-Logexp.initialize(f)` with the call repaired but nothing else changed:
      the negated values, and the warning `Logexp` raises for its own domain. */
  function InitializeReflected(xs: seq<real>): (r: Repaired)
    ensures |r.values| == |xs|
    ensures forall i :: 0 <= i < |xs| ==> r.values[i] == -Abs(xs[i])
    ensures r.warned <==> exists i :: 0 <= i < |xs| && xs[i] < 0.0
  {
    var p := Logexp.Initialize(xs);
    Repaired(Map(x => -x, p.values), p.warned)
  }

  /** The reflected repair warns on arrays that are already negative, which
      it leaves unchanged, and stays silent on positive arrays, which it
      negates: the opposite of "warn when changing". */
  lemma InitializeReflectedWarnsBackwards()
    ensures InitializeReflected([-1.0]) == Repaired([-1.0], true)
    ensures InitializeReflected([1.0]) == Repaired([-1.0], false)
  {
    assert InitializeReflected([-1.0]).values == [-1.0];
    assert InitializeReflected([1.0]).values == [-1.0];
  }

  /** Forward map: minus softplus, negative everywhere. */
  function F(h: Host, x: real): (r: real)
    ensures h.Valid() ==> r < 0.0
    ensures x > h.limVal ==> r == -x
  {
    assert h.Valid() ==> Logexp.F(h, x) > 0.0 by {
      if h.Valid() {
        Logexp.FPositive(h, x);
      }
    }
    -Logexp.F(h, x)
  }

  /** Inverse map: `Logexp`'s inverse of the negated value, which `F` sends
      back to every negative `y`. */
  function Finv(h: Host, y: real): (r: real)
    ensures h.Valid() && y < 0.0 ==> F(h, r) == y
    ensures y < -h.limVal ==> r == -y
  {
    assert h.Valid() && y < 0.0 ==> Logexp.F(h, Logexp.Finv(h, -y)) == -y by {
      if h.Valid() && y < 0.0 {
        Logexp.FFinv(h, -y);
      }
    }
    Logexp.Finv(h, -y)
  }

  /** Slope of `F`, as a function of the constrained value `y`: on the
      negative domain a scale in [-1, 0), exactly -1 below `-lim_val`. */
  function Gradfactor(h: Host, y: real): (r: real)
    ensures h.Valid() && y < 0.0 ==> -1.0 <= r < 0.0
    ensures y < -h.limVal ==> r == -1.0
  {
    assert h.Valid() && y < 0.0 ==> 0.0 < Logexp.Gradfactor(h, -y) <= 1.0 by {
      if h.Valid() && y < 0.0 {
        Logexp.GradfactorIsScale(h, -y);
      }
    }
    -Logexp.Gradfactor(h, -y)
  }

  /** Minus the absolute value of every entry, warning when one was positive. */
  function Initialize(xs: seq<real>): (r: Repaired)
    ensures |r.values| == |xs|
    ensures forall i :: 0 <= i < |xs| ==> r.values[i] == -Logexp.Initialize(xs).values[i]
    ensures r.warned <==> exists i :: 0 <= i < |xs| && xs[i] > 0.0
  {
    NegatedAbsRepair(xs)
  }

  /** `Finv` undoes `F` under the same condition as for `Logexp`. */
  lemma FinvF(h: Host, x: real)
    requires h.Valid()
    ensures Finv(h, F(h, x)) == x <==> (x > h.limVal || Logexp.F(h, x) <= h.limVal)
  {
    Logexp.FinvF(h, x);
  }

  /** `F` undoes `Finv` on the whole negative domain. */
  lemma FFinv(h: Host, y: real)
    requires h.Valid()
    requires y < 0.0
    ensures F(h, Finv(h, y)) == y
  {
  }

  /** `Gradfactor` at `F(x)` is the slope of minus softplus at `x` exactly
      where it is for `Logexp`: off the band `x <= lim_val < Logexp.f(x)`,
      on which the factor is -1 and the slope minus the sigmoid. */
  lemma GradfactorMatchesSlope(h: Host, x: real)
    requires h.Valid()
    ensures Gradfactor(h, F(h, x)) == -Logexp.Slope(h, x) <==> (x > h.limVal || Logexp.F(h, x) <= h.limVal)
    ensures x <= h.limVal < Logexp.F(h, x) ==> Gradfactor(h, F(h, x)) == -1.0 < -Sigmoid(h, x)
  {
    Logexp.GradfactorMatchesSlope(h, x);
  }

  /** The repair lands in the negative domain, and warns exactly when it
      changes the array. */
  lemma InitializeWarnsIffChanged(xs: seq<real>)
    ensures forall i :: 0 <= i < |xs| ==> Initialize(xs).values[i] <= 0.0
    ensures Initialize(xs).warned <==> Initialize(xs).values != xs
  {
    NegatedAbsRepairWarnsIffChanged(xs);
  }
}
