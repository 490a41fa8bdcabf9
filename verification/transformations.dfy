/** The transformation family as a caller sees it: one transformation chosen
    per constrained parameter, and the four operations, the domain tag and the
    label dispatched on that choice. The negative variants dispatch to their
    reflected operations, and `LogexpClipped` to the softplus inverse. */
module Transformations {
  import opened Numerics
  import opened Arrays
  import opened Domains
  import Logexp
  import NegativeLogexp
  import LogexpClipped
  import Exponent
  import NegativeExponent
  import Square
  import Logistic

  datatype Transformation =
    | Logexp
    | NegativeLogexp
    | LogexpClipped
    | Exponent
    | NegativeExponent
    | Square
    | Logistic(bounds: Logistic.Bounds)
  {
    /** A `Logistic` exists only once its constructor accepted the bounds. */
    predicate Valid() {
      Logistic? ==> bounds.Valid()
    }
  }

  function DomainOf(t: Transformation): Domain {
    match t
    case Logexp => Logexp.DomainTag
    case NegativeLogexp => NegativeLogexp.DomainTag
    case LogexpClipped => LogexpClipped.DomainTag
    case Exponent => Exponent.DomainTag
    case NegativeExponent => NegativeExponent.DomainTag
    case Square => Square.DomainTag
    case Logistic(_) => Logistic.DomainTag
  }

  /** `y` satisfies the constraint `t` declares. */
  predicate InDomain(t: Transformation, y: real) {
    match DomainOf(t)
    case Positive => y >= 0.0
    case Negative => y <= 0.0
    case Bounded => t.Logistic? && t.bounds.Contains(y)
  }

  /** `__str__`; `render` is how Python prints one float. */
  function Label(t: Transformation, render: real -> string): string {
    match t
    case Logexp => Logexp.Str
    case NegativeLogexp => NegativeLogexp.Str
    case LogexpClipped => LogexpClipped.Str
    case Exponent => Exponent.Str
    case NegativeExponent => NegativeExponent.Str
    case Square => Square.Str
    case Logistic(b) => Logistic.Str(b, render)
  }

  function F(h: Host, t: Transformation, x: real): real
    requires h.Valid()
  {
    match t
    case Logexp => Logexp.F(h, x)
    case NegativeLogexp => NegativeLogexp.F(h, x)
    case LogexpClipped => LogexpClipped.F(h, x)
    case Exponent => Exponent.F(h, x)
    case NegativeExponent => NegativeExponent.F(h, x)
    case Square => Square.F(x)
    case Logistic(b) => Logistic.F(h, b, x)
  }

  function Finv(h: Host, t: Transformation, y: real): real {
    match t
    case Logexp => Logexp.Finv(h, y)
    case NegativeLogexp => NegativeLogexp.Finv(h, y)
    case LogexpClipped => LogexpClipped.Finv(h, y)
    case Exponent => Exponent.Finv(h, y)
    case NegativeExponent => NegativeExponent.Finv(h, y)
    case Square => Square.Finv(h, y)
    case Logistic(b) => Logistic.Finv(h, b, y)
  }

  function Gradfactor(h: Host, t: Transformation, y: real): real
    requires h.Valid() && t.Valid()
  {
    match t
    case Logexp => Logexp.Gradfactor(h, y)
    case NegativeLogexp => NegativeLogexp.Gradfactor(h, y)
    case LogexpClipped => LogexpClipped.Gradfactor(h, y)
    case Exponent => Exponent.Gradfactor(y)
    case NegativeExponent => NegativeExponent.Gradfactor(y)
    case Square => Square.Gradfactor(h, y)
    case Logistic(b) => Logistic.Gradfactor(b, y)
  }

  function Initialize(h: Host, t: Transformation, xs: seq<real>): (r: Repaired)
    requires h.Valid()
    ensures |r.values| == |xs|
  {
    match t
    case Logexp => Logexp.Initialize(xs)
    case NegativeLogexp => NegativeLogexp.Initialize(xs)
    case LogexpClipped => LogexpClipped.Initialize(xs)
    case Exponent => Exponent.Initialize(xs)
    case NegativeExponent => NegativeExponent.Initialize(xs)
    case Square => Square.Initialize(xs)
    case Logistic(b) => Logistic.Initialize(h, b, xs)
  }

  /** Every transformation maps every real into the domain it declares. */
  lemma FInDomain(h: Host, t: Transformation, x: real)
    requires h.Valid() && t.Valid()
    ensures InDomain(t, F(h, t, x))
  {
    match t
    case Logexp => Logexp.FPositive(h, x);
    case NegativeLogexp =>
    case LogexpClipped =>
    case Exponent => Exponent.FBounded(h, x);
    case NegativeExponent =>
    case Square =>
    case Logistic(b) =>
  }

  /** `Initialize` always lands in the declared domain, leaves an array that
      is already there unchanged, and warns only when it changes something;
      every variant but `Square` also warns whenever it changes something. */
  lemma InitializeRepairs(h: Host, t: Transformation, xs: seq<real>)
    requires h.Valid() && t.Valid()
    ensures forall i :: 0 <= i < |xs| ==> InDomain(t, Initialize(h, t, xs).values[i])
    ensures (forall i :: 0 <= i < |xs| ==> InDomain(t, xs[i])) ==> Initialize(h, t, xs) == Repaired(xs, false)
    ensures Initialize(h, t, xs).warned ==> Initialize(h, t, xs).values != xs
    ensures !t.Square? ==> (Initialize(h, t, xs).warned <==> Initialize(h, t, xs).values != xs)
  {
    var r := Initialize(h, t, xs);
    match t
    case Logexp => AbsRepairWarnsIffChanged(xs);
    case LogexpClipped => AbsRepairWarnsIffChanged(xs);
    case Exponent => AbsRepairWarnsIffChanged(xs);
    case Square =>
      if forall i :: 0 <= i < |xs| ==> xs[i] >= 0.0 {
        assert r.values == xs;
      }
    case NegativeLogexp => NegativeLogexp.InitializeWarnsIffChanged(xs);
    case NegativeExponent => NegativeExponent.InitializeWarnsIffChanged(xs);
    case Logistic(b) =>
      Logistic.InitializeRepairs(h, b, xs);
      if forall i :: 0 <= i < |xs| ==> InDomain(t, xs[i]) {
        assert r.values == xs;
      }
  }

  /** The label of each fixed-domain variant shows its sign: `(+...)` for the
      positive ones and `(-...)` for the negative ones. */
  lemma LabelShowsSign(t: Transformation, render: real -> string)
    requires !t.Logistic?
    ensures |Label(t, render)| >= 2
    ensures Label(t, render)[1] == '+' <==> DomainOf(t) == Positive
    ensures Label(t, render)[1] == '-' <==> DomainOf(t) == Negative
  {
  }
}
