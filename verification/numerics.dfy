/** The numeric host the transformations run on.

    numpy's `exp`, `log` and `sqrt` and the module constant `lim_val` are not
    given a definition here: they are carried by a `Host` record, and every
    property that depends on them assumes only the axioms collected in
    `Host.Valid()`. Nothing about IEEE rounding, overflow or NaN is modelled.
 */
module Numerics {

  /** exp, log and sqrt as numpy computes them, and `lim_val`, the saturation
      threshold shared by the exponential-family transformations. */
  datatype Host = Host(exp: real -> real, log: real -> real, sqrt: real -> real, limVal: real) {

    /** exp is positive, strictly increasing and maps 0 to 1. */
    ghost predicate ExpIncreasing() {
      && (forall x :: exp(x) > 0.0)
      && (forall x, y :: x < y ==> exp(x) < exp(y))
      && exp(0.0) == 1.0
    }

    /** log and exp are inverse to each other (log on the positive reals). */
    ghost predicate LogInvertsExp() {
      && (forall x :: log(exp(x)) == x)
      && (forall y :: y > 0.0 ==> exp(log(y)) == y)
    }

    /** exp(-x) is the reciprocal of exp(x). */
    ghost predicate ExpReciprocal() {
      forall x, y :: x + y == 0.0 ==> exp(x) * exp(y) == 1.0
    }

    /** The properties of exp and log the model relies on. */
    ghost predicate ExpLogAxioms() {
      ExpIncreasing() && LogInvertsExp() && ExpReciprocal()
    }

    /** sqrt returns the non-negative square root of a non-negative argument. */
    ghost predicate SqrtAxioms() {
      forall y :: y >= 0.0 ==> sqrt(y) >= 0.0 && sqrt(y) * sqrt(y) == y
    }

    /** A host fit for the transformations: `lim_val` is positive. */
    ghost predicate Valid() {
      limVal > 0.0 && ExpLogAxioms() && SqrtAxioms()
    }
  }

  /** numpy's `abs` on one entry. */
  function Abs(x: real): (r: real)
    ensures r >= 0.0
    ensures r == x || r == -x
  {
    if x < 0.0 then -x else x
  }

  /** numpy's `clip(x, lo, hi)`, which is `minimum(maximum(x, lo), hi)`. */
  function Clip(x: real, lo: real, hi: real): (r: real)
    ensures lo <= hi ==> lo <= r <= hi
    ensures lo <= x <= hi ==> r == x
  {
    var above := if x < lo then lo else x;
    if above > hi then hi else above
  }

  /** numpy's `clip(x, lo, inf)`: `x` raised to at least `lo`. */
  function ClipBelow(x: real, lo: real): (r: real)
    ensures r >= lo
    ensures x >= lo ==> r == x
    ensures x < lo ==> r == lo
  {
    if x < lo then lo else x
  }

  /** The slope of softplus `log(1 + exp(x))` at `x`, written independently of
      any transformation: `exp(x) / (1 + exp(x))`. */
  function Sigmoid(h: Host, x: real): real
    requires h.Valid()
  {
    h.exp(x) / (1.0 + h.exp(x))
  }

  /** Consequences of the axioms used throughout. */
  lemma ExpStrictlyMonotone(h: Host, a: real, b: real)
    requires h.Valid()
    ensures a < b <==> h.exp(a) < h.exp(b)
    ensures a == b <==> h.exp(a) == h.exp(b)
  {
    if a < b {
      assert h.exp(a) < h.exp(b);
    } else if b < a {
      assert h.exp(b) < h.exp(a);
    }
  }

  /** The sigmoid lies strictly between 0 and 1. */
  lemma SigmoidIsScale(h: Host, x: real)
    requires h.Valid()
    ensures 0.0 < Sigmoid(h, x) < 1.0
  {
    var e := h.exp(x);
    assert e < 1.0 + e;
  }

  /** exp of a negated argument is the reciprocal. */
  lemma ExpNegate(h: Host, x: real)
    requires h.Valid()
    ensures h.exp(-x) == 1.0 / h.exp(x)
  {
    assert x + -x == 0.0;
    assert h.exp(x) * h.exp(-x) == 1.0;
  }

  /** An increasing, positive, piecewise-rational stand-in for exp: `1 + x`
      for x >= 0 and `1 / (1 - x)` for x < 0. */
  function ModelExp(x: real): real {
    if x >= 0.0 then 1.0 + x else 1.0 / (1.0 - x)
  }

  /** The inverse of `ModelExp` on the positive reals. */
  function ModelLog(y: real): real {
    if y >= 1.0 then y - 1.0 else if y > 0.0 then 1.0 - 1.0 / y else 0.0
  }

  lemma ModelExpPositive(x: real)
    ensures ModelExp(x) > 0.0
  {
  }

  lemma ModelExpMonotone(x: real, y: real)
    requires x < y
    ensures ModelExp(x) < ModelExp(y)
  {
    if y < 0.0 {
      assert 1.0 - y < 1.0 - x;
    }
  }

  lemma ModelLogInverse(x: real, y: real)
    ensures ModelLog(ModelExp(x)) == x
    ensures y > 0.0 ==> ModelExp(ModelLog(y)) == y
  {
    if x < 0.0 {
      assert ModelExp(x) < 1.0;
      assert 1.0 / ModelExp(x) == 1.0 - x;
    }
    if 0.0 < y < 1.0 {
      assert ModelLog(y) < 0.0;
      assert 1.0 - ModelLog(y) == 1.0 / y;
    }
  }

  lemma ModelExpReciprocal(x: real, y: real)
    requires x + y == 0.0
    ensures ModelExp(x) * ModelExp(y) == 1.0
  {
    if x < 0.0 {
      assert ModelExp(y) == 1.0 - x;
    } else if x > 0.0 {
      assert ModelExp(x) == 1.0 - y;
    }
  }

  /** The host whose exp and log are `ModelExp` and `ModelLog`. */
  function ModelHost(limVal: real): Host {
    Host(ModelExp, ModelLog, (y: real) => y, limVal)
  }

  lemma ModelHostOrder(h: Host)
    requires h.exp == ModelExp
    ensures h.ExpIncreasing()
  {
    forall x ensures h.exp(x) > 0.0 {
      ModelExpPositive(x);
    }
    forall x, y | x < y ensures h.exp(x) < h.exp(y) {
      ModelExpMonotone(x, y);
    }
  }

  lemma ModelHostInverse(h: Host)
    requires h.exp == ModelExp && h.log == ModelLog
    ensures h.LogInvertsExp()
  {
    forall x ensures h.log(h.exp(x)) == x {
      ModelLogInverse(x, 1.0);
    }
    forall y | y > 0.0 ensures h.exp(h.log(y)) == y {
      ModelLogInverse(0.0, y);
    }
  }

  lemma ModelHostReciprocal(h: Host)
    requires h.exp == ModelExp
    ensures h.ExpReciprocal()
  {
    forall x, y | x + y == 0.0 ensures h.exp(x) * h.exp(y) == 1.0 {
      ModelExpReciprocal(x, y);
    }
  }

  /** The exp/log axioms are not contradictory: `ModelExp` and `ModelLog`
      satisfy all of them, whatever the threshold. */
  lemma ExpLogAxiomsSatisfiable(limVal: real)
    ensures ModelHost(limVal).ExpLogAxioms()
  {
    var h := ModelHost(limVal);
    ModelHostOrder(h);
    ModelHostInverse(h);
    ModelHostReciprocal(h);
  }
}
