/** numpy arrays as flat sequences of reals, and the two whole-array
    operations the transformations use: elementwise application and `any`.
    The array-repair result of `initialize` lives here too. */
module Arrays {
  import opened Numerics

  /** Elementwise application: what a numpy ufunc or `where` does to every
      entry of an array. */
  function Map(g: real -> real, xs: seq<real>): (r: seq<real>)
    ensures |r| == |xs|
    ensures forall i :: 0 <= i < |xs| ==> r[i] == g(xs[i])
  {
    seq(|xs|, i requires 0 <= i < |xs| => g(xs[i]))
  }

  /** numpy's `any` of an elementwise test, scanning from the front. */
  function Any(p: real -> bool, xs: seq<real>): (r: bool)
    ensures r <==> exists i :: 0 <= i < |xs| && p(xs[i])
  {
    if |xs| == 0 then false
    else if p(xs[0]) then true
    else
      var rest := Any(p, xs[1..]);
      assert forall i :: 1 <= i < |xs| ==> xs[i] == xs[1..][i - 1];
      rest
  }

  /** What `initialize` hands back: the repaired values, and whether it
      printed "changing parameters to satisfy constraints". */
  datatype Repaired = Repaired(values: seq<real>, warned: bool)

  /** The repair shared by the positive transformations: the elementwise
      absolute value, with a warning when some entry is negative. */
  function AbsRepair(xs: seq<real>): (r: Repaired)
    ensures |r.values| == |xs|
    ensures forall i :: 0 <= i < |xs| ==> r.values[i] >= 0.0
    ensures forall i :: 0 <= i < |xs| && xs[i] >= 0.0 ==> r.values[i] == xs[i]
    ensures forall i :: 0 <= i < |xs| && xs[i] < 0.0 ==> r.values[i] == -xs[i]
    ensures r.warned <==> exists i :: 0 <= i < |xs| && xs[i] < 0.0
  {
    Repaired(Map(Abs, xs), Any(x => x < 0.0, xs))
  }

  /** The repair warns exactly when it changes the array. */
  lemma AbsRepairWarnsIffChanged(xs: seq<real>)
    ensures AbsRepair(xs).warned <==> AbsRepair(xs).values != xs
  {
    var r := AbsRepair(xs);
    if r.warned {
      var i :| 0 <= i < |xs| && xs[i] < 0.0;
      assert r.values[i] != xs[i];
    } else {
      assert r.values == xs;
    }
  }

  /** An array that already lies in the positive domain comes back unchanged
      and without a warning; otherwise the warning is raised. */
  lemma AbsRepairIdentityOnDomain(xs: seq<real>)
    ensures (forall i :: 0 <= i < |xs| ==> xs[i] >= 0.0) <==> AbsRepair(xs) == Repaired(xs, false)
  {
    AbsRepairWarnsIffChanged(xs);
  }

  /** The repair a negative transformation needs: minus the absolute value,
      with a warning when some entry was positive and so had to change. */
  function NegatedAbsRepair(xs: seq<real>): (r: Repaired)
    ensures |r.values| == |xs|
    ensures forall i :: 0 <= i < |xs| ==> r.values[i] <= 0.0
    ensures forall i :: 0 <= i < |xs| && xs[i] <= 0.0 ==> r.values[i] == xs[i]
    ensures forall i :: 0 <= i < |xs| && xs[i] > 0.0 ==> r.values[i] == -xs[i]
    ensures r.warned <==> exists i :: 0 <= i < |xs| && xs[i] > 0.0
  {
    Repaired(Map(x => -Abs(x), xs), Any(x => x > 0.0, xs))
  }

  /** The negative repair warns exactly when it changes the array. */
  lemma NegatedAbsRepairWarnsIffChanged(xs: seq<real>)
    ensures NegatedAbsRepair(xs).warned <==> NegatedAbsRepair(xs).values != xs
  {
    var r := NegatedAbsRepair(xs);
    if r.warned {
      var i :| 0 <= i < |xs| && xs[i] > 0.0;
      assert r.values[i] != xs[i];
    } else {
      assert r.values == xs;
    }
  }
}
