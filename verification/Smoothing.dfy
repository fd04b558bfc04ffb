/** The one-pole filter applied to rendered CV (src/tt_core.c). */
module Smoothing {
  import opened Reals

  /** The filter state after the inputs vs, each moving it by coef of the gap. */
  function Smooth(z: real, coef: real, vs: seq<real>): real {
    if vs == [] then z
    else
      var p := Smooth(z, coef, vs[..|vs| - 1]);
      p + coef * (vs[|vs| - 1] - p)
  }

  lemma {:induction false} SmoothAppend(z: real, coef: real, a: seq<real>, b: seq<real>)
    ensures Smooth(z, coef, a + b) == Smooth(Smooth(z, coef, a), coef, b)
  {
    if b == [] {
      assert a + b == a;
    } else {
      var n := |b| - 1;
      SmoothAppend(z, coef, a, b[..n]);
      assert (a + b)[..|a + b| - 1] == a + b[..n];
    }
  }

  lemma Blend(p: real, v: real, coef: real, lo: real, hi: real)
    requires 0.0 < coef < 1.0 && lo <= p <= hi && lo <= v <= hi
    ensures lo <= p + coef * (v - p) <= hi
  {
    assert p + coef * (v - p) - lo == (1.0 - coef) * (p - lo) + coef * (v - lo);
    assert hi - (p + coef * (v - p)) == (1.0 - coef) * (hi - p) + coef * (hi - v);
    Product(1.0 - coef, p - lo);
    Product(coef, v - lo);
    Product(1.0 - coef, hi - p);
    Product(coef, hi - v);
  }

  /** Over any run the filter stays within the hull of where it started and
      what it was fed. */
  lemma {:induction false} StaysInHull(z: real, coef: real, vs: seq<real>, lo: real, hi: real)
    requires 0.0 < coef < 1.0 && lo <= z <= hi
    requires forall k :: 0 <= k < |vs| ==> lo <= vs[k] <= hi
    ensures lo <= Smooth(z, coef, vs) <= hi
  {
    if vs != [] {
      var n := |vs| - 1;
      StaysInHull(z, coef, vs[..n], lo, hi);
      Blend(Smooth(z, coef, vs[..n]), vs[n], coef, lo, hi);
    }
  }

  /** On a constant input the error after n frames is exactly (1-coef)^n times
      the initial error. */
  lemma {:induction false} GeometricApproach(z: real, coef: real, vs: seq<real>, v: real)
    requires forall k :: 0 <= k < |vs| ==> vs[k] == v
    ensures Smooth(z, coef, vs) - v == Power(1.0 - coef, |vs|) * (z - v)
  {
    if vs != [] {
      var n := |vs| - 1;
      GeometricApproach(z, coef, vs[..n], v);
      var p := Smooth(z, coef, vs[..n]);
      assert p + coef * (v - p) - v == (1.0 - coef) * (p - v);
      Regroup(1.0 - coef, Power(1.0 - coef, n), z - v);
    }
  }
}
