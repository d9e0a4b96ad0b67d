/**
 * Readings as the store keeps them once their raw fields have been coerced:
 * receive time in whole seconds and each quantity present or absent.
 * Sequences of samples are histories, oldest first, so the functions here
 * recurse on the newest element.
 */
module Samples {
  import opened Wrappers

  /** One entry of a station's recent buffer: `(recv_at, t_f, h_f)`. */
  datatype Sample = Sample(recvAt: int, t: Option<real>, h: Option<real>)

  /** The two measured quantities; used to state one lemma for both. */
  datatype Quantity = Temperature | Humidity

  function Reading(s: Sample, q: Quantity): Option<real>
  {
    if q == Temperature then s.t else s.h
  }

  /** The value of `v` as a sequence of zero or one element. */
  function Present(v: Option<real>): seq<real>
  {
    if v.Some? then [v.value] else []
  }

  /** The present values of quantity `q` in `w`, oldest first. */
  function Values(w: seq<Sample>, q: Quantity): (xs: seq<real>)
    ensures |xs| <= |w|
  {
    if w == [] then [] else Values(w[..|w| - 1], q) + Present(Reading(w[|w| - 1], q))
  }

  function Sum(xs: seq<real>): real
  {
    if xs == [] then 0.0 else Sum(xs[..|xs| - 1]) + xs[|xs| - 1]
  }

  /** Arithmetic mean; absent for no samples (rendered "n/a"). */
  function Mean(xs: seq<real>): (m: Option<real>)
    ensures m.None? <==> xs == []
  {
    if xs == [] then None else Some(Sum(xs) / (|xs| as real))
  }

  lemma {:induction false} ValuesConcat(a: seq<Sample>, b: seq<Sample>, q: Quantity)
    ensures Values(a + b, q) == Values(a, q) + Values(b, q)
    decreases |b|
  {
    if b == [] {
      assert a + b == a;
    } else {
      assert (a + b)[..|a + b| - 1] == a + b[..|b| - 1];
      ValuesConcat(a, b[..|b| - 1], q);
    }
  }

  lemma {:induction false} SumConcat(xs: seq<real>, ys: seq<real>)
    ensures Sum(xs + ys) == Sum(xs) + Sum(ys)
    decreases |ys|
  {
    if ys == [] {
      assert xs + ys == xs;
    } else {
      assert (xs + ys)[..|xs + ys| - 1] == xs + ys[..|ys| - 1];
      SumConcat(xs, ys[..|ys| - 1]);
    }
  }

  lemma {:induction false} SumBetween(xs: seq<real>, lo: real, hi: real)
    requires forall i :: 0 <= i < |xs| ==> lo <= xs[i] <= hi
    ensures (|xs| as real) * lo <= Sum(xs) <= (|xs| as real) * hi
    decreases |xs|
  {
    if xs != [] {
      var init := xs[..|xs| - 1];
      SumBetween(init, lo, hi);
      assert (|xs| as real) * lo == (|init| as real) * lo + lo;
      assert (|xs| as real) * hi == (|init| as real) * hi + hi;
    }
  }

  /** A mean never leaves an interval that holds every sample. */
  lemma MeanBetween(xs: seq<real>, lo: real, hi: real)
    requires forall i :: 0 <= i < |xs| ==> lo <= xs[i] <= hi
    ensures Mean(xs).Some? ==> lo <= Mean(xs).value <= hi
  {
    if xs != [] {
      var n := |xs| as real;
      SumBetween(xs, lo, hi);
      assert Sum(xs) / n * n == Sum(xs);
      if Sum(xs) / n < lo {
        assert Sum(xs) / n * n < lo * n;
      }
      if Sum(xs) / n > hi {
        assert Sum(xs) / n * n > hi * n;
      }
    }
  }
}
