/** The two folds of the convolution integrator in `renderer.cpp`, on the
    numbers they consume.

    The secondary raycast walks the sorted hit parameters of a ray with an
    "inside" flag: a parameter met while inside closes an interval that
    opened at `t_start`, one met while outside opens the next interval.
    The RN term folds the scene with RN := (RN + second) * third. */
module Convolution {

  // ------------------------------------------------------ interval pairing

  /** The pairing loop from state (R, t_start, inside) over the remaining
      parameters `ts`: a parameter met inside adds t - t_start (t_start is
      kept); one met outside becomes t_start; the flag flips each time. */
  function Pairing(ts: seq<real>, r: real, tStart: real, inside: bool): real
  {
    if ts == [] then r
    else if inside then Pairing(ts[1..], r + (ts[0] - tStart), tStart, false)
    else Pairing(ts[1..], r, ts[0], true)
  }

  /** The reference sum of t1 - t0, t3 - t2, ... over consecutive pairs;
      a last unpaired parameter adds nothing. */
  function Intervals(ts: seq<real>): real
  {
    if |ts| < 2 then 0.0 else (ts[1] - ts[0]) + Intervals(ts[2..])
  }

  /** Starting outside (an RN target), the loop adds exactly the pairwise
      intervals, and a trailing unpaired hit contributes nothing. */
  lemma {:induction false} PairingOutside(ts: seq<real>, r: real, tStart: real)
    ensures Pairing(ts, r, tStart, false) == r + Intervals(ts)
  {
    if |ts| >= 2 {
      assert ts[1..][1..] == ts[2..];
      assert ts[1..][0] == ts[1];
      PairingOutside(ts[2..], r + (ts[1] - ts[0]), ts[0]);
    }
  }

  /** Starting inside (the primary hit's own object, with t_start = 0), the
      first parameter closes the interval [t_start, t0] and the rest pair up
      as from outside: R = (t0 - 0) + (t2 - t1) + (t4 - t3) + ... */
  lemma PairingInside(ts: seq<real>, r: real, tStart: real)
    ensures Pairing(ts, r, tStart, true) == r + (if ts == [] then 0.0 else (ts[0] - tStart) + Intervals(ts[1..]))
  {
    if ts != [] {
      PairingOutside(ts[1..], r + (ts[0] - tStart), tStart);
    }
  }

  /** Sorted: non-decreasing. */
  predicate NonDecreasing(ts: seq<real>) {
    forall i, j :: 0 <= i < j < |ts| ==> ts[i] <= ts[j]
  }

  /** Over sorted parameters every pair adds a non-negative interval. */
  lemma {:induction false} IntervalsNonNegative(ts: seq<real>)
    requires NonDecreasing(ts)
    ensures Intervals(ts) >= 0.0
  {
    if |ts| >= 2 {
      IntervalsNonNegative(ts[2..]);
    }
  }

  /** Over sorted parameters none of which is negative (every hit lies at
      t >= epsilon), the integrator's R is never negative, whichever way
      the flag starts. */
  lemma PairingNonNegative(ts: seq<real>, inside: bool)
    requires NonDecreasing(ts)
    requires forall i :: 0 <= i < |ts| ==> 0.0 <= ts[i]
    ensures Pairing(ts, 0.0, 0.0, inside) >= 0.0
  {
    if inside {
      PairingInside(ts, 0.0, 0.0);
      if ts != [] {
        IntervalsNonNegative(ts[1..]);
      }
    } else {
      PairingOutside(ts, 0.0, 0.0);
      IntervalsNonNegative(ts);
    }
  }

  // ------------------------------------------------------------- the RN fold

  /** RN := (RN + a) * b for each pair (a, b), in order: a is an object's
      secondary-raycast occlusion and b its third-raycast intensity. */
  function Accumulate(terms: seq<(real, real)>, rn: real): real
  {
    if terms == [] then rn else Accumulate(terms[1..], (rn + terms[0].0) * terms[0].1)
  }

  /** The fold's first step, for a sequence built as one pair followed by
      the rest. */
  lemma AccumulateCons(t: (real, real), rest: seq<(real, real)>, rn: real)
    ensures Accumulate([t] + rest, rn) == Accumulate(rest, (rn + t.0) * t.1)
  {
    var terms := [t] + rest;
    assert terms[0] == t && terms[1..] == rest;
    AccumulateStep(terms, rn);
    MulCongruence(rn + terms[0].0, terms[0].1, rn + t.0, t.1);
  }

  /** The fold's first step. */
  lemma AccumulateStep(terms: seq<(real, real)>, rn: real)
    requires terms != []
    ensures Accumulate(terms, rn) == Accumulate(terms[1..], (rn + terms[0].0) * terms[0].1)
  {
  }

  /** Equal factors give equal products. */
  lemma MulCongruence(a: real, b: real, a': real, b': real)
    requires a == a' && b == b'
    ensures a * b == a' * b'
  {
  }

  /** The product of all the intensities. */
  function Product(terms: seq<(real, real)>): real
  {
    if terms == [] then 1.0 else terms[0].1 * Product(terms[1..])
  }

  /** Each occlusion weighted by the product of its own and every later
      intensity. */
  function WeightedSum(terms: seq<(real, real)>): real
  {
    if terms == [] then 0.0 else terms[0].0 * Product(terms) + WeightedSum(terms[1..])
  }

  /** The closed form of the fold: RN_final = RN * (b_0 ... b_n-1)
      + sum over i of a_i * (b_i ... b_n-1). */
  lemma {:induction false} AccumulateClosedForm(terms: seq<(real, real)>, rn: real)
    ensures Accumulate(terms, rn) == rn * Product(terms) + WeightedSum(terms)
  {
    if terms != [] {
      var a, b := terms[0].0, terms[0].1;
      var p := Product(terms[1..]);
      var rn' := (rn + a) * b;
      AccumulateStep(terms, rn);
      AccumulateClosedForm(terms[1..], rn');
      assert Product(terms) == b * p;
      assert rn' * p == rn * (b * p) + a * (b * p);
    }
  }

  /** The fold depends on the order of the scene list: occlusions 1 and 1
      with intensities 2 then 3 give 9, in the other order 8. */
  lemma AccumulateDependsOnOrder()
    ensures Accumulate([(1.0, 2.0), (1.0, 3.0)], 0.0) == 9.0
    ensures Accumulate([(1.0, 3.0), (1.0, 2.0)], 0.0) == 8.0
  {
    assert [(1.0, 2.0), (1.0, 3.0)][1..] == [(1.0, 3.0)];
    assert [(1.0, 3.0), (1.0, 2.0)][1..] == [(1.0, 2.0)];
  }
}
