/** The interarrival jitter estimate of section 6.3.1 of RFC 1889, in exact arithmetic. */
module Jitter {
  import opened Common

  function Abs(x: real): real { if x < 0.0 then -x else x }

  function Update(prev: real, d: real): real {
    prev + (Abs(d) - prev) / 16.0
  }

  /** The estimator's state: the current value and the transit of the previous packet. */
  datatype Estimate = Estimate(jitter: real, lastTransit: Option<real>)

  function Observe(e: Estimate, transit: real): Estimate {
    Estimate(
      match e.lastTransit case None => e.jitter case Some(prev) => Update(e.jitter, transit - prev),
      Some(transit))
  }

  /** The estimate after packets with these transit times. */
  function Estimated(transits: seq<real>): Estimate {
    if transits == [] then Estimate(0.0, None)
    else Observe(Estimated(transits[..|transits| - 1]), transits[|transits| - 1])
  }

  /** Once packets have arrived, the last transit kept is the last one seen. */
  lemma EstimatedLast(transits: seq<real>)
    ensures Estimated(transits).lastTransit == if transits == [] then None else Some(transits[|transits| - 1])
  {}

  /** The size of the difference that packet `i` brings. */
  function Difference(transits: seq<real>, i: nat): real
    requires 1 <= i < |transits|
  {
    Abs(transits[i] - transits[i - 1])
  }

  /** The jitter never leaves the interval from zero to the largest difference seen so far. */
  lemma {:induction false} JitterBounded(transits: seq<real>, bound: real)
    requires bound >= 0.0
    requires forall i :: 1 <= i < |transits| ==> Difference(transits, i) <= bound
    ensures 0.0 <= Estimated(transits).jitter <= bound
  {
    if transits != [] {
      var init := transits[..|transits| - 1];
      assert forall i :: 1 <= i < |init| ==> Difference(init, i) == Difference(transits, i);
      JitterBounded(init, bound);
      assert |init| > 0 ==> Difference(transits, |init|) <= bound;
      EstimatedLast(init);
    }
  }

  /** A constant offset between the two clocks does not change the estimate. */
  lemma {:induction false} JitterIgnoresClockOffset(a: seq<real>, b: seq<real>, offset: real)
    requires |a| == |b| && forall i :: 0 <= i < |a| ==> b[i] == a[i] + offset
    ensures Estimated(a).jitter == Estimated(b).jitter
  {
    if a != [] {
      JitterIgnoresClockOffset(a[..|a| - 1], b[..|b| - 1], offset);
      EstimatedLast(a[..|a| - 1]);
      EstimatedLast(b[..|b| - 1]);
    }
  }

  const RATIO: real := 15.0 / 16.0

  function Pow(base: real, n: nat): real {
    if n == 0 then 1.0 else base * Pow(base, n - 1)
  }

  /** A distance after `n` packets that each take off one sixteenth. */
  function Shrunk(gap: real, n: nat): real {
    if n == 0 then gap else RATIO * Shrunk(gap, n - 1)
  }

  lemma {:induction false} ShrunkIsPow(gap: real, n: nat)
    ensures Shrunk(gap, n) == Pow(RATIO, n) * gap
  {
    if n > 0 {
      ShrunkIsPow(gap, n - 1);
      assert RATIO * (Pow(RATIO, n - 1) * gap) == (RATIO * Pow(RATIO, n - 1)) * gap;
    }
  }

  lemma {:induction false} ShrunkSize(gap: real, n: nat)
    ensures Abs(Shrunk(gap, n)) == Shrunk(Abs(gap), n)
  {
    if n > 0 {
      ShrunkSize(gap, n - 1);
    }
  }

  lemma UpdateShrinks(prev: real, x: real, d: real)
    requires Abs(x) == d
    ensures Update(prev, x) - d == RATIO * (prev - d)
  {}

  lemma {:induction false} DistanceShrinks(transits: seq<real>, k: nat, d: real)
    requires 1 <= k <= |transits|
    requires forall i :: k <= i < |transits| ==> Difference(transits, i) == d
    ensures Estimated(transits).jitter - d == Shrunk(Estimated(transits[..k]).jitter - d, |transits| - k)
    decreases |transits|
  {
    if k == |transits| {
      assert transits[..k] == transits;
    } else {
      var init := transits[..|transits| - 1];
      assert forall i :: k <= i < |init| ==> Difference(init, i) == Difference(transits, i);
      DistanceShrinks(init, k, d);
      EstimatedLast(init);
      assert init[..k] == transits[..k];
      assert Difference(transits, |init|) == d;
      UpdateShrinks(Estimated(init).jitter, transits[|init|] - init[|init| - 1], d);
    }
  }

  /** From packet `k` on, if every difference has the same size `d`, whatever its sign, the distance of
      the estimate from `d` shrinks by exactly 15/16 per packet, and stays on its side of `d`. */
  lemma JitterConvergesFrom(transits: seq<real>, k: nat, d: real) returns (gap: real)
    requires 1 <= k <= |transits|
    requires forall i :: k <= i < |transits| ==> Difference(transits, i) == d
    ensures gap == Estimated(transits[..k]).jitter - d
    ensures Estimated(transits).jitter - d == Pow(RATIO, |transits| - k) * gap
  {
    gap := Estimated(transits[..k]).jitter - d;
    DistanceShrinks(transits, k, d);
    ShrunkIsPow(gap, |transits| - k);
  }

  lemma JitterDistance(transits: seq<real>, k: nat, d: real) returns (distance: real)
    requires 1 <= k <= |transits|
    requires forall i :: k <= i < |transits| ==> Difference(transits, i) == d
    ensures distance == Abs(Estimated(transits[..k]).jitter - d)
    ensures Abs(Estimated(transits).jitter - d) == Pow(RATIO, |transits| - k) * distance
  {
    distance := Abs(Estimated(transits[..k]).jitter - d);
    DistanceShrinks(transits, k, d);
    ShrunkSize(Estimated(transits[..k]).jitter - d, |transits| - k);
    ShrunkIsPow(distance, |transits| - k);
  }

  /** A whole run with differences of one size starts `d` away from it and closes in at that rate. */
  lemma JitterConverges(transits: seq<real>, d: real)
    requires transits != [] && forall i :: 1 <= i < |transits| ==> Difference(transits, i) == d
    ensures Estimated(transits).jitter - d == Pow(RATIO, |transits| - 1) * (0.0 - d)
  {
    DistanceShrinks(transits, 1, d);
    assert transits[..1][..0] == [];
    assert Estimated(transits[..1]).jitter == 0.0;
    ShrunkIsPow(0.0 - d, |transits| - 1);
  }
}
