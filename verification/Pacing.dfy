/** Token-bucket pacing, in exact arithmetic. Times are nanoseconds, rates bits per second. */
module Pacing {
  import opened Common

  /** Bytes per nanosecond. */
  function ByteRate(rate: nat): real { rate as real / 8_000_000_000.0 }

  /** How long to sleep when `sent` bytes have gone out after `elapsed` nanoseconds. */
  function Wait(rate: nat, sent: nat, elapsed: real): Option<real> {
    if rate == 0 then None
    else
      var ahead := sent as real - ByteRate(rate) * elapsed;
      if ahead <= 0.0 then None else Some(ahead / ByteRate(rate))
  }

  class TokenBucket {
    const rate: nat
    const start: Time
    var bytesSent: nat

    constructor (rate: nat, start: Time)
      ensures this.rate == rate && this.start == start && bytesSent == 0
    {
      this.rate := rate;
      this.start := start;
      bytesSent := 0;
    }

    method Record(n: nat)
      modifies this
      ensures bytesSent == SaturatingAdd(old(bytesSent), n)
    {
      bytesSent := SaturatingAdd(bytesSent, n);
    }

    function WaitAt(now: Time): Option<real>
      reads this
    {
      Wait(rate, bytesSent, Since(now, start) as real)
    }
  }

  /** The sender may go exactly when it is not ahead of schedule. */
  lemma NotAheadIff(rate: nat, sent: nat, elapsed: real)
    ensures Wait(rate, sent, elapsed).None? <==> rate == 0 || sent as real <= ByteRate(rate) * elapsed
    ensures Wait(rate, sent, elapsed).Some? ==> Wait(rate, sent, elapsed).value > 0.0
  {
    if rate > 0 {
      var ahead := sent as real - ByteRate(rate) * elapsed;
      assert ByteRate(rate) > 0.0;
      if ahead > 0.0 {
        DividePositive(ahead, ByteRate(rate));
      }
    }
  }

  lemma {:induction false} CastProduct(a: nat, b: nat)
    ensures (a * b) as real == a as real * b as real
  {
    if a > 0 {
      CastProduct(a - 1, b);
      assert a * b == (a - 1) * b + b;
      assert (a - 1) as real * b as real == a as real * b as real - b as real;
    }
  }

  /** In whole numbers: there is no wait exactly when no rate is set, or the bits sent are no more than the
      rate allows in the nanoseconds elapsed. */
  lemma NoWaitIff(rate: nat, sent: nat, elapsed: nat)
    ensures Wait(rate, sent, elapsed as real).None? <==> rate == 0 || 8_000_000_000 * sent <= rate * elapsed
    ensures Wait(rate, sent, elapsed as real).Some? ==> Wait(rate, sent, elapsed as real).value > 0.0
  {
    NotAheadIff(rate, sent, elapsed as real);
    CastProduct(rate, elapsed);
    Rescaled(sent as real, rate as real, elapsed as real);
  }

  lemma Rescaled(sent: real, rate: real, elapsed: real)
    ensures sent <= rate / 8_000_000_000.0 * elapsed <==> 8_000_000_000.0 * sent <= rate * elapsed
  {
    assert 8_000_000_000.0 * (rate / 8_000_000_000.0 * elapsed) == rate * elapsed;
  }

  lemma DividePositive(a: real, b: real)
    requires a > 0.0 && b > 0.0
    ensures a / b > 0.0
    ensures b * (a / b) == a
  {
    assert b * (a / b) == a;
    if a / b <= 0.0 {
      ProductSign(b, a / b);
      assert false;
    }
  }

  lemma ProductSign(b: real, x: real)
    requires b > 0.0 && x <= 0.0
    ensures b * x <= 0.0
  {}

  lemma ScaleMonotone(b: real, x: real, y: real)
    requires b > 0.0
    ensures x <= y <==> b * x <= b * y
  {
    if x <= y {
      assert b * (y - x) >= 0.0;
    } else {
      assert b * (x - y) > 0.0;
    }
    assert b * (y - x) == b * y - b * x;
  }

  /** The wait is the least delay after which there is none: any delay clears it if and only if
      it is at least that long. */
  lemma WaitIsLeastDelay(rate: nat, sent: nat, elapsed: real, delay: real)
    requires Wait(rate, sent, elapsed).Some?
    ensures Wait(rate, sent, elapsed + delay).None? <==> delay >= Wait(rate, sent, elapsed).value
  {
    var b := ByteRate(rate);
    assert b > 0.0;
    var ahead := sent as real - b * elapsed;
    DividePositive(ahead, b);
    assert b * (elapsed + delay) == b * elapsed + b * delay;
    NotAheadIff(rate, sent, elapsed + delay);
    ScaleMonotone(b, ahead / b, delay);
  }
}
