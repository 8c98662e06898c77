/** Big-endian integers of a fixed width, as `to_be_bytes` and `from_be_bytes` lay them out. */
module BigEndian {
  import opened Common

  function Pow256(k: nat): (p: nat)
    ensures p > 0
  {
    if k == 0 then 1 else 256 * Pow256(k - 1)
  }

  function ToBytes(n: nat, k: nat): (s: seq<Byte>)
    ensures |s| == k
  {
    if k == 0 then [] else ToBytes(n / 256, k - 1) + [n % 256]
  }

  function FromBytes(s: seq<Byte>): (n: nat)
    ensures n < Pow256(|s|)
  {
    if s == [] then 0 else FromBytes(s[..|s| - 1]) * 256 + s[|s| - 1]
  }

  /** Byte `i` of `k` is the digit of weight 256 to the power `k - 1 - i`: the most significant comes first. */
  lemma {:induction false} ByteOrder(n: nat, k: nat, i: nat)
    requires i < k
    ensures ToBytes(n, k)[i] == n / Pow256(k - 1 - i) % 256
  {
    if i < k - 1 {
      ByteOrder(n / 256, k - 1, i);
      DivideTwice(n, Pow256(k - 2 - i));
    }
  }

  lemma DivideTwice(n: nat, p: nat)
    requires p > 0
    ensures n / 256 / p == n / (256 * p)
  {
    var q, r := n / 256 / p, n / 256 % p;
    assert n / 256 == q * p + r;
    var low := n - 256 * (n / 256);
    assert n == q * (256 * p) + (256 * r + low);
    QuotientIs(n, 256 * p, q, 256 * r + low);
  }

  lemma QuotientIs(n: nat, d: nat, q: nat, r: nat)
    requires d > 0 && r < d && n == q * d + r
    ensures n / d == q
  {
    var q' := n / d;
    assert q' * d <= n < q' * d + d;
    MultiplesApart(q, q', d);
    MultiplesApart(q', q, d);
  }

  lemma {:induction false} MultiplesApart(a: nat, b: nat, d: nat)
    ensures a < b ==> a * d + d <= b * d
  {
    if a < b {
      assert b * d == (b - 1) * d + d;
      MultiplesApart(a, b - 1, d);
    }
  }

  lemma {:induction false} DecodeEncode(n: nat, k: nat)
    requires n < Pow256(k)
    ensures FromBytes(ToBytes(n, k)) == n
  {
    if k > 0 {
      assert n / 256 < Pow256(k - 1);
      DecodeEncode(n / 256, k - 1);
      assert ToBytes(n, k)[..k - 1] == ToBytes(n / 256, k - 1);
    }
  }

  /** The number whose `k` bytes all are `b`. */
  function Repdigit(b: Byte, k: nat): nat {
    if k == 0 then 0 else Repdigit(b, k - 1) * 256 + b
  }

  /** Bytes within bounds make a number within the bounds' own numbers. */
  lemma {:induction false} BytesWithin(s: seq<Byte>, lo: Byte, hi: Byte)
    requires forall i :: 0 <= i < |s| ==> lo <= s[i] <= hi
    ensures Repdigit(lo, |s|) <= FromBytes(s) <= Repdigit(hi, |s|)
  {
    if s != [] {
      BytesWithin(s[..|s| - 1], lo, hi);
    }
  }

  lemma Widths()
    ensures Pow256(2) == 0x1_0000 && Pow256(4) == 0x1_0000_0000 && Pow256(8) == 0x1_0000_0000_0000_0000
  {}

  lemma LastDigit(n: nat, b: Byte)
    ensures (n * 256 + b) / 256 == n && (n * 256 + b) % 256 == b
  {}

  lemma {:induction false} EncodeDecode(s: seq<Byte>)
    ensures ToBytes(FromBytes(s), |s|) == s
  {
    if s != [] {
      EncodeDecode(s[..|s| - 1]);
      LastDigit(FromBytes(s[..|s| - 1]), s[|s| - 1]);
      assert s == s[..|s| - 1] + [s[|s| - 1]];
    }
  }
}
