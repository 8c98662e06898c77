/** Types and sequence arithmetic shared by every component of the model. */
module Common {

  datatype Option<+T> = None | Some(value: T)

  datatype Result<+T, +E> = Ok(value: T) | Err(error: E)

  /** A monotonic clock reading, in nanoseconds. */
  type Time = nat

  type Byte = b: nat | b < 256

  const U64_MAX: nat := 0xFFFF_FFFF_FFFF_FFFF
  const I64_MAX: nat := 0x7FFF_FFFF_FFFF_FFFF

  /** `Instant::duration_since`: zero when `a` is earlier than `b`. */
  function Since(a: Time, b: Time): nat {
    if a >= b then a - b else 0
  }

  function SaturatingAdd(a: nat, b: nat): nat {
    if a + b > U64_MAX then U64_MAX else a + b
  }

  /** `x as u64`, in two's complement. */
  function AsU64(x: int): (n: nat)
    ensures n <= U64_MAX
    ensures -(U64_MAX + 1) <= x <= U64_MAX ==> n == if x < 0 then x + U64_MAX + 1 else x
  {
    x % (U64_MAX + 1)
  }

  /** `n as i64`. */
  function AsI64(n: nat): int
    requires n <= U64_MAX
  {
    if n > I64_MAX then n - U64_MAX - 1 else n
  }

  function Sum(s: seq<nat>): nat {
    if s == [] then 0 else Sum(s[..|s| - 1]) + s[|s| - 1]
  }

  lemma {:induction false} SumConcat(a: seq<nat>, b: seq<nat>)
    ensures Sum(a + b) == Sum(a) + Sum(b)
  {
    if b == [] {
      assert a + b == a;
    } else {
      assert (a + b)[..|a + b| - 1] == a + b[..|b| - 1];
      SumConcat(a, b[..|b| - 1]);
    }
  }

  /** Changing one entry changes the sum by the difference of the two entries. */
  lemma {:induction false} SumUpdate(s: seq<nat>, i: nat, v: nat)
    requires i < |s|
    ensures Sum(s[i := v]) + s[i] == Sum(s) + v
  {
    if i == |s| - 1 {
      assert s[i := v][..i] == s[..i];
    } else {
      assert s[i := v][..|s| - 1] == s[..|s| - 1][i := v];
      SumUpdate(s[..|s| - 1], i, v);
    }
  }

  predicate Distinct<T(==)>(s: seq<T>) {
    forall i, j :: 0 <= i < j < |s| ==> s[i] != s[j]
  }

  function Without<T>(s: seq<T>, j: nat): seq<T>
    requires j < |s|
  {
    s[..j] + s[j + 1..]
  }

  /** Distinct numbers below `n` are at most `n`; if they are `n`, none is missing. */
  lemma {:induction false} DistinctBelow(s: seq<nat>, n: nat)
    requires Distinct(s) && forall j :: 0 <= j < |s| ==> s[j] < n
    ensures |s| <= n
    ensures |s| == n ==> forall i :: 0 <= i < n ==> i in s
  {
    assert s != [] ==> 0 <= s[0] < n;
    if n > 0 {
      if j :| 0 <= j < |s| && s[j] == n - 1 {
        var rest := Without(s, j);
        assert forall k :: 0 <= k < |rest| ==> rest[k] == s[if k < j then k else k + 1];
        DistinctBelow(rest, n - 1);
        forall i | 0 <= i < n && |s| == n ensures i in s {
          if i < n - 1 {
            assert i in rest;
          }
        }
      } else {
        DistinctBelow(s, n - 1);
      }
    }
  }

  function Picked(values: seq<nat>, order: seq<nat>): (r: seq<nat>)
    requires forall j :: 0 <= j < |order| ==> order[j] < |values|
    ensures |r| == |order|
  {
    seq(|order|, j requires 0 <= j < |order| => values[order[j]])
  }

  lemma SumInsert(a: seq<nat>, x: nat, b: seq<nat>)
    ensures Sum(a + [x] + b) == Sum(a + b) + x
  {
    SumConcat(a, b);
    SumConcat(a + [x], b);
    SumConcat(a, [x]);
    assert Sum([x]) == x;
  }

  lemma PickedWithout(values: seq<nat>, order: seq<nat>, j: nat)
    requires forall k :: 0 <= k < |order| ==> order[k] < |values|
    requires j < |order| && order[j] == |values| - 1
    requires forall k :: 0 <= k < |order| && k != j ==> order[k] < |values| - 1
    ensures forall k :: 0 <= k < |Without(order, j)| ==> Without(order, j)[k] < |values| - 1
    ensures Sum(Picked(values, order)) == Sum(Picked(values[..|values| - 1], Without(order, j))) + values[|values| - 1]
  {
    var a, b := Picked(values, order)[..j], Picked(values, order)[j + 1..];
    var rest := Without(order, j);
    assert forall k :: 0 <= k < |rest| ==> rest[k] == order[if k < j then k else k + 1];
    assert Picked(values[..|values| - 1], rest) == a + b;
    assert Picked(values, order) == a + [values[|values| - 1]] + b;
    SumInsert(a, values[|values| - 1], b);
  }

  lemma WithoutLast(order: seq<nat>, j: nat, n: nat)
    requires Distinct(order) && j < |order| && order[j] == n && forall k :: 0 <= k < |order| ==> order[k] <= n
    ensures Distinct(Without(order, j))
    ensures forall k :: 0 <= k < |order| && k != j ==> order[k] < n
  {}

  /** Summing in another order gives the same sum. */
  lemma {:induction false} PermutedSum(values: seq<nat>, order: seq<nat>)
    requires Distinct(order) && |order| == |values| && forall j :: 0 <= j < |order| ==> order[j] < |values|
    ensures Sum(Picked(values, order)) == Sum(values)
  {
    if values != [] {
      var n := |values| - 1;
      DistinctBelow(order, |values|);
      assert n in order;
      var j :| 0 <= j < |order| && order[j] == n;
      WithoutLast(order, j, n);
      PickedWithout(values, order, j);
      PermutedSum(values[..n], Without(order, j));
    }
  }
}
