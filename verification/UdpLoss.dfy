/** The receiver's loss and reordering counters, against the set of sequence numbers that arrived. */
module UdpLoss {
  import opened Common

  /** A sequence number the receiver counts: a non-negative i64. */
  predicate IsSeq(s: int) { 0 <= s <= I64_MAX }

  datatype Counters = Counters(maxSeq: int, lost: nat, ooo: nat)

  const START: Counters := Counters(-1, 0, 0)

  /** An i64 operation that wraps around. */
  function WrapI64(x: int): int {
    AsI64(AsU64(x))
  }

  /** `(hdr.seq - max_seq - 1) as u64` in two's complement. */
  function Gap(s: int, maxSeq: int): nat {
    AsU64(WrapI64(WrapI64(s - maxSeq) - 1))
  }

  function Count(c: Counters, s: int): Counters {
    if s <= c.maxSeq then c.(ooo := c.ooo + 1)
    else if s > c.maxSeq + 1 then Counters(s, SaturatingAdd(c.lost, Gap(s, c.maxSeq)), c.ooo)
    else c.(maxSeq := s)
  }

  function CountAll(seqs: seq<int>): Counters {
    if seqs == [] then START else Count(CountAll(seqs[..|seqs| - 1]), seqs[|seqs| - 1])
  }

  /** The two's complement gap is the true gap for every i64. Its first subtraction leaves the
      i64 range, which a build with overflow checks reports, in exactly one case: the largest
      sequence number arriving before any other. */
  lemma GapIsExact(s: int, maxSeq: int)
    requires IsSeq(s) && -1 <= maxSeq < s
    ensures Gap(s, maxSeq) == s - maxSeq - 1
    ensures s - maxSeq > I64_MAX <==> s == I64_MAX && maxSeq == -1
  {
    var wrapped := WrapI64(s - maxSeq);
    assert wrapped == if s - maxSeq > I64_MAX then s - maxSeq - U64_MAX - 1 else s - maxSeq;
    assert WrapI64(wrapped - 1) == s - maxSeq - 1;
  }

  /** Every packet is in order, late or repeated; every skipped number was counted as lost.
      Hence the saturating addition never saturates. */
  lemma {:induction false} CounterIdentity(seqs: seq<int>)
    requires forall i :: 0 <= i < |seqs| ==> IsSeq(seqs[i])
    ensures var c := CountAll(seqs);
            && |seqs| - c.ooo + c.lost == c.maxSeq + 1
            && c.ooo <= |seqs|
            && -1 <= c.maxSeq <= I64_MAX
            && c.lost < U64_MAX
  {
    if seqs != [] {
      var init, s := seqs[..|seqs| - 1], seqs[|seqs| - 1];
      CounterIdentity(init);
      if s > CountAll(init).maxSeq {
        GapIsExact(s, CountAll(init).maxSeq);
      }
    }
  }

  function Received(seqs: seq<int>): set<int> {
    set i | 0 <= i < |seqs| :: seqs[i]
  }

  /** `maxSeq` is the largest number that arrived, and the packets that are not out of order
      all carried different numbers. */
  lemma {:induction false} InOrderPacketsAreDistinct(seqs: seq<int>)
    requires forall i :: 0 <= i < |seqs| ==> IsSeq(seqs[i])
    ensures var c := CountAll(seqs);
            && (forall s :: s in Received(seqs) ==> 0 <= s <= c.maxSeq)
            && (seqs != [] ==> c.maxSeq in Received(seqs))
            && |Received(seqs)| + c.ooo >= |seqs|
            && |Received(seqs)| <= |seqs|
  {
    if seqs != [] {
      var init, s := seqs[..|seqs| - 1], seqs[|seqs| - 1];
      InOrderPacketsAreDistinct(init);
      ReceivedSnoc(seqs);
    }
  }

  lemma ReceivedSnoc(seqs: seq<int>)
    requires seqs != []
    ensures Received(seqs) == Received(seqs[..|seqs| - 1]) + {seqs[|seqs| - 1]}
  {
    var init := seqs[..|seqs| - 1];
    assert forall i :: 0 <= i < |init| ==> init[i] == seqs[i];
    forall x | x in Received(init) ensures x in Received(seqs) {
      var i :| 0 <= i < |init| && init[i] == x;
      assert seqs[i] == x;
    }
    forall x | x in Received(seqs) ensures x in Received(init) || x == seqs[|seqs| - 1] {
      var i :| 0 <= i < |seqs| && seqs[i] == x;
      assert i < |init| ==> init[i] == x;
    }
  }

  /** The numbers `0..m`. */
  function UpTo(m: int): (s: set<int>)
    requires m >= -1
    ensures forall x :: x in s <==> 0 <= x <= m
    ensures |s| == m + 1
    decreases m + 1
  {
    if m == -1 then {} else UpTo(m - 1) + {m}
  }

  /** The numbers at or below the largest one received that never arrived. */
  function Missing(seqs: seq<int>): set<int>
    requires CountAll(seqs).maxSeq >= -1
  {
    UpTo(CountAll(seqs).maxSeq) - Received(seqs)
  }

  /** How many are truly missing, in terms of the counters: late arrivals were counted as lost
      and as out of order, repeats only as out of order. So `lost` is never too low, and it is
      exact if and only if every out-of-order packet is a repeat. */
  lemma TrueLoss(seqs: seq<int>)
    requires forall i :: 0 <= i < |seqs| ==> IsSeq(seqs[i])
    ensures var c := CountAll(seqs);
            && c.maxSeq >= -1
            && |Missing(seqs)| == c.lost - c.ooo + (|seqs| - |Received(seqs)|)
            && |Missing(seqs)| <= c.lost
            && (|Missing(seqs)| == c.lost <==> c.ooo == |seqs| - |Received(seqs)|)
  {
    CounterIdentity(seqs);
    InOrderPacketsAreDistinct(seqs);
    var m := CountAll(seqs).maxSeq;
    assert Received(seqs) <= UpTo(m);
    assert UpTo(m) == Missing(seqs) + Received(seqs);
  }

  /** The counters stay at zero exactly when the packets arrived in order from zero without a hole. */
  lemma {:induction false} CleanIffInOrder(seqs: seq<int>)
    requires forall i :: 0 <= i < |seqs| ==> IsSeq(seqs[i])
    ensures CountAll(seqs).lost == 0 && CountAll(seqs).ooo == 0 <==> forall i :: 0 <= i < |seqs| ==> seqs[i] == i
    ensures CountAll(seqs).lost == 0 && CountAll(seqs).ooo == 0 ==> CountAll(seqs).maxSeq == |seqs| - 1
  {
    CounterIdentity(seqs);
    if seqs != [] {
      var init, s := seqs[..|seqs| - 1], seqs[|seqs| - 1];
      CleanIffInOrder(init);
      CounterIdentity(init);
      var c := CountAll(init);
      if s > c.maxSeq {
        GapIsExact(s, c.maxSeq);
      }
      InOrderSnoc(seqs);
    }
  }

  lemma InOrderSnoc(seqs: seq<int>)
    requires seqs != []
    ensures var init := seqs[..|seqs| - 1];
            (forall i :: 0 <= i < |seqs| ==> seqs[i] == i) <==>
            (forall i :: 0 <= i < |init| ==> init[i] == i) && seqs[|seqs| - 1] == |init|
  {
    var init := seqs[..|seqs| - 1];
    assert forall i :: 0 <= i < |init| ==> init[i] == seqs[i];
  }
}
