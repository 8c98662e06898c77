/** Per-stream receipts, the omit window, and the durations taken across streams. */
module Receipts {
  import opened Common

  /** One successful send or receive of `n` bytes, seen at `at`. */
  datatype Delivery = Delivery(n: nat, at: Time)

  /** The accounting fields that the client's and the server's receipt types share. */
  datatype Receipt = Receipt(
    bytes: nat,
    bytesOmit: nat,
    firstAt: Option<Time>,
    firstMeasuredAt: Option<Time>,
    lastAt: Option<Time>)

  const EMPTY: Receipt := Receipt(0, 0, None, None, None)

  /** What every send and receive loop does with one delivery. */
  function Account(r: Receipt, d: Delivery, omit: nat): Receipt {
    var first := if r.firstAt.None? then d.at else r.firstAt.value;
    var r1 := r.(firstAt := Some(first), lastAt := Some(d.at), bytes := r.bytes + d.n);
    if Since(d.at, first) < omit then
      r1.(bytesOmit := r.bytesOmit + d.n)
    else if r.firstMeasuredAt.None? then
      r1.(firstMeasuredAt := Some(d.at))
    else
      r1
  }

  function AccountAll(ds: seq<Delivery>, omit: nat): Receipt {
    if ds == [] then EMPTY else Account(AccountAll(ds[..|ds| - 1], omit), ds[|ds| - 1], omit)
  }

  predicate Monotone(ds: seq<Delivery>) {
    forall i, j :: 0 <= i <= j < |ds| ==> ds[i].at <= ds[j].at
  }

  function Sizes(ds: seq<Delivery>): (s: seq<nat>)
    ensures |s| == |ds|
  {
    seq(|ds|, i requires 0 <= i < |ds| => ds[i].n)
  }

  function Total(ds: seq<Delivery>): nat {
    Sum(Sizes(ds))
  }

  lemma TotalSnoc(ds: seq<Delivery>, d: Delivery)
    ensures Total(ds + [d]) == Total(ds) + d.n
  {
    assert Sizes(ds + [d]) == Sizes(ds) + [d.n];
    assert (Sizes(ds) + [d.n])[..|ds|] == Sizes(ds);
  }

  /** `k` splits `ds` into the deliveries within `omit` of the first one and those after. */
  predicate OmitCut(ds: seq<Delivery>, omit: nat, k: nat) {
    && k <= |ds|
    && (forall i :: 0 <= i < k ==> ds[i].at - ds[0].at < omit)
    && (forall i :: k <= i < |ds| ==> ds[i].at - ds[0].at >= omit)
  }

  /** The receipt of a run whose omit window ends before delivery `k`. */
  function CutReceipt(ds: seq<Delivery>, k: nat): Receipt
    requires k <= |ds|
  {
    if ds == [] then EMPTY
    else Receipt(
        Total(ds),
        Total(ds[..k]),
        Some(ds[0].at),
        if k < |ds| then Some(ds[k].at) else None,
        Some(ds[|ds| - 1].at))
  }

  /** One more delivery moves the cut to the end, or leaves it where it is. */
  lemma OmitStep(init: seq<Delivery>, d: Delivery, omit: nat, k: nat) returns (k': nat)
    requires OmitCut(init, omit, k) && forall i :: 0 <= i < |init| ==> init[i].at <= d.at
    ensures OmitCut(init + [d], omit, k')
    ensures Account(CutReceipt(init, k), d, omit) == CutReceipt(init + [d], k')
  {
    var ds := init + [d];
    TotalSnoc(init, d);
    if init == [] {
      k' := if 0 < omit then 1 else 0;
      assert ds[..1] == ds && Total(ds[..0]) == 0;
    } else if d.at - ds[0].at < omit {
      assert k == |init|;
      assert init[..k] == init;
      k' := |ds|;
      assert ds[..k'] == ds;
    } else {
      k' := k;
      assert ds[..k] == init[..k];
    }
  }

  /** The omitted bytes are exactly a prefix of the run: the deliveries earlier than `omit`
      after the first. The first later delivery starts the measured window. */
  lemma {:induction false} OmitWindow(ds: seq<Delivery>, omit: nat) returns (k: nat)
    requires Monotone(ds)
    ensures OmitCut(ds, omit, k)
    ensures AccountAll(ds, omit) == CutReceipt(ds, k)
  {
    if ds == [] {
      return 0;
    }
    var init, d := ds[..|ds| - 1], ds[|ds| - 1];
    assert ds == init + [d];
    k := OmitWindow(init, omit);
    assert forall i :: 0 <= i < |init| ==> init[i] == ds[i] && ds[i].at <= ds[|init|].at;
    k := OmitStep(init, d, omit, k);
  }

  /** What every receipt of a completed loop satisfies. */
  predicate Ordered(r: Receipt, omit: nat) {
    && (r.firstAt.Some? <==> r.lastAt.Some?)
    && (r.firstAt.Some? ==> r.firstAt.value <= r.lastAt.value)
    && (r.firstMeasuredAt.Some? ==>
          && r.firstAt.Some?
          && r.firstAt.value + omit <= r.firstMeasuredAt.value <= r.lastAt.value)
    && r.bytesOmit <= r.bytes
  }

  /** `bytes_measured`, which the source computes with a saturating subtraction. */
  function BytesMeasured(r: Receipt): nat {
    if r.bytes >= r.bytesOmit then r.bytes - r.bytesOmit else 0
  }

  lemma TotalSplit(ds: seq<Delivery>, k: nat)
    requires k <= |ds|
    ensures Total(ds) == Total(ds[..k]) + Total(ds[k..])
  {
    assert Sizes(ds) == Sizes(ds[..k]) + Sizes(ds[k..]);
    SumConcat(Sizes(ds[..k]), Sizes(ds[k..]));
  }

  /** The measured bytes are those of the deliveries from the omit cut on. */
  lemma MeasuredBytes(ds: seq<Delivery>, omit: nat) returns (k: nat)
    requires Monotone(ds)
    ensures OmitCut(ds, omit, k) && BytesMeasured(AccountAll(ds, omit)) == Total(ds[k..])
  {
    k := OmitWindow(ds, omit);
    TotalSplit(ds, k);
  }

  /** Timestamps are ordered, and bytes count as measured exactly when the measured window opened. */
  lemma ReceiptOrdered(ds: seq<Delivery>, omit: nat)
    requires Monotone(ds)
    requires forall i :: 0 <= i < |ds| ==> ds[i].n > 0
    ensures Ordered(AccountAll(ds, omit), omit)
    ensures AccountAll(ds, omit).firstAt.Some? <==> ds != []
    ensures BytesMeasured(AccountAll(ds, omit)) > 0 <==> AccountAll(ds, omit).firstMeasuredAt.Some?
  {}

  // ----- Durations across streams -----

  function FilterMap(rs: seq<Receipt>, f: Receipt -> Option<Time>): seq<Time> {
    if rs == [] then []
    else FilterMap(rs[..|rs| - 1], f) +
         (match f(rs[|rs| - 1]) case None => [] case Some(t) => [t])
  }

  function Min(ts: seq<Time>): Option<Time> {
    if ts == [] then None
    else match Min(ts[..|ts| - 1])
         case None => Some(ts[|ts| - 1])
         case Some(m) => Some(if ts[|ts| - 1] < m then ts[|ts| - 1] else m)
  }

  function Max(ts: seq<Time>): Option<Time> {
    if ts == [] then None
    else match Max(ts[..|ts| - 1])
         case None => Some(ts[|ts| - 1])
         case Some(m) => Some(if ts[|ts| - 1] >= m then ts[|ts| - 1] else m)
  }

  function First(r: Receipt): Option<Time> { r.firstAt }
  function FirstMeasured(r: Receipt): Option<Time> { r.firstMeasuredAt }
  function Last(r: Receipt): Option<Time> { r.lastAt }

  /** Earliest reading of `from` to latest reading of `Last`, or zero. */
  function Span(rs: seq<Receipt>, from: Receipt -> Option<Time>): nat {
    match (Min(FilterMap(rs, from)), Max(FilterMap(rs, Last)))
    case (Some(f), Some(l)) => if l >= f then l - f else 0
    case _ => 0
  }

  function MeasuredDuration(rs: seq<Receipt>): nat { Span(rs, First) }

  function MeasuredSteadyState(rs: seq<Receipt>): nat { Span(rs, FirstMeasured) }

  /** `client_session_duration`: the same span, but absent when no stream moved a byte. */
  function ClientSessionDuration(rs: seq<Receipt>): Option<nat> {
    match (Min(FilterMap(rs, First)), Max(FilterMap(rs, Last)))
    case (Some(f), Some(l)) => if l >= f then Some(l - f) else None
    case _ => None
  }

  ghost predicate Present(rs: seq<Receipt>, f: Receipt -> Option<Time>, i: int) {
    0 <= i < |rs| && f(rs[i]).Some?
  }

  lemma {:induction false} FilterMapMembers(rs: seq<Receipt>, f: Receipt -> Option<Time>, t: Time)
    ensures t in FilterMap(rs, f) <==> exists i :: Present(rs, f, i) && f(rs[i]).value == t
  {
    if rs != [] {
      var init, r := rs[..|rs| - 1], rs[|rs| - 1];
      FilterMapMembers(init, f, t);
      if t in FilterMap(init, f) {
        var i :| Present(init, f, i) && f(init[i]).value == t;
        assert Present(rs, f, i);
      } else if t in FilterMap(rs, f) {
        assert Present(rs, f, |rs| - 1);
      }
      if i :| Present(rs, f, i) && f(rs[i]).value == t {
        if i < |init| {
          assert Present(init, f, i);
        }
      }
    }
  }

  lemma {:induction false} MinIsLeast(ts: seq<Time>)
    ensures Min(ts).None? <==> ts == []
    ensures Min(ts).Some? ==> Min(ts).value in ts && forall t :: t in ts ==> Min(ts).value <= t
  {
    if ts != [] {
      MinIsLeast(ts[..|ts| - 1]);
      assert ts == ts[..|ts| - 1] + [ts[|ts| - 1]];
    }
  }

  lemma {:induction false} MaxIsGreatest(ts: seq<Time>)
    ensures Max(ts).None? <==> ts == []
    ensures Max(ts).Some? ==> Max(ts).value in ts && forall t :: t in ts ==> t <= Max(ts).value
  {
    if ts != [] {
      MaxIsGreatest(ts[..|ts| - 1]);
      assert ts == ts[..|ts| - 1] + [ts[|ts| - 1]];
    }
  }

  /** The index of the stream with the earliest reading of `f`. */
  lemma Earliest(rs: seq<Receipt>, f: Receipt -> Option<Time>) returns (a: nat)
    requires exists i :: Present(rs, f, i)
    ensures Present(rs, f, a) && Min(FilterMap(rs, f)) == f(rs[a])
    ensures forall i :: Present(rs, f, i) ==> f(rs[a]).value <= f(rs[i]).value
  {
    var ts := FilterMap(rs, f);
    MinIsLeast(ts);
    forall i | Present(rs, f, i) ensures f(rs[i]).value in ts {
      FilterMapMembers(rs, f, f(rs[i]).value);
    }
    FilterMapMembers(rs, f, Min(ts).value);
    a :| Present(rs, f, a) && f(rs[a]).value == Min(ts).value;
  }

  lemma Latest(rs: seq<Receipt>, f: Receipt -> Option<Time>) returns (b: nat)
    requires exists i :: Present(rs, f, i)
    ensures Present(rs, f, b) && Max(FilterMap(rs, f)) == f(rs[b])
    ensures forall i :: Present(rs, f, i) ==> f(rs[i]).value <= f(rs[b]).value
  {
    var ts := FilterMap(rs, f);
    MaxIsGreatest(ts);
    forall i | Present(rs, f, i) ensures f(rs[i]).value in ts {
      FilterMapMembers(rs, f, f(rs[i]).value);
    }
    FilterMapMembers(rs, f, Max(ts).value);
    b :| Present(rs, f, b) && f(rs[b]).value == Max(ts).value;
  }

  /** A span runs from the earliest reading of `f` to the latest of `Last`. */
  lemma SpanEnds(rs: seq<Receipt>, f: Receipt -> Option<Time>) returns (a: nat, b: nat)
    requires exists i :: Present(rs, f, i)
    requires forall i :: Present(rs, f, i) ==> Present(rs, Last, i) && f(rs[i]).value <= Last(rs[i]).value
    ensures Present(rs, f, a) && Present(rs, Last, b)
    ensures Span(rs, f) == Last(rs[b]).value - f(rs[a]).value
    ensures forall i :: Present(rs, f, i) ==> f(rs[a]).value <= f(rs[i]).value
    ensures forall i :: Present(rs, Last, i) ==> Last(rs[i]).value <= Last(rs[b]).value
  {
    a := Earliest(rs, f);
    assert Present(rs, Last, a);
    b := Latest(rs, Last);
  }

  lemma NoneGivesZero(rs: seq<Receipt>, f: Receipt -> Option<Time>)
    requires forall i :: 0 <= i < |rs| ==> !Present(rs, f, i)
    ensures Min(FilterMap(rs, f)).None?
    ensures Span(rs, f) == 0
  {
    var ts := FilterMap(rs, f);
    MinIsLeast(ts);
    if ts != [] {
      FilterMapMembers(rs, f, ts[0]);
    }
  }

  /** Without a single delivery there is no duration, and the client has none to report. */
  lemma NothingDelivered(rs: seq<Receipt>)
    requires forall i :: 0 <= i < |rs| ==> !Present(rs, First, i)
    ensures MeasuredDuration(rs) == 0 && ClientSessionDuration(rs) == None
  {
    NoneGivesZero(rs, First);
  }

  /** The receipts of a set of streams that share one omit window. */
  function StreamReceipts(streams: seq<seq<Delivery>>, omit: nat): (rs: seq<Receipt>)
    ensures |rs| == |streams|
  {
    seq(|streams|, i requires 0 <= i < |streams| => AccountAll(streams[i], omit))
  }

  ghost predicate RealStreams(streams: seq<seq<Delivery>>) {
    forall i :: 0 <= i < |streams| ==>
                  Monotone(streams[i]) && forall j :: 0 <= j < |streams[i]| ==> streams[i][j].n > 0
  }

  /** `measured_duration` is the distance from the earliest delivery of any stream to the
      latest delivery of any stream, and it is zero when no stream delivered. */
  lemma DurationSpansAllDeliveries(streams: seq<seq<Delivery>>, omit: nat) returns (a: nat, b: nat)
    requires RealStreams(streams)
    requires exists i :: 0 <= i < |streams| && streams[i] != []
    ensures a < |streams| && streams[a] != [] && b < |streams| && streams[b] != []
    ensures MeasuredDuration(StreamReceipts(streams, omit)) == streams[b][|streams[b]| - 1].at - streams[a][0].at
    ensures ClientSessionDuration(StreamReceipts(streams, omit)) == Some(MeasuredDuration(StreamReceipts(streams, omit)))
    ensures forall i, j :: 0 <= i < |streams| && 0 <= j < |streams[i]| ==>
                             streams[a][0].at <= streams[i][j].at <= streams[b][|streams[b]| - 1].at
  {
    var rs := StreamReceipts(streams, omit);
    forall i | 0 <= i < |streams|
      ensures streams[i] != [] ==> Present(rs, First, i) && Present(rs, Last, i)
      ensures streams[i] != [] ==> First(rs[i]).value == streams[i][0].at
      ensures streams[i] != [] ==> Last(rs[i]).value == streams[i][|streams[i]| - 1].at
      ensures streams[i] == [] ==> !Present(rs, First, i) && !Present(rs, Last, i)
    {
      var _ := OmitWindow(streams[i], omit);
    }
    var w :| 0 <= w < |streams| && streams[w] != [];
    assert Present(rs, First, w) && Present(rs, Last, w);
    a := Earliest(rs, First);
    b := Latest(rs, Last);
    assert First(rs[a]).value <= First(rs[w]).value <= Last(rs[w]).value <= Last(rs[b]).value;
    forall i, j | 0 <= i < |streams| && 0 <= j < |streams[i]|
      ensures streams[a][0].at <= streams[i][j].at <= streams[b][|streams[b]| - 1].at
    {
      assert Present(rs, First, i) && Present(rs, Last, i);
      assert First(rs[a]).value <= streams[i][0].at <= streams[i][j].at;
      assert streams[i][j].at <= streams[i][|streams[i]| - 1].at <= Last(rs[b]).value;
    }
  }

  lemma OrderedSteadyState(rs: seq<Receipt>, omit: nat)
    requires forall i :: 0 <= i < |rs| ==> Ordered(rs[i], omit)
    requires exists i :: Present(rs, FirstMeasured, i)
    ensures MeasuredDuration(rs) >= MeasuredSteadyState(rs) + omit
  {
    assert forall i :: Present(rs, FirstMeasured, i) ==> Ordered(rs[i], omit);
    var m, _ := SpanEnds(rs, FirstMeasured);
    assert Present(rs, First, m) && Ordered(rs[m], omit);
    var _, _ := SpanEnds(rs, First);
  }

  /** Delivery `j` of a stream comes at or past the end of the stream's omit window. */
  predicate PastOmit(ds: seq<Delivery>, omit: nat, j: int) {
    0 <= j < |ds| && ds[j].at - ds[0].at >= omit
  }

  /** A stream's receipt gives the time of its earliest delivery past the omit window, at index `k`, and of
      its last delivery; or no measured time, if no delivery is past the window. */
  ghost predicate WindowOf(ds: seq<Delivery>, omit: nat, r: Receipt, k: nat) {
    && (if PastOmit(ds, omit, k) then r.firstMeasuredAt == Some(ds[k].at) else r.firstMeasuredAt == None)
    && (forall j :: PastOmit(ds, omit, j) ==> PastOmit(ds, omit, k) && ds[k].at <= ds[j].at)
    && r.lastAt == if ds == [] then None else Some(ds[|ds| - 1].at)
  }

  lemma StreamWindow(ds: seq<Delivery>, omit: nat) returns (k: nat)
    requires Monotone(ds)
    ensures WindowOf(ds, omit, AccountAll(ds, omit), k)
    ensures PastOmit(ds, omit, k) ==> ds[k].at <= ds[|ds| - 1].at
  {
    k := OmitWindow(ds, omit);
  }

  ghost predicate SomePastOmit(streams: seq<seq<Delivery>>, omit: nat, s: int) {
    0 <= s < |streams| && exists j :: PastOmit(streams[s], omit, j)
  }

  /** The steady state runs from the earliest delivery past its stream's omit window to the latest
      delivery of any stream; it is zero when no delivery is past its window. */
  lemma SteadyStateSpans(streams: seq<seq<Delivery>>, omit: nat) returns (a: nat, i: nat, b: nat)
    requires RealStreams(streams) && exists s :: SomePastOmit(streams, omit, s)
    ensures a < |streams| && PastOmit(streams[a], omit, i) && b < |streams| && streams[b] != []
    ensures forall s, j :: 0 <= s < |streams| && PastOmit(streams[s], omit, j) ==> streams[a][i].at <= streams[s][j].at
    ensures forall s, j :: 0 <= s < |streams| && 0 <= j < |streams[s]| ==>
                             streams[s][j].at <= streams[b][|streams[b]| - 1].at
    ensures MeasuredSteadyState(StreamReceipts(streams, omit)) == streams[b][|streams[b]| - 1].at - streams[a][i].at
  {
    var rs := StreamReceipts(streams, omit);
    forall s | 0 <= s < |streams|
      ensures Present(rs, FirstMeasured, s) <==> SomePastOmit(streams, omit, s)
      ensures Present(rs, FirstMeasured, s) ==> FirstMeasured(rs[s]).value <= Last(rs[s]).value && Present(rs, Last, s)
      ensures Present(rs, Last, s) <==> streams[s] != []
      ensures streams[s] != [] ==> Last(rs[s]).value == streams[s][|streams[s]| - 1].at
    {
      var k := StreamWindow(streams[s], omit);
      assert PastOmit(streams[s], omit, k) ==> SomePastOmit(streams, omit, s);
    }
    var w :| SomePastOmit(streams, omit, w);
    assert Present(rs, FirstMeasured, w);
    a, b := SpanEnds(rs, FirstMeasured);
    i := StreamWindow(streams[a], omit);
    forall s, j | 0 <= s < |streams| && PastOmit(streams[s], omit, j) ensures streams[a][i].at <= streams[s][j].at {
      var k := StreamWindow(streams[s], omit);
      assert Present(rs, FirstMeasured, s);
    }
    forall s, j | 0 <= s < |streams| && 0 <= j < |streams[s]|
      ensures streams[s][j].at <= streams[b][|streams[b]| - 1].at
    {
      assert Present(rs, Last, s);
    }
  }

  lemma NoSteadyState(streams: seq<seq<Delivery>>, omit: nat)
    requires RealStreams(streams) && forall s :: !SomePastOmit(streams, omit, s)
    ensures MeasuredSteadyState(StreamReceipts(streams, omit)) == 0
  {
    var rs := StreamReceipts(streams, omit);
    forall s | 0 <= s < |rs| ensures !Present(rs, FirstMeasured, s) {
      var k := StreamWindow(streams[s], omit);
      assert !SomePastOmit(streams, omit, s);
    }
    NoneGivesZero(rs, FirstMeasured);
  }

  /** When any stream measured anything, the whole test lasted at least the omit window
      longer than its steady state; otherwise the steady state is zero. */
  lemma SteadyStateExcludesOmit(streams: seq<seq<Delivery>>, omit: nat)
    requires RealStreams(streams)
    ensures (exists i :: Present(StreamReceipts(streams, omit), FirstMeasured, i)) ==>
              MeasuredDuration(StreamReceipts(streams, omit)) >=
              MeasuredSteadyState(StreamReceipts(streams, omit)) + omit
    ensures (forall i :: !Present(StreamReceipts(streams, omit), FirstMeasured, i)) ==>
              MeasuredSteadyState(StreamReceipts(streams, omit)) == 0
  {
    var rs := StreamReceipts(streams, omit);
    forall i | 0 <= i < |rs| ensures Ordered(rs[i], omit) {
      ReceiptOrdered(streams[i], omit);
    }
    if exists i :: Present(rs, FirstMeasured, i) {
      OrderedSteadyState(rs, omit);
    } else {
      NoneGivesZero(rs, FirstMeasured);
    }
  }
}
