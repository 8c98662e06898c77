/** A UDP test from the sender's loop, over a network that drops, reorders and repeats datagrams,
    to the receipt the server reports for that stream. */
module UdpEndToEnd {
  import opened BigEndian
  import opened Common
  import opened Wire
  import opened Receipts
  import opened UdpHeaders
  import opened UdpLoss
  import opened UdpSession
  import opened Streams
  import opened UdpSender

  // ----- What one stream's state means -----

  /** The arrivals that carry data: not too short, and not the sentinel. */
  function DataOf(arrivals: seq<Arrival>): (data: seq<Arrival>)
    ensures forall i :: 0 <= i < |data| ==> IsData(data[i].payload)
  {
    if arrivals == [] then []
    else
      var a := arrivals[|arrivals| - 1];
      DataOf(arrivals[..|arrivals| - 1]) + if IsData(a.payload) then [a] else []
  }

  predicate AllData(data: seq<Arrival>) {
    forall i :: 0 <= i < |data| ==> IsData(data[i].payload)
  }

  function HeaderOf(a: Arrival): UdpHeader
    requires IsData(a.payload)
  {
    DecodeHeader(a.payload).value
  }

  function SeqsOf(data: seq<Arrival>): (s: seq<int>)
    requires AllData(data)
    ensures |s| == |data|
  {
    seq(|data|, i requires 0 <= i < |data| => HeaderOf(data[i]).seqNo)
  }

  function DeliveriesOf(data: seq<Arrival>): (ds: seq<Delivery>)
    ensures |ds| == |data|
  {
    seq(|data|, i requires 0 <= i < |data| => Delivery(|data[i].payload|, data[i].at))
  }

  function TransitsOf(data: seq<Arrival>): (ts: seq<real>)
    requires AllData(data)
    ensures |ts| == |data|
  {
    seq(|data|, i requires 0 <= i < |data| => Transit(data[0].at, data[i].at, HeaderOf(data[i])))
  }

  ghost predicate SentinelAmong(arrivals: seq<Arrival>) {
    exists i :: 0 <= i < |arrivals| && |arrivals[i].payload| >= UDP_HEADER_LEN && !IsData(arrivals[i].payload)
  }

  ghost predicate Describes(st: StreamState, arrivals: seq<Arrival>, omit: nat) {
    st == StateOf(DataOf(arrivals), omit, SentinelAmong(arrivals))
  }

  lemma DataSnoc(data: seq<Arrival>, a: Arrival)
    requires AllData(data) && IsData(a.payload)
    ensures SeqsOf(data + [a]) == SeqsOf(data) + [HeaderOf(a).seqNo]
    ensures DeliveriesOf(data + [a]) == DeliveriesOf(data) + [Delivery(|a.payload|, a.at)]
    ensures TransitsOf(data + [a]) ==
            TransitsOf(data) + [Transit(if data == [] then a.at else data[0].at, a.at, HeaderOf(a))]
  {}

  lemma {:induction false} FirstIsFirst(ds: seq<Delivery>, omit: nat)
    ensures AccountAll(ds, omit).firstAt == if ds == [] then None else Some(ds[0].at)
  {
    if ds != [] {
      FirstIsFirst(ds[..|ds| - 1], omit);
    }
  }

  /** The state of a stream that has seen these data packets. */
  function StateOf(data: seq<Arrival>, omit: nat, sawSentinel: bool): StreamState
    requires AllData(data)
  {
    StreamState(
      AccountAll(DeliveriesOf(data), omit), |data|, CountAll(SeqsOf(data)), Jitter.Estimated(TransitsOf(data)),
      sawSentinel)
  }

  lemma AbsorbData(data: seq<Arrival>, a: Arrival, omit: nat, sawSentinel: bool)
    requires AllData(data) && IsData(a.payload)
    ensures Absorb(StateOf(data, omit, sawSentinel), a, omit) == StateOf(data + [a], omit, sawSentinel)
  {
    DataSnoc(data, a);
    FirstIsFirst(DeliveriesOf(data), omit);
    assert DeliveriesOf(data + [a])[..|data|] == DeliveriesOf(data);
    assert SeqsOf(data + [a])[..|data|] == SeqsOf(data);
    assert TransitsOf(data + [a])[..|data|] == TransitsOf(data);
  }

  /** The receiver's running state is the closed form over the data packets that arrived. */
  lemma {:induction false} FoldDescribes(arrivals: seq<Arrival>, omit: nat)
    ensures Describes(FoldStream(arrivals, omit), arrivals, omit)
  {
    if arrivals != [] {
      var init, a := arrivals[..|arrivals| - 1], arrivals[|arrivals| - 1];
      FoldDescribes(init, omit);
      assert arrivals == init + [a];
      DescribesNext(FoldStream(init, omit), init, a, omit);
    }
  }

  lemma DescribesNext(st: StreamState, init: seq<Arrival>, a: Arrival, omit: nat)
    requires Describes(st, init, omit)
    ensures Describes(Absorb(st, a, omit), init + [a], omit)
  {
    SentinelSnoc(init, a);
    DataOfSnoc(init, a);
    if IsData(a.payload) {
      AbsorbData(DataOf(init), a, omit, SentinelAmong(init));
    }
  }

  lemma DataOfSnoc(init: seq<Arrival>, a: Arrival)
    ensures DataOf(init + [a]) == if IsData(a.payload) then DataOf(init) + [a] else DataOf(init)
  {
    assert (init + [a])[..|init|] == init;
  }

  lemma SentinelSnoc(init: seq<Arrival>, a: Arrival)
    ensures SentinelAmong(init + [a]) <==>
            SentinelAmong(init) || (|a.payload| >= UDP_HEADER_LEN && !IsData(a.payload))
  {
    var all := init + [a];
    if SentinelAmong(init) {
      var i :| 0 <= i < |init| && |init[i].payload| >= UDP_HEADER_LEN && !IsData(init[i].payload);
      assert all[i] == init[i];
    }
    if |a.payload| >= UDP_HEADER_LEN && !IsData(a.payload) {
      assert all[|init|] == a;
    }
    if SentinelAmong(all) {
      var i :| 0 <= i < |all| && |all[i].payload| >= UDP_HEADER_LEN && !IsData(all[i].payload);
      assert i < |init| ==> init[i] == all[i];
    }
  }

  lemma SeqsInRange(data: seq<Arrival>)
    requires AllData(data)
    ensures forall i :: 0 <= i < |data| ==> IsSeq(SeqsOf(data)[i])
  {}

  /** The same packet, stamped by a clock that is `offset` milliseconds behind. */
  predicate Shifted(a: Arrival, b: Arrival, offset: real)
    requires IsData(a.payload) && IsData(b.payload)
  {
    && a.at == b.at && |a.payload| == |b.payload|
    && HeaderOf(a).seqNo == HeaderOf(b).seqNo
    && SendMs(HeaderOf(b)) == SendMs(HeaderOf(a)) - offset
  }

  /** Shifting every data packet's stamp by one constant changes nothing in what the server reports,
      whatever else arrives. */
  lemma ClockOffsetInvisible(a: seq<Arrival>, b: seq<Arrival>, offset: real, omit: nat)
    requires |DataOf(a)| == |DataOf(b)|
    requires forall i :: 0 <= i < |DataOf(a)| ==> Shifted(DataOf(a)[i], DataOf(b)[i], offset)
    ensures Reported(FoldStream(a, omit)) == Reported(FoldStream(b, omit))
  {
    ReportOf(a, omit);
    ReportOf(b, omit);
    ShiftedFacts(DataOf(a), DataOf(b), offset);
    Jitter.JitterIgnoresClockOffset(TransitsOf(DataOf(a)), TransitsOf(DataOf(b)), offset);
  }

  lemma ReportOf(arrivals: seq<Arrival>, omit: nat)
    ensures var data := DataOf(arrivals);
            Reported(FoldStream(arrivals, omit)) ==
            UdpReceipt(AccountAll(DeliveriesOf(data), omit), |data|,
                       CountAll(SeqsOf(data)).lost, CountAll(SeqsOf(data)).ooo,
                       Jitter.Estimated(TransitsOf(data)).jitter)
  {
    FoldDescribes(arrivals, omit);
  }

  lemma ShiftedFacts(a: seq<Arrival>, b: seq<Arrival>, offset: real)
    requires AllData(a) && AllData(b) && |a| == |b|
    requires forall i :: 0 <= i < |a| ==> Shifted(a[i], b[i], offset)
    ensures DeliveriesOf(a) == DeliveriesOf(b) && SeqsOf(a) == SeqsOf(b)
    ensures forall i :: 0 <= i < |a| ==> TransitsOf(b)[i] == TransitsOf(a)[i] + offset
  {}

  lemma {:induction false} DataOfData(data: seq<Arrival>)
    requires AllData(data)
    ensures DataOf(data) == data
  {
    if data != [] {
      DataOfData(data[..|data| - 1]);
      assert data == data[..|data| - 1] + [data[|data| - 1]];
    }
  }

  // ----- The jitter reported -----

  /** How much farther apart two packets arrived than they were stamped, in milliseconds. */
  function Spread(a: Arrival, b: Arrival): real
    requires IsData(a.payload) && IsData(b.payload)
  {
    var sent, next := HeaderOf(a), HeaderOf(b);
    (b.at - a.at) as real / 1_000_000.0
    - (1000.0 * (next.tvSec - sent.tvSec) as real + (next.tvUsec - sent.tvUsec) as real / 1000.0)
  }

  function Spreads(data: seq<Arrival>): (xs: seq<real>)
    requires AllData(data)
    ensures |xs| == if data == [] then 0 else |data| - 1
  {
    if data == [] then [] else seq(|data| - 1, i requires 0 <= i < |data| - 1 => Spread(data[i], data[i + 1]))
  }

  /** The estimator of section 6.3.1 of RFC 1889: each packet moves it a sixteenth of the way. */
  function Smoothed(xs: seq<real>): real {
    if xs == [] then 0.0
    else
      var j, x := Smoothed(xs[..|xs| - 1]), xs[|xs| - 1];
      j + ((if x < 0.0 then -x else x) - j) / 16.0
  }

  predicate InTimeOrder(data: seq<Arrival>) {
    forall i, j :: 0 <= i <= j < |data| ==> data[i].at <= data[j].at
  }

  /** Differences of transit times are spreads: the reference time cancels. */
  lemma TransitDifference(first: Arrival, a: Arrival, b: Arrival)
    requires IsData(a.payload) && IsData(b.payload) && first.at <= a.at <= b.at
    ensures Transit(first.at, b.at, HeaderOf(b)) - Transit(first.at, a.at, HeaderOf(a)) == Spread(a, b)
  {}

  /** `xs` are the differences of `ts`. */
  predicate Differences(ts: seq<real>, xs: seq<real>) {
    && |xs| == (if ts == [] then 0 else |ts| - 1)
    && forall i {:trigger DifferenceAt(ts, xs, i)} :: 0 <= i < |xs| ==> DifferenceAt(ts, xs, i)
  }

  predicate DifferenceAt(ts: seq<real>, xs: seq<real>, i: nat)
    requires i < |xs| && i + 1 < |ts|
  {
    ts[i + 1] - ts[i] == xs[i]
  }

  lemma {:induction false} EstimatesAgree(ts: seq<real>, xs: seq<real>)
    requires Differences(ts, xs)
    ensures Jitter.Estimated(ts).jitter == Smoothed(xs)
  {
    if |ts| > 1 {
      var ts', xs' := ts[..|ts| - 1], xs[..|xs| - 1];
      forall i | 0 <= i < |xs'| ensures DifferenceAt(ts', xs', i) {
        assert DifferenceAt(ts, xs, i);
      }
      EstimatesAgree(ts', xs');
      Jitter.EstimatedLast(ts');
      assert DifferenceAt(ts, xs, |xs| - 1);
    } else if |ts| == 1 {
      assert ts[..0] == [];
    }
  }

  lemma EstimateIsSmoothed(data: seq<Arrival>)
    requires AllData(data) && InTimeOrder(data)
    ensures Jitter.Estimated(TransitsOf(data)).jitter == Smoothed(Spreads(data))
  {
    forall i | 0 <= i < |data| - 1 ensures DifferenceAt(TransitsOf(data), Spreads(data), i) {
      TransitDifference(data[0], data[i], data[i + 1]);
    }
    EstimatesAgree(TransitsOf(data), Spreads(data));
  }

  /** The jitter the server reports is the estimate over the spreads of the data packets, taken from their
      arrival times and their stamps. */
  lemma ReportedJitter(arrivals: seq<Arrival>, omit: nat)
    requires InTimeOrder(DataOf(arrivals))
    ensures Reported(FoldStream(arrivals, omit)).jitterMs == Smoothed(Spreads(DataOf(arrivals)))
  {
    ReportOf(arrivals, omit);
    EstimateIsSmoothed(DataOf(arrivals));
  }

  lemma {:induction false} SmoothedZero(xs: seq<real>)
    requires forall i :: 0 <= i < |xs| ==> xs[i] == 0.0
    ensures Smoothed(xs) == 0.0
  {
    if xs != [] {
      SmoothedZero(xs[..|xs| - 1]);
    }
  }

  /** Packets that arrive spaced exactly as they were stamped have no jitter. */
  lemma SteadyStreamHasNoJitter(arrivals: seq<Arrival>, omit: nat)
    requires InTimeOrder(DataOf(arrivals))
    requires forall i :: 0 <= i < |DataOf(arrivals)| - 1 ==> Spread(DataOf(arrivals)[i], DataOf(arrivals)[i + 1]) == 0.0
    ensures Reported(FoldStream(arrivals, omit)).jitterMs == 0.0
  {
    ReportedJitter(arrivals, omit);
    SmoothedZero(Spreads(DataOf(arrivals)));
  }

  /** Two packets are reported with a sixteenth of the size of their spread. */
  lemma JitterOfTwo(arrivals: seq<Arrival>, omit: nat)
    requires |DataOf(arrivals)| == 2 && DataOf(arrivals)[0].at <= DataOf(arrivals)[1].at
    ensures var x := Spread(DataOf(arrivals)[0], DataOf(arrivals)[1]);
            Reported(FoldStream(arrivals, omit)).jitterMs == (if x < 0.0 then -x else x) / 16.0
  {
    ReportedJitter(arrivals, omit);
    var xs := Spreads(DataOf(arrivals));
    assert xs == [xs[0]] && xs[..0] == [];
  }

  predicate NoLater(data: seq<Arrival>, t: Time) {
    forall i :: 0 <= i < |data| ==> data[i].at <= t
  }

  lemma InOrderSnoc(data: seq<Arrival>, a: Arrival)
    requires InTimeOrder(data) && NoLater(data, a.at)
    ensures InTimeOrder(data + [a]) && NoLater(data + [a], a.at)
  {}

  /** The data packets of arrivals in time order are in time order too, and no later. */
  lemma {:induction false} DataInOrder(arrivals: seq<Arrival>, t: Time)
    requires InTimeOrder(arrivals) && NoLater(arrivals, t)
    ensures InTimeOrder(DataOf(arrivals)) && NoLater(DataOf(arrivals), t)
  {
    if arrivals != [] {
      var init, a := arrivals[..|arrivals| - 1], arrivals[|arrivals| - 1];
      DataInOrder(init, a.at);
      InOrderSnoc(DataOf(init), a);
    }
  }

  /** What comes from one source comes in time order. */
  lemma {:induction false} SourceInOrder(env: nat -> Tick, n: nat, src: SocketAddr)
    requires RealClock(env)
    ensures InTimeOrder(FromSource(env, n, src)) && NoLater(FromSource(env, n, src), env(n).checkedAt)
  {
    if n > 0 {
      SourceInOrder(env, n - 1, src);
      assert Advances(env, n - 1) && Advances(env, n);
    }
  }

  /** So the receiver's report for a stream has the jitter of that stream's own packets. */
  lemma StreamJitter(env: nat -> Tick, order: seq<SocketAddr>, omit: nat, n: nat, i: nat)
    requires RealClock(env) && Distinct(order) && i < |order|
    ensures Demuxed(env, order, omit, n, i).jitterMs == Smoothed(Spreads(DataOf(FromSource(env, n, order[i]))))
  {
    assert order[i] !in order[..i];
    SourceInOrder(env, n, order[i]);
    DataInOrder(FromSource(env, n, order[i]), env(n).checkedAt);
    ReportedJitter(FromSource(env, n, order[i]), omit);
  }

  // ----- Over the network -----

  /** What one sender hands to the network: the cookie that registers it, its packets of `len` bytes,
      and its sentinel. */
  datatype Sender = Sender(cookie: seq<Byte>, packets: seq<seq<Byte>>, fin: seq<Byte>, len: nat)

  ghost predicate ValidSender(w: Sender) {
    && IsCookie(w.cookie)
    && (forall i {:trigger IsPacket(w.packets[i], w.len, i)} :: 0 <= i < |w.packets| ==> IsPacket(w.packets[i], w.len, i))
    && |w.fin| == UDP_HEADER_LEN && !IsData(w.fin)
  }

  function WireOf(w: Sender): seq<seq<Byte>> {
    [w.cookie] + w.packets + [w.fin]
  }

  /** Everything that arrives was sent; anything may be dropped, repeated or reordered. */
  ghost predicate Carried(arrivals: seq<Arrival>, w: Sender) {
    forall i {:trigger WasSent(arrivals[i].payload, w)} :: 0 <= i < |arrivals| ==> WasSent(arrivals[i].payload, w)
  }

  predicate WasSent(payload: seq<Byte>, w: Sender) {
    payload in WireOf(w)
  }

  /** What `StartUdp` hands to the network, and records as sent, is such a sender's. */
  lemma StartUdpWire(
    cfg: SendConfig, rate: nat, start: Time, cookie: seq<Byte>, script: seq<UdpTick>, endSec: nat, endUsec: nat)
    requires ValidScript(cfg, script) && WholePackets(cfg, script) && IsCookie(cookie) && endUsec < 1_000_000
    ensures var run := RunUdp(cfg, rate, start, script);
            && ValidSender(Sender(cookie, run.wire, HeaderBytes(Stamp(endSec, endUsec, -1)), cfg.len))
            && Total(run.sent) == |run.wire| * cfg.len
  {
    var fin := HeaderBytes(Stamp(endSec, endUsec, -1));
    HeaderRoundTrip(Stamp(endSec, endUsec, -1), []);
    assert fin + [] == fin;
    PacketsAreNumbered(cfg, rate, start, script);
    EqualSizes(RunUdp(cfg, rate, start, script).sent, cfg.len);
  }

  // ----- The cookie as a data packet -----

  /** The least number that a cookie's bytes can make where a header has its sequence number. */
  const COOKIE_FLOOR: nat := 0x3030_3030_3030_3030

  /** The sequence number a receiver reads from a cookie. */
  function CookieNumber(cookie: seq<Byte>): int
    requires |cookie| == COOKIE_LEN
  {
    DecodeHeader(cookie).value.seqNo
  }

  /** The receiver takes every cookie for a data packet, with an enormous number. */
  lemma CookieIsData(cookie: seq<Byte>)
    requires IsCookie(cookie)
    ensures IsData(cookie) && COOKIE_FLOOR <= CookieNumber(cookie) <= I64_MAX
  {
    CookieBytes(cookie);
  }

  lemma CookieBytes(cookie: seq<Byte>)
    requires IsCookie(cookie)
    ensures COOKIE_FLOOR <= FromBytes(cookie[8..16]) <= I64_MAX
  {
    var middle := cookie[8..16];
    forall i | 0 <= i < 8 ensures 48 <= middle[i] <= 122 {
      assert middle[i] == cookie[i + 8] && IsAlphanumeric(cookie[i + 8]);
    }
    BytesWithin(middle, 48, 122);
    RepeatedByte(48, 0x30303030);
    RepeatedByte(122, 0x7A7A7A7A);
  }

  lemma RepeatedByte(b: Byte, half: nat)
    requires half == ((b * 256 + b) * 256 + b) * 256 + b
    ensures Repdigit(b, 8) == half * 0x1_0000_0000 + half
  {
    assert Repdigit(b, 1) == b;
    assert Repdigit(b, 2) == b * 256 + b;
    assert Repdigit(b, 4) == half;
    assert Repdigit(b, 6) == half * 0x1_0000 + b * 256 + b;
  }

  /** A copy of the sender's cookie is among the arrivals. */
  ghost predicate CookieAmong(arrivals: seq<Arrival>, w: Sender) {
    exists i :: 0 <= i < |arrivals| && arrivals[i].payload == w.cookie
  }

  function Copies(data: seq<Arrival>, cookie: seq<Byte>): nat {
    if data == [] then 0
    else Copies(data[..|data| - 1], cookie) + if data[|data| - 1].payload == cookie then 1 else 0
  }

  /** What a data arrival with number `s` is: the sender's packet `s`, or a copy of its cookie. */
  predicate Explained(w: Sender, payload: seq<Byte>)
    requires IsData(payload)
  {
    var s := DecodeHeader(payload).value.seqNo;
    payload == w.cookie || (s < |w.packets| && payload == w.packets[s] && |payload| == w.len)
  }

  lemma ArrivedPacket(w: Sender, payload: seq<Byte>)
    requires ValidSender(w) && WasSent(payload, w) && IsData(payload)
    ensures Explained(w, payload)
  {
    var j :| 0 <= j < |WireOf(w)| && WireOf(w)[j] == payload;
    assert 0 < j <= |w.packets| ==> IsPacket(w.packets[j - 1], w.len, j - 1);
  }

  /** No packet looks like the cookie: its filler is not alphanumeric. */
  lemma PacketIsNotCookie(w: Sender, i: nat)
    requires ValidSender(w) && i < |w.packets|
    ensures w.packets[i] != w.cookie
  {
    assert IsPacket(w.packets[i], w.len, i);
    assert IsAlphanumeric(w.cookie[UDP_HEADER_LEN]);
  }

  ghost predicate AllExplained(data: seq<Arrival>, w: Sender) {
    && AllData(data)
    && forall i {:trigger Explained(w, data[i].payload)} :: 0 <= i < |data| ==> Explained(w, data[i].payload)
  }

  lemma {:induction false} DataExplained(arrivals: seq<Arrival>, w: Sender)
    requires ValidSender(w) && Carried(arrivals, w)
    ensures AllExplained(DataOf(arrivals), w)
  {
    if arrivals != [] {
      var init, a := arrivals[..|arrivals| - 1], arrivals[|arrivals| - 1];
      forall i | 0 <= i < |init| ensures WasSent(init[i].payload, w) {
        assert WasSent(arrivals[i].payload, w);
      }
      DataExplained(init, w);
      if IsData(a.payload) {
        assert WasSent(arrivals[|init|].payload, w);
        ArrivedPacket(w, a.payload);
      }
      ExplainedSnoc(DataOf(init), a, w);
    }
  }

  lemma ExplainedSnoc(data: seq<Arrival>, a: Arrival, w: Sender)
    requires AllExplained(data, w)
    ensures IsData(a.payload) && Explained(w, a.payload) ==> AllExplained(data + [a], w)
  {
    var all := data + [a];
    if IsData(a.payload) && Explained(w, a.payload) {
      forall i | 0 <= i < |all| ensures Explained(w, all[i].payload) {
        assert i < |data| ==> Explained(w, data[i].payload);
      }
    }
  }

  /** Every copy of the cookie counts as data. */
  lemma {:induction false} CopiesAreData(arrivals: seq<Arrival>, w: Sender)
    requires IsCookie(w.cookie)
    ensures CookieAmong(DataOf(arrivals), w) <==> CookieAmong(arrivals, w)
  {
    if arrivals != [] {
      var init, a := arrivals[..|arrivals| - 1], arrivals[|arrivals| - 1];
      CopiesAreData(init, w);
      CookieIsData(w.cookie);
      assert arrivals == init + [a];
      AmongSnoc(init, a, w);
      if IsData(a.payload) {
        AmongSnoc(DataOf(init), a, w);
      } else {
        assert DataOf(arrivals) == DataOf(init);
      }
    }
  }

  lemma AmongSnoc(init: seq<Arrival>, a: Arrival, w: Sender)
    ensures CookieAmong(init + [a], w) <==> CookieAmong(init, w) || a.payload == w.cookie
  {
    var all := init + [a];
    assert forall i :: 0 <= i < |init| ==> all[i] == init[i];
    assert all[|init|] == a;
  }

  /** The bytes counted: every packet for its length, and every copy of the cookie for the cookie's. */
  predicate BytesMatch(bytes: nat, packets: nat, copies: nat, len: nat) {
    copies <= packets && bytes == (packets - copies) * len + copies * COOKIE_LEN
  }

  lemma BytesMatchNext(bytes: nat, packets: nat, copies: nat, len: nat)
    requires BytesMatch(bytes, packets, copies, len)
    ensures BytesMatch(bytes + len, packets + 1, copies, len)
    ensures BytesMatch(bytes + COOKIE_LEN, packets + 1, copies + 1, len)
  {
    assert (packets + 1 - copies) * len == (packets - copies) * len + len;
  }

  /** In particular the bytes are packets times length exactly if no copy counts, or if it makes no
      difference. */
  lemma BytesMatchExactly(bytes: nat, packets: nat, copies: nat, len: nat)
    requires BytesMatch(bytes, packets, copies, len)
    ensures bytes == packets * len <==> copies == 0 || len == COOKIE_LEN
  {
    assert packets * len == (packets - copies) * len + copies * len;
    if copies > 0 && len != COOKIE_LEN {
      assert copies * len - copies * COOKIE_LEN == copies * (len - COOKIE_LEN);
      assert copies * (len - COOKIE_LEN) != 0;
    }
  }

  lemma {:induction false} CopiesAmong(data: seq<Arrival>, w: Sender)
    ensures Copies(data, w.cookie) == 0 <==> !CookieAmong(data, w)
  {
    if data != [] {
      var init, a := data[..|data| - 1], data[|data| - 1];
      CopiesAmong(init, w);
      assert data == init + [a];
      AmongSnoc(init, a, w);
    }
  }

  lemma {:induction false} BytesOf(data: seq<Arrival>, w: Sender)
    requires IsCookie(w.cookie) && AllExplained(data, w)
    ensures BytesMatch(Total(DeliveriesOf(data)), |data|, Copies(data, w.cookie), w.len)
  {
    if data == [] {
      assert Sizes([]) == [];
    } else {
      var init, a := data[..|data| - 1], data[|data| - 1];
      forall i | 0 <= i < |init| ensures Explained(w, init[i].payload) {
        assert Explained(w, data[i].payload);
      }
      BytesOf(init, w);
      SizeOf(w, data, |init|);
      BytesMatchNext(Total(DeliveriesOf(init)), |init|, Copies(init, w.cookie), w.len);
      TotalGrows(data);
    }
  }

  lemma TotalGrows(data: seq<Arrival>)
    requires data != []
    ensures var init, a := data[..|data| - 1], data[|data| - 1];
            Total(DeliveriesOf(data)) == Total(DeliveriesOf(init)) + |a.payload|
  {
    var init, a := data[..|data| - 1], data[|data| - 1];
    assert DeliveriesOf(data) == DeliveriesOf(init) + [Delivery(|a.payload|, a.at)];
    TotalSnoc(DeliveriesOf(init), Delivery(|a.payload|, a.at));
  }

  lemma SizeOf(w: Sender, data: seq<Arrival>, i: nat)
    requires IsCookie(w.cookie) && AllExplained(data, w) && i < |data|
    ensures |data[i].payload| == if data[i].payload == w.cookie then COOKIE_LEN else w.len
  {
    assert Explained(w, data[i].payload);
  }

  // ----- End to end -----

  /** The largest number is one of the sender's own exactly when no copy of the cookie was taken for a
      packet, unless the cookie's number happens to be below the number of packets sent. */
  lemma LargestNumber(data: seq<Arrival>, w: Sender)
    requires ValidSender(w) && AllExplained(data, w)
    ensures CountAll(SeqsOf(data)).maxSeq + 1 <= |w.packets| <==>
            !CookieAmong(data, w) || CookieNumber(w.cookie) < |w.packets|
  {
    var seqs := SeqsOf(data);
    SeqsInRange(data);
    InOrderPacketsAreDistinct(seqs);
    var m := CountAll(seqs).maxSeq;
    forall i | 0 <= i < |data|
      ensures seqs[i] in Received(seqs) && seqs[i] <= m
      ensures if data[i].payload == w.cookie then seqs[i] == CookieNumber(w.cookie) else seqs[i] < |w.packets|
    {
      assert Explained(w, data[i].payload);
    }
    if seqs != [] {
      var i :| 0 <= i < |seqs| && seqs[i] == m;
      assert data[i].payload == w.cookie || m < |w.packets|;
    }
  }

  /** Without copies of the cookie, the numbers counted as missing are exactly the packets up to the
      largest number that never arrived. */
  lemma MissingAreTheSenders(data: seq<Arrival>, w: Sender, x: nat)
    requires ValidSender(w) && AllExplained(data, w) && !CookieAmong(data, w)
    requires CountAll(SeqsOf(data)).maxSeq < |w.packets| && x <= CountAll(SeqsOf(data)).maxSeq
    ensures x in Missing(SeqsOf(data)) <==> !exists i :: 0 <= i < |data| && data[i].payload == w.packets[x]
  {
    var seqs := SeqsOf(data);
    if i :| 0 <= i < |data| && data[i].payload == w.packets[x] {
      assert IsPacket(w.packets[x], w.len, x);
      assert seqs[i] == x;
    }
    if x in Received(seqs) {
      var i :| 0 <= i < |seqs| && seqs[i] == x;
      assert Explained(w, data[i].payload);
    }
  }

  ghost predicate Arrived(data: seq<Arrival>, payload: seq<Byte>) {
    exists i :: 0 <= i < |data| && data[i].payload == payload
  }

  /** The counters' identity and the true loss hold for any arrivals. */
  lemma CountsAddUp(arrivals: seq<Arrival>, omit: nat)
    ensures var st := FoldStream(arrivals, omit);
            var c, seqs := st.counters, SeqsOf(DataOf(arrivals));
            && st.packets - c.ooo + c.lost == c.maxSeq + 1
            && c.maxSeq >= -1 && c.lost < U64_MAX
            && |Missing(seqs)| == c.lost - c.ooo + (st.packets - |Received(seqs)|) <= c.lost
  {
    FoldDescribes(arrivals, omit);
    SeqsInRange(DataOf(arrivals));
    CounterIdentity(SeqsOf(DataOf(arrivals)));
    TrueLoss(SeqsOf(DataOf(arrivals)));
  }

  lemma BytesAddUp(w: Sender, arrivals: seq<Arrival>, omit: nat)
    requires ValidSender(w) && Carried(arrivals, w)
    ensures var st, copies := FoldStream(arrivals, omit), Copies(DataOf(arrivals), w.cookie);
            && BytesMatch(st.receipt.bytes, st.packets, copies, w.len)
            && (copies == 0 <==> !CookieAmong(arrivals, w))
  {
    FoldDescribes(arrivals, omit);
    DataExplained(arrivals, w);
    CopiesAreData(arrivals, w);
    CopiesAmong(DataOf(arrivals), w);
    BytesOf(DataOf(arrivals), w);
    AccountedBytes(DeliveriesOf(DataOf(arrivals)), omit);
  }

  /** The largest number, and what the missing numbers mean. */
  lemma NumbersAreTheSenders(w: Sender, arrivals: seq<Arrival>, omit: nat)
    requires ValidSender(w) && Carried(arrivals, w)
    ensures var c, k, data := FoldStream(arrivals, omit).counters, |w.packets|, DataOf(arrivals);
            && c == CountAll(SeqsOf(data)) && c.maxSeq >= -1
            && (c.maxSeq + 1 <= k <==> !CookieAmong(arrivals, w) || CookieNumber(w.cookie) < k)
            && (!CookieAmong(arrivals, w) ==>
                  forall x :: 0 <= x <= c.maxSeq ==> (x in Missing(SeqsOf(data)) <==> !Arrived(data, w.packets[x])))
  {
    var data := DataOf(arrivals);
    FoldDescribes(arrivals, omit);
    SeqsInRange(data);
    CounterIdentity(SeqsOf(data));
    DataExplained(arrivals, w);
    CopiesAreData(arrivals, w);
    LargestNumber(data, w);
    if !CookieAmong(arrivals, w) {
      forall x | 0 <= x <= CountAll(SeqsOf(data)).maxSeq
        ensures x in Missing(SeqsOf(data)) <==> !Arrived(data, w.packets[x])
      {
        MissingAreTheSenders(data, w, x);
      }
    }
  }

  /** End to end, for any arrivals. The counters' identity and the true loss hold always. The largest
      number stays below the packets sent, the bytes are packets times length, and the missing numbers
      are the packets that did not arrive, as long as no copy of the cookie arrives after registration;
      a copy counts as one packet of the cookie's length with the cookie's number. */
  lemma EndToEnd(w: Sender, arrivals: seq<Arrival>, omit: nat)
    requires ValidSender(w) && Carried(arrivals, w)
    ensures var st := FoldStream(arrivals, omit);
            var c, k := st.counters, |w.packets|;
            var data := DataOf(arrivals);
            var seqs, copies := SeqsOf(data), Copies(data, w.cookie);
            && st.packets - c.ooo + c.lost == c.maxSeq + 1
            && c.maxSeq >= -1 && c.lost < U64_MAX
            && |Missing(seqs)| == c.lost - c.ooo + (st.packets - |Received(seqs)|) <= c.lost
            && (c.maxSeq + 1 <= k <==> !CookieAmong(arrivals, w) || CookieNumber(w.cookie) < k)
            && (k <= COOKIE_FLOOR ==> (c.maxSeq + 1 <= k <==> !CookieAmong(arrivals, w)))
            && BytesMatch(st.receipt.bytes, st.packets, copies, w.len)
            && (copies == 0 <==> !CookieAmong(arrivals, w))
            && (!CookieAmong(arrivals, w) ==>
                  forall x :: 0 <= x <= c.maxSeq ==> (x in Missing(seqs) <==> !Arrived(data, w.packets[x])))
  {
    CountsAddUp(arrivals, omit);
    BytesAddUp(w, arrivals, omit);
    NumbersAreTheSenders(w, arrivals, omit);
    CookieIsData(w.cookie);
  }

  /** A single copy of the cookie that arrives after registration is reported as one packet, preceded by
      at least `COOKIE_FLOOR` lost ones. */
  lemma RepeatedCookie(w: Sender, at: Time, omit: nat)
    requires ValidSender(w)
    ensures Carried([Arrival(w.cookie, at)], w)
    ensures var st := FoldStream([Arrival(w.cookie, at)], omit);
            && st.packets == 1 && st.receipt.bytes == COOKIE_LEN && st.counters.ooo == 0
            && st.counters.lost == st.counters.maxSeq == CookieNumber(w.cookie)
            && st.counters.lost >= COOKIE_FLOOR
  {
    CookieIsData(w.cookie);
    GapIsExact(CookieNumber(w.cookie), -1);
    var arrivals := [Arrival(w.cookie, at)];
    assert arrivals[..0] == [];
    assert WireOf(w)[0] == w.cookie;
  }

  /** For example, with a cookie of 36 letters `a`. */
  lemma RepeatedCookieExample(at: Time, omit: nat)
    ensures var cookie := seq(COOKIE_LEN - 1, _ => 97) + [0];
            IsCookie(cookie) && FoldStream([Arrival(cookie, at)], omit).counters.lost == 0x6161_6161_6161_6161
  {
    var cookie: seq<Byte> := seq(COOKIE_LEN - 1, _ => 97) + [0];
    CookieIsData(cookie);
    BytesWithin(cookie[8..16], 97, 97);
    RepeatedByte(97, 0x61616161);
    GapIsExact(CookieNumber(cookie), -1);
    assert [Arrival(cookie, at)][..0] == [];
  }

  /** The arrival in position `i` is what a clean stream has there. */
  predicate InPlace(w: Sender, a: Arrival, i: nat) {
    || (i < |w.packets| && a.payload == w.packets[i])
    || (a.payload == w.cookie && |w.cookie| == COOKIE_LEN && CookieNumber(w.cookie) == i)
  }

  lemma InPlaceIff(w: Sender, data: seq<Arrival>, i: nat)
    requires ValidSender(w) && AllExplained(data, w) && i < |data|
    ensures SeqsOf(data)[i] == i <==> InPlace(w, data[i], i)
  {
    assert Explained(w, data[i].payload);
    if i < |w.packets| {
      assert IsPacket(w.packets[i], w.len, i);
      PacketIsNotCookie(w, i);
    }
  }

  /** The server reports no loss and no reordering exactly when every data arrival is in its place. With
      no copy of the cookie, that means the sender's first packets in order; a copy among fewer than
      `COOKIE_FLOOR` arrivals always spoils the report. */
  lemma CleanIffFirstPackets(w: Sender, arrivals: seq<Arrival>, omit: nat)
    requires ValidSender(w) && Carried(arrivals, w)
    ensures var c, data := FoldStream(arrivals, omit).counters, DataOf(arrivals);
            var clean := c.lost == 0 && c.ooo == 0;
            && (clean <==> forall i :: 0 <= i < |data| ==> InPlace(w, data[i], i))
            && (!CookieAmong(arrivals, w) ==>
                  (clean <==> |data| <= |w.packets| && forall i :: 0 <= i < |data| ==> data[i].payload == w.packets[i]))
            && (CookieAmong(arrivals, w) && |data| <= COOKIE_FLOOR ==> !clean)
  {
    var data := DataOf(arrivals);
    FoldDescribes(arrivals, omit);
    SeqsInRange(data);
    CleanIffInOrder(SeqsOf(data));
    DataExplained(arrivals, w);
    CopiesAreData(arrivals, w);
    CookieIsData(w.cookie);
    forall i | 0 <= i < |data| ensures SeqsOf(data)[i] == i <==> InPlace(w, data[i], i) {
      InPlaceIff(w, data, i);
    }
    InPlaceWithoutCookie(w, data);
    InPlaceWithCookie(w, data);
  }

  lemma InPlaceWithoutCookie(w: Sender, data: seq<Arrival>)
    ensures !CookieAmong(data, w) ==>
              ((forall i :: 0 <= i < |data| ==> InPlace(w, data[i], i)) <==>
               |data| <= |w.packets| && forall i :: 0 <= i < |data| ==> data[i].payload == w.packets[i])
  {
    if !CookieAmong(data, w) && forall i :: 0 <= i < |data| ==> InPlace(w, data[i], i) {
      assert |data| > 0 ==> InPlace(w, data[|data| - 1], |data| - 1);
    }
  }

  lemma InPlaceWithCookie(w: Sender, data: seq<Arrival>)
    requires ValidSender(w) && CookieNumber(w.cookie) >= COOKIE_FLOOR
    ensures CookieAmong(data, w) && |data| <= COOKIE_FLOOR ==>
              !(forall i :: 0 <= i < |data| ==> InPlace(w, data[i], i))
  {
    if i :| 0 <= i < |data| && data[i].payload == w.cookie {
      if i < |w.packets| {
        PacketIsNotCookie(w, i);
      }
    }
  }

  /** Loss-free delivery in order gives a clean report with the sender's own totals. */
  lemma LosslessDelivery(w: Sender, arrivals: seq<Arrival>, omit: nat)
    requires ValidSender(w) && |arrivals| == |w.packets| + 1
    requires forall i :: 0 <= i < |arrivals| ==> arrivals[i].payload == (w.packets + [w.fin])[i]
    ensures var st := FoldStream(arrivals, omit);
            && st.counters.lost == 0 && st.counters.ooo == 0 && st.sawSentinel
            && st.packets == |w.packets|
            && st.receipt.bytes == |w.packets| * w.len
  {
    var packets := arrivals[..|w.packets|];
    PacketsAreData(w, packets);
    assert DataOf(arrivals) == packets;
    FoldDescribes(arrivals, omit);
    assert SentinelAmong(arrivals) by { assert arrivals[|w.packets|].payload == w.fin; }
    BytesOf(packets, w);
    CopiesAmong(packets, w);
    AccountedBytes(DeliveriesOf(packets), omit);
    SeqsInRange(packets);
    CleanIffInOrder(SeqsOf(packets));
    BytesMatchExactly(Total(DeliveriesOf(packets)), |packets|, 0, w.len);
  }

  lemma PacketsAreData(w: Sender, arrivals: seq<Arrival>)
    requires ValidSender(w) && |arrivals| <= |w.packets|
    requires forall i :: 0 <= i < |arrivals| ==> arrivals[i].payload == w.packets[i]
    ensures DataOf(arrivals) == arrivals && AllExplained(arrivals, w) && !CookieAmong(arrivals, w)
    ensures forall i :: 0 <= i < |arrivals| ==> SeqsOf(arrivals)[i] == i
  {
    forall i | 0 <= i < |arrivals| ensures IsOwnPacket(w, arrivals[i], i) {
      PacketFacts(w, i);
    }
    OwnPackets(w, arrivals);
  }

  predicate IsOwnPacket(w: Sender, a: Arrival, i: nat) {
    IsData(a.payload) && Explained(w, a.payload) && HeaderOf(a).seqNo == i && a.payload != w.cookie
  }

  lemma OwnPackets(w: Sender, arrivals: seq<Arrival>)
    requires forall i :: 0 <= i < |arrivals| ==> IsOwnPacket(w, arrivals[i], i)
    ensures DataOf(arrivals) == arrivals && AllExplained(arrivals, w) && !CookieAmong(arrivals, w)
    ensures forall i :: 0 <= i < |arrivals| ==> SeqsOf(arrivals)[i] == i
  {
    DataOfData(arrivals);
  }

  lemma PacketFacts(w: Sender, i: nat)
    requires ValidSender(w) && i < |w.packets|
    ensures IsData(w.packets[i]) && Explained(w, w.packets[i]) && DecodeHeader(w.packets[i]).value.seqNo == i
    ensures w.packets[i] != w.cookie
  {
    assert IsPacket(w.packets[i], w.len, i);
    PacketIsNotCookie(w, i);
  }

  // ----- The whole server -----

  /** For streams registered by `AcceptUdpStreams`, every position of the receiver's result is the
      single-stream receipt of its own source: none is lost or replaced by an empty one. */
  lemma RegisteredStreamsKeepTheirReceipts(
    env: nat -> Tick, events: seq<RecvFrom>, cookie: seq<Byte>, count: nat, omit: nat, n: nat, i: nat)
    requires |Registered(UntilError(events), cookie)| >= count && i < count
    ensures var order := Registered(UntilError(events), cookie)[..count];
            Demuxed(env, order, omit, n, i) == Reported(FoldStream(FromSource(env, n, order[i]), omit))
  {
    RegisteredExactly(UntilError(events), cookie);
  }

  /** What a report says about its sender, for any arrivals. */
  ghost predicate Tells(r: UdpReceipt, w: Sender, data: seq<Arrival>)
    requires AllData(data) && |w.cookie| == COOKIE_LEN
  {
    var seqs, copies, k := SeqsOf(data), Copies(data, w.cookie), |w.packets|;
    && (r.packets - r.ooo + r.lost <= k <==> copies == 0 || CookieNumber(w.cookie) < k)
    && CountAll(seqs).maxSeq >= -1
    && |Missing(seqs)| == r.lost - r.ooo + (r.packets - |Received(seqs)|) <= r.lost
    && BytesMatch(r.receipt.bytes, r.packets, copies, w.len)
    && (copies == 0 ==>
          (r.lost == 0 && r.ooo == 0 <==>
           |data| <= k && forall j :: 0 <= j < |data| ==> data[j].payload == w.packets[j]))
  }

  lemma ReportTells(w: Sender, arrivals: seq<Arrival>, omit: nat)
    requires ValidSender(w) && Carried(arrivals, w)
    ensures Tells(Reported(FoldStream(arrivals, omit)), w, DataOf(arrivals))
  {
    CountsAddUp(arrivals, omit);
    BytesAddUp(w, arrivals, omit);
    NumbersAreTheSenders(w, arrivals, omit);
    CleanIffFirstPackets(w, arrivals, omit);
  }

  /** A sender whose first datagram arrives is registered: that datagram is its cookie. So is one that sends
      the four bytes `9876`. */
  lemma FirstDatagramRegisters(w: Sender, events: seq<RecvFrom>, k: nat, src: SocketAddr)
    requires k < |events| && events[k] in {Datagram(src, WireOf(w)[0]), Datagram(src, [57, 56, 55, 54])}
    ensures src in Registered(events, w.cookie)
  {
    RegisteredExactly(events, w.cookie);
  }

  /** Nothing else registers a source than the session's cookie or the four bytes `9876`. */
  lemma RegistrationNeedsInit(events: seq<RecvFrom>, cookie: seq<Byte>, src: SocketAddr) returns (k: nat)
    requires src in Registered(events, cookie)
    ensures k < |events| && (events[k] == Datagram(src, cookie) || events[k] == Datagram(src, [57, 56, 55, 54]))
  {
    RegisteredExactly(events, cookie);
    var addrs := Registered(events, cookie);
    var p :| 0 <= p < |addrs| && addrs[p] == src;
    assert HasFirstInit(events, cookie, addrs, p);
    k :| FirstInit(events, cookie, addrs, p, k);
  }

  /** A datagram with a negative number has come from `src` before iteration `n`. */
  ghost predicate SentinelFrom(env: nat -> Tick, n: nat, src: SocketAddr) {
    exists j: nat :: j < n && IsSentinelFrom(env(j).outcome, src)
  }

  predicate IsSentinelFrom(outcome: Outcome, src: SocketAddr) {
    && outcome.Got? && outcome.src == src && |outcome.payload| >= 16
    && DecodeHeader(outcome.payload).value.seqNo < 0
  }

  lemma {:induction false} SentinelArrived(env: nat -> Tick, n: nat, src: SocketAddr)
    ensures SentinelAmong(FromSource(env, n, src)) <==> SentinelFrom(env, n, src)
  {
    if n > 0 {
      SentinelArrived(env, n - 1, src);
      var t := env(n - 1);
      SentinelFromNext(env, n - 1, src);
      if t.outcome.Got? && t.outcome.src == src {
        SentinelSnoc(FromSource(env, n - 1, src), Arrival(t.outcome.payload, t.receivedAt));
      } else {
        assert FromSource(env, n, src) == FromSource(env, n - 1, src);
      }
    }
  }

  lemma SentinelFromNext(env: nat -> Tick, n: nat, src: SocketAddr)
    ensures SentinelFrom(env, n + 1, src) <==> SentinelFrom(env, n, src) || IsSentinelFrom(env(n).outcome, src)
  {
    if SentinelFrom(env, n, src) {
      var j: nat :| j < n && IsSentinelFrom(env(j).outcome, src);
      assert j < n + 1;
    }
  }

  /** The loop leaves by its sentinels exactly when a stop has been requested and every registered source
      has sent a negative number. */
  lemma LeavesBySentinelsIff(env: nat -> Tick, order: seq<SocketAddr>, omit: nat, n: nat)
    ensures ExitAt(env, order, omit, n) == Some(AllSentinels) <==>
            env(n).stop && forall i :: 0 <= i < |order| ==> SentinelFrom(env, n, order[i])
  {
    forall i | 0 <= i < |order|
      ensures FoldStream(FromSource(env, n, order[i]), omit).sawSentinel <==> SentinelFrom(env, n, order[i])
    {
      FoldDescribes(FromSource(env, n, order[i]), omit);
      SentinelArrived(env, n, order[i]);
    }
  }

  /** Iteration `n` checks the clock 500 ms or more after iteration `f`, the first to see the stop flag. */
  ghost predicate GraceOver(env: nat -> Tick, n: nat, f: nat) {
    && f <= n && env(f).stop && (forall g: nat :: g < f ==> !env(g).stop)
    && env(n).checkedAt >= env(f).deadlineFrom + 500_000_000
  }

  /** Otherwise it leaves at the end of the grace period, or else by an error, or by a read that timed out
      when a stop had been requested; and by nothing else. */
  lemma LeavesOtherwiseIff(env: nat -> Tick, order: seq<SocketAddr>, omit: nat, n: nat)
    requires RealClock(env) && ExitAt(env, order, omit, n) != Some(AllSentinels)
    ensures ExitAt(env, order, omit, n) ==
            if exists f: nat :: GraceOver(env, n, f) then Some(DeadlinePassed)
            else if env(n).outcome.Failed? then Some(HardError)
            else if env(n).outcome.TimedOut? && env(n).stopAfter then Some(ReadTimeout)
            else None
  {
    if env(n).stop {
      var f := FirstStop(env, n);
      forall g: nat | g < f ensures !env(g).stop {
        if env(g).stop {
          StopPersists(env, f - 1, g);
        }
      }
      assert GraceOver(env, n, f) <==> env(n).checkedAt >= env(f).deadlineFrom + GRACE;
      assert forall f': nat :: GraceOver(env, n, f') ==> f' == f;
    } else {
      forall f: nat ensures !GraceOver(env, n, f) {
        if f <= n && env(f).stop {
          StopPersists(env, n, f);
        }
      }
    }
  }

  /** The server's report for a registered stream tells about that stream's own sender, whatever the
      other streams do meanwhile. */
  lemma ReportIsAboutItsSender(
    env: nat -> Tick, order: seq<SocketAddr>, omit: nat, n: nat, i: nat, w: Sender)
    requires Distinct(order) && i < |order| && ValidSender(w)
    requires Carried(FromSource(env, n, order[i]), w)
    ensures Tells(Demuxed(env, order, omit, n, i), w, DataOf(FromSource(env, n, order[i])))
  {
    assert order[i] !in order[..i];
    ReportTells(w, FromSource(env, n, order[i]), omit);
  }

  /** The stop discipline of a receive loop that leaves at iteration `n`. Without a stop request
      only a socket error ends it. No iteration gets past the check at or after the deadline, so
      when an iteration takes at most `step`, the loop is done `step` after the deadline. */
  lemma StopDiscipline(env: nat -> Tick, order: seq<SocketAddr>, omit: nat, n: nat, exit: Exit, step: nat)
    requires RealClock(env) && Reaches(env, order, omit, n) && ExitAt(env, order, omit, n) == Some(exit)
    requires forall j: nat :: env(j + 1).checkedAt <= env(j).checkedAt + step
    ensures (forall j :: 0 <= j <= n ==> !env(j).stop && !env(j).stopAfter) ==> exit == HardError
    ensures forall f, j :: 0 <= f <= j < n && env(f).stop ==> env(j).checkedAt < env(f).deadlineFrom + 500_000_000
    ensures forall f :: 0 <= f < n && env(f).stop ==> env(n).checkedAt < env(f).deadlineFrom + 500_000_000 + step
  {
    forall f, j | 0 <= f <= j < n && env(f).stop ensures env(j).checkedAt < env(f).deadlineFrom + GRACE {
      StopPersists(env, j, f);
      assert ExitAt(env, order, omit, j) == None;
      DeadlinesGrow(env, f, j);
    }
    if n > 0 {
      assert env(n - 1 + 1).checkedAt <= env(n - 1).checkedAt + step;
    }
  }

  lemma {:induction false} DeadlinesGrow(env: nat -> Tick, f: nat, j: nat)
    requires RealClock(env) && f <= j && env(f).stop && env(j).stop
    ensures env(FirstStop(env, j)).deadlineFrom <= env(f).deadlineFrom
    decreases j
  {
    if f < j {
      StopPersists(env, j - 1, f);
      DeadlinesGrow(env, f, j - 1);
    } else if j > 0 && env(j - 1).stop {
      assert Advances(env, j - 1);
      DeadlinesGrow(env, j - 1, j - 1);
    }
  }
}
