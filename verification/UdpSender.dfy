/** The client's UDP send loop: limits, pacing, sequence numbers and the closing sentinel. */
module UdpSender {
  import opened Common
  import opened Receipts
  import opened UdpHeaders
  import opened Pacing
  import opened Streams

  /** What one iteration observes: the stop timer, the clock for pacing, the wall clock for the
      header, and the send. */
  datatype UdpTick = UdpTick(timerAt: Time, now: Time, sec: nat, usec: nat, outcome: SendOutcome)

  predicate ValidTick(cfg: SendConfig, t: UdpTick) {
    t.usec < 1_000_000 && (t.outcome.Sent? ==> t.outcome.n <= cfg.len)
  }

  /** `sent` and `wire` list the successful sends and their datagrams; `slept` says whether the
      last iteration only slept. The next sequence number is `|wire|`. */
  datatype UdpRun = UdpRun(sent: seq<Delivery>, wire: seq<seq<Byte>>, slept: bool, exit: Option<SendExit>)

  /** The header stamped on packet `seqNo`; seconds are truncated to 32 bits. */
  function Stamp(sec: nat, usec: nat, seqNo: int): UdpHeader {
    UdpHeader(sec % 0x1_0000_0000, usec, seqNo)
  }

  /** A packet of `len` bytes: the header, then filler. */
  function Packet(h: UdpHeader, len: nat): (p: seq<Byte>)
    requires InRange(h) && len >= UDP_HEADER_LEN
    ensures |p| == len
  {
    HeaderBytes(h) + seq(len - UDP_HEADER_LEN, _ => 1)
  }

  /** The bucket's count: the bytes sent, saturating at the largest u64. */
  function Counted(sent: seq<Delivery>): nat {
    if Total(sent) > U64_MAX then U64_MAX else Total(sent)
  }

  function UdpStep(cfg: SendConfig, rate: nat, start: Time, run: UdpRun, t: UdpTick): UdpRun
    requires cfg.len >= UDP_HEADER_LEN && ValidTick(cfg, t) && |run.wire| <= I64_MAX
  {
    if run.exit.Some? then run
    else
      var stop := Stops(cfg, start, Total(run.sent), t.timerAt);
      if stop.Some? then run.(exit := stop, slept := false)
      else if Wait(rate, Counted(run.sent), Since(t.now, start) as real).Some? then run.(slept := true)
      else match t.outcome
           case Sent(n, at) =>
             if n > 0 then
               UdpRun(
                 run.sent + [Delivery(n, at)],
                 run.wire + [Packet(Stamp(t.sec, t.usec, |run.wire|), cfg.len)[..n]],
                 false, None)
             else run.(slept := false)
           case _ => run.(exit := Some(SendError), slept := false)
  }

  ghost predicate ValidScript(cfg: SendConfig, script: seq<UdpTick>) {
    && cfg.len >= UDP_HEADER_LEN
    && |script| <= I64_MAX
    && forall i :: 0 <= i < |script| ==> ValidTick(cfg, script[i])
  }

  ghost function RunUdp(cfg: SendConfig, rate: nat, start: Time, script: seq<UdpTick>): (run: UdpRun)
    requires ValidScript(cfg, script)
    ensures |run.wire| == |run.sent| <= |script|
  {
    if script == [] then UdpRun([], [], false, None)
    else UdpStep(cfg, rate, start, RunUdp(cfg, rate, start, script[..|script| - 1]), script[|script| - 1])
  }

  lemma {:induction false} RunUdpSettled(cfg: SendConfig, rate: nat, start: Time, script: seq<UdpTick>, k: nat)
    requires ValidScript(cfg, script) && k <= |script| && RunUdp(cfg, rate, start, script[..k]).exit.Some?
    ensures RunUdp(cfg, rate, start, script) == RunUdp(cfg, rate, start, script[..k])
  {
    if k < |script| {
      assert script[..|script| - 1][..k] == script[..k];
      RunUdpSettled(cfg, rate, start, script[..|script| - 1], k);
    } else {
      assert script[..k] == script;
    }
  }

  lemma CountedSnoc(sent: seq<Delivery>, d: Delivery)
    ensures Counted(sent + [d]) == SaturatingAdd(Counted(sent), d.n)
  {
    TotalSnoc(sent, d);
  }

  lemma SentOne(sent: seq<Delivery>, d: Delivery, omit: nat)
    ensures AccountAll(sent + [d], omit) == Account(AccountAll(sent, omit), d, omit)
    ensures Counted(sent + [d]) == SaturatingAdd(Counted(sent), d.n)
  {
    CountedSnoc(sent, d);
    assert (sent + [d])[..|sent|] == sent;
  }

  lemma RunUdpSnoc(cfg: SendConfig, rate: nat, start: Time, script: seq<UdpTick>, i: nat)
    requires ValidScript(cfg, script) && i < |script|
    ensures RunUdp(cfg, rate, start, script[..i + 1])
            == UdpStep(cfg, rate, start, RunUdp(cfg, rate, start, script[..i]), script[i])
  {
    assert script[..i + 1][..i] == script[..i];
  }

  /** Write a header over the start of a reused packet buffer. */
  method StampPacket(hdr: UdpHeader, packet: array<Byte>)
    requires InRange(hdr) && packet.Length >= UDP_HEADER_LEN
    requires packet[UDP_HEADER_LEN..] == seq(packet.Length - UDP_HEADER_LEN, _ => 1)
    modifies packet
    ensures packet[..] == Packet(hdr, packet.Length)
    ensures packet[UDP_HEADER_LEN..] == old(packet[UDP_HEADER_LEN..])
  {
    var _ := EncodeHeader(hdr, packet);
    assert packet[..] == packet[..UDP_HEADER_LEN] + packet[UDP_HEADER_LEN..];
  }

  /** The datagram that ends a stream: a bare header with a negative number. */
  method Sentinel(sec: nat, usec: nat) returns (fin: seq<Byte>)
    requires usec < 1_000_000
    ensures fin == HeaderBytes(Stamp(sec, usec, -1))
  {
    var buf := new Byte[UDP_HEADER_LEN](_ => 0);
    var _ := EncodeHeader(Stamp(sec, usec, -1), buf);
    fin := buf[..];
    assert fin == buf[..UDP_HEADER_LEN];
  }

  /** The loop's variables agree with the run so far; the next sequence number is the packet count. */
  ghost predicate Tracked(
    cfg: SendConfig, rate: nat, start: Time, run: UdpRun, packet: array<Byte>, bucket: TokenBucket,
    receipt: Receipt, packets: nat)
    reads packet, bucket
  {
    && receipt == AccountAll(run.sent, cfg.omit)
    && packets == |run.sent| == |run.wire|
    && bucket.rate == rate && bucket.start == start && bucket.bytesSent == Counted(run.sent)
    && packet.Length == cfg.len >= UDP_HEADER_LEN
    && packet[UDP_HEADER_LEN..] == seq(cfg.len - UDP_HEADER_LEN, _ => 1)
  }

  /** One iteration of the send loop; `sent` is the datagram it hands to the network, if any. */
  method Iterate(
    cfg: SendConfig, rate: nat, start: Time, t: UdpTick, packet: array<Byte>, bucket: TokenBucket,
    receipt: Receipt, packets: nat, ghost run: UdpRun)
    returns (receipt': Receipt, packets': nat, sent: seq<seq<Byte>>, exit: Option<SendExit>)
    requires ValidTick(cfg, t) && run.exit.None? && |run.wire| <= I64_MAX
    requires Tracked(cfg, rate, start, run, packet, bucket, receipt, packets)
    modifies packet, bucket
    ensures var run' := UdpStep(cfg, rate, start, run, t);
            && Tracked(cfg, rate, start, run', packet, bucket, receipt', packets')
            && run'.wire == run.wire + sent && exit == run'.exit
  {
    receipt', packets', sent := receipt, packets, [];
    AccountedBytes(run.sent, cfg.omit);
    assert run.wire + [] == run.wire;
    exit := Stops(cfg, start, receipt.bytes, t.timerAt);
    if exit.None? && bucket.WaitAt(t.now).None? {
      StampPacket(Stamp(t.sec, t.usec, packets), packet);
      match t.outcome {
        case Sent(n, sentAt) =>
          if n > 0 {
            SentOne(run.sent, Delivery(n, sentAt), cfg.omit);
            assert packet[..n] == packet[..][..n];
            sent := [packet[..n]];
            bucket.Record(n);
            receipt' := Account(receipt, Delivery(n, sentAt), cfg.omit);
            packets' := packets + 1;
          }
        case _ => exit := Some(SendError);
      }
    }
  }

  /** The send loop. `datagrams` is what it hands to the network. */
  method SendLoop(cfg: SendConfig, rate: nat, start: Time, script: seq<UdpTick>)
    returns (receipt: Receipt, packets: nat, datagrams: seq<seq<Byte>>, exit: Option<SendExit>)
    requires ValidScript(cfg, script)
    ensures var run := RunUdp(cfg, rate, start, script);
            receipt == AccountAll(run.sent, cfg.omit) && packets == |run.sent| && datagrams == run.wire && exit == run.exit
  {
    receipt, packets, datagrams, exit := EMPTY, 0, [], None;
    var packet := new Byte[cfg.len](_ => 1);
    var bucket := new TokenBucket(rate, start);
    ghost var run := UdpRun([], [], false, None);
    var i := 0;
    while i < |script| && exit.None?
      invariant i <= |script| && fresh(packet) && fresh(bucket)
      invariant run == RunUdp(cfg, rate, start, script[..i]) && exit == run.exit && datagrams == run.wire
      invariant Tracked(cfg, rate, start, run, packet, bucket, receipt, packets)
    {
      RunUdpSnoc(cfg, rate, start, script, i);
      var sent: seq<seq<Byte>>;
      receipt, packets, sent, exit := Iterate(cfg, rate, start, script[i], packet, bucket, receipt, packets, run);
      datagrams := datagrams + sent;
      run := UdpStep(cfg, rate, start, run, script[i]);
      i := i + 1;
    }
    if exit.Some? {
      RunUdpSettled(cfg, rate, start, script, i);
    } else {
      assert script[..i] == script;
    }
  }

  /** The client's UDP stream: the cookie that registers it, the send loop, and the sentinel. `wire`
      is everything handed to the network, in order. Nothing is if the cookie cannot be sent, and only
      the cookie is if the packet length is below the header size. */
  method StartUdp(
    cfg: SendConfig, rate: nat, start: Time, cookie: seq<Byte>, cookieOk: bool, script: seq<UdpTick>,
    endSec: nat, endUsec: nat, endOk: bool)
    returns (receipt: Receipt, packets: nat, wire: seq<seq<Byte>>, exit: Option<SendExit>)
    requires cfg.len >= UDP_HEADER_LEN ==> ValidScript(cfg, script)
    requires endUsec < 1_000_000
    ensures !cookieOk ==> wire == []
    ensures cookieOk && cfg.len < UDP_HEADER_LEN ==> wire == [cookie]
    ensures !cookieOk || cfg.len < UDP_HEADER_LEN ==> receipt == EMPTY && packets == 0 && exit == None
    ensures cookieOk && cfg.len >= UDP_HEADER_LEN ==>
              var run := RunUdp(cfg, rate, start, script);
              && receipt == AccountAll(run.sent, cfg.omit)
              && packets == |run.sent|
              && exit == run.exit
              && wire == [cookie] + run.wire + if endOk then [HeaderBytes(Stamp(endSec, endUsec, -1))] else []
  {
    receipt, packets, wire, exit := EMPTY, 0, [], None;
    if !cookieOk {
      return;
    }
    wire := [cookie];
    if cfg.len < UDP_HEADER_LEN {
      return;
    }
    var datagrams: seq<seq<Byte>>;
    receipt, packets, datagrams, exit := SendLoop(cfg, rate, start, script);
    wire := wire + datagrams;
    var fin := Sentinel(endSec, endUsec);
    if endOk {
      wire := wire + [fin];
    }
  }

  // ----- What a run sends -----

  /** Every send moves the whole packet, as datagram sockets do. */
  ghost predicate WholePackets(cfg: SendConfig, script: seq<UdpTick>) {
    forall i :: 0 <= i < |script| && script[i].outcome.Sent? ==> script[i].outcome.n == cfg.len
  }

  /** A full packet with sequence number `i`: a header, then filler. */
  predicate IsPacket(p: seq<Byte>, len: nat, i: nat) {
    && |p| == len >= UDP_HEADER_LEN
    && DecodeHeader(p).value.seqNo == i
    && forall j :: UDP_HEADER_LEN <= j < len ==> p[j] == 1
  }

  /** The datagrams are full packets with the sequence numbers 0, 1, 2, ..., as recorded. */
  ghost predicate Numbered(run: UdpRun, len: nat) {
    && |run.wire| == |run.sent|
    && forall i :: 0 <= i < |run.wire| ==> IsPacket(run.wire[i], len, i) && run.sent[i].n == len
  }

  lemma {:induction false} PacketsAreNumbered(cfg: SendConfig, rate: nat, start: Time, script: seq<UdpTick>)
    requires ValidScript(cfg, script) && WholePackets(cfg, script)
    ensures Numbered(RunUdp(cfg, rate, start, script), cfg.len)
  {
    if script != [] {
      var init, t := script[..|script| - 1], script[|script| - 1];
      PacketsAreNumbered(cfg, rate, start, init);
      SendKeepsNumbers(cfg, rate, start, RunUdp(cfg, rate, start, init), t);
    }
  }

  lemma SendKeepsNumbers(cfg: SendConfig, rate: nat, start: Time, run: UdpRun, t: UdpTick)
    requires cfg.len >= UDP_HEADER_LEN && ValidTick(cfg, t) && |run.wire| <= I64_MAX
    requires t.outcome.Sent? ==> t.outcome.n == cfg.len
    requires Numbered(run, cfg.len)
    ensures Numbered(UdpStep(cfg, rate, start, run, t), cfg.len)
  {
    if t.outcome.Sent? {
      PacketCarries(Stamp(t.sec, t.usec, |run.wire|), cfg.len);
    }
  }

  lemma PacketCarries(hdr: UdpHeader, len: nat)
    requires InRange(hdr) && len >= UDP_HEADER_LEN && hdr.seqNo >= 0
    ensures Packet(hdr, len)[..len] == Packet(hdr, len)
    ensures IsPacket(Packet(hdr, len), len, hdr.seqNo)
  {
    HeaderRoundTrip(hdr, seq(len - UDP_HEADER_LEN, _ => 1));
  }

  /** The datagrams sent so far stay as they are. */
  lemma WireGrows(cfg: SendConfig, rate: nat, start: Time, run: UdpRun, t: UdpTick)
    requires cfg.len >= UDP_HEADER_LEN && ValidTick(cfg, t) && |run.wire| == |run.sent| <= I64_MAX
    requires t.outcome.Sent? ==> t.outcome.n == cfg.len
    ensures var run' := UdpStep(cfg, rate, start, run, t);
            && run.wire <= run'.wire && run.sent <= run'.sent && |run'.wire| <= |run.wire| + 1
            && (|run'.wire| > |run.wire| ==>
                  && t.outcome == Sent(cfg.len, run'.sent[|run.sent|].at)
                  && run'.wire[|run.wire|] == Packet(Stamp(t.sec, t.usec, |run.wire|), cfg.len)[..cfg.len])
  {}

  lemma StampCarries(hdr: UdpHeader, len: nat)
    requires InRange(hdr) && len >= UDP_HEADER_LEN
    ensures Packet(hdr, len)[..len] == Packet(hdr, len) && DecodeHeader(Packet(hdr, len)) == Ok(hdr)
  {
    HeaderRoundTrip(hdr, seq(len - UDP_HEADER_LEN, _ => 1));
  }

  /** Packet `i` carries the clock of the iteration that sent it, and its own number. */
  lemma {:induction false} PacketStamp(cfg: SendConfig, rate: nat, start: Time, script: seq<UdpTick>, i: nat)
    returns (j: nat)
    requires ValidScript(cfg, script) && WholePackets(cfg, script) && i < |RunUdp(cfg, rate, start, script).wire|
    ensures j < |script| && |RunUdp(cfg, rate, start, script[..j]).wire| == i
    ensures script[j].outcome == Sent(cfg.len, RunUdp(cfg, rate, start, script).sent[i].at)
    ensures DecodeHeader(RunUdp(cfg, rate, start, script).wire[i])
            == Ok(UdpHeader(script[j].sec % 0x1_0000_0000, script[j].usec, i))
  {
    var init, t := script[..|script| - 1], script[|script| - 1];
    var before := RunUdp(cfg, rate, start, init);
    WireGrows(cfg, rate, start, before, t);
    if i < |before.wire| {
      j := PacketStamp(cfg, rate, start, init, i);
      assert init[..j] == script[..j];
    } else {
      j := |init|;
      StampCarries(Stamp(t.sec, t.usec, i), cfg.len);
    }
  }

  lemma {:induction false} EqualSizes(ds: seq<Delivery>, len: nat)
    requires forall i :: 0 <= i < |ds| ==> ds[i].n == len
    ensures Total(ds) == |ds| * len
  {
    if ds != [] {
      EqualSizes(ds[..|ds| - 1], len);
      TotalSnoc(ds[..|ds| - 1], ds[|ds| - 1]);
      assert ds == ds[..|ds| - 1] + [ds[|ds| - 1]];
    }
  }

  lemma {:induction false} UdpWithinLimits(cfg: SendConfig, rate: nat, start: Time, script: seq<UdpTick>)
    requires ValidScript(cfg, script)
    ensures var run := RunUdp(cfg, rate, start, script);
            WithinLimits(cfg, Total(run.sent), run.exit)
  {
    if script == [] {
      assert Sizes([]) == [];
      assert 0 / cfg.len == 0;
    } else {
      var init, t := script[..|script| - 1], script[|script| - 1];
      UdpWithinLimits(cfg, rate, start, init);
      SendKeepsLimits(cfg, rate, start, RunUdp(cfg, rate, start, init), t);
    }
  }

  lemma SendKeepsLimits(cfg: SendConfig, rate: nat, start: Time, run: UdpRun, t: UdpTick)
    requires cfg.len >= UDP_HEADER_LEN && ValidTick(cfg, t) && |run.wire| <= I64_MAX
    requires WithinLimits(cfg, Total(run.sent), run.exit)
    ensures var run' := UdpStep(cfg, rate, start, run, t);
            WithinLimits(cfg, Total(run'.sent), run'.exit)
  {
    if run.exit.None? && Stops(cfg, start, Total(run.sent), t.timerAt).None? && t.outcome.Sent? && t.outcome.n > 0 {
      TotalSnoc(run.sent, Delivery(t.outcome.n, t.outcome.at));
      LimitsStep(cfg, start, Total(run.sent), t.timerAt, t.outcome.n);
    }
  }

  /** With whole packets a block is a packet: the loop never sends more than `maxBlocks` of them,
      and leaving by the block limit means exactly that many, the last numbered `maxBlocks - 1`. */
  lemma BlocksArePackets(cfg: SendConfig, rate: nat, start: Time, script: seq<UdpTick>)
    requires ValidScript(cfg, script) && WholePackets(cfg, script) && cfg.maxBlocks.Some?
    ensures var run := RunUdp(cfg, rate, start, script);
            && |run.wire| <= cfg.maxBlocks.value
            && (run.exit == Some(BlockLimit) ==> |run.wire| == cfg.maxBlocks.value)
  {
    var run := RunUdp(cfg, rate, start, script);
    UdpWithinLimits(cfg, rate, start, script);
    PacketsAreNumbered(cfg, rate, start, script);
    EqualSizes(run.sent, cfg.len);
    DivExact(|run.sent|, cfg.len);
  }

  lemma DivExact(k: nat, len: nat)
    requires len > 0
    ensures k * len / len == k
  {
    var q := k * len / len;
    assert q * len <= k * len < q * len + len;
    if q < k {
      MulMonotone(q + 1, k, len);
      assert false;
    } else if q > k {
      MulMonotone(k + 1, q, len);
      assert false;
    }
  }

  /** The sender is ahead of its rate: it has sent more than the rate allows in the time elapsed. */
  predicate Ahead(rate: nat, start: Time, sent: seq<Delivery>, now: Time) {
    rate > 0 && 8_000_000_000 * Counted(sent) > rate * Since(now, start)
  }

  /** The non-zero successful sends of the iterations that do not sleep, in order. */
  function Sends(rate: nat, start: Time, script: seq<UdpTick>): seq<Delivery> {
    if script == [] then []
    else
      var before, t := Sends(rate, start, script[..|script| - 1]), script[|script| - 1];
      before + if !Ahead(rate, start, before, t.now) && t.outcome.Sent? && t.outcome.n > 0
               then [Delivery(t.outcome.n, t.outcome.at)] else []
  }

  /** How iteration `i` of a script ends, given the sends before it. */
  ghost predicate UdpEndsBy(
    cfg: SendConfig, rate: nat, start: Time, script: seq<UdpTick>, i: nat, exit: Option<SendExit>)
    requires cfg.len > 0 && i < |script|
  {
    var before, t := Sends(rate, start, script[..i]), script[i];
    EndsBy(cfg, start, t.timerAt, Total(before), !Ahead(rate, start, before, t.now) && !t.outcome.Sent?, exit)
  }

  /** One iteration, on the sends so far. */
  lemma StepEndsBy(cfg: SendConfig, rate: nat, start: Time, run: UdpRun, t: UdpTick)
    requires cfg.len >= UDP_HEADER_LEN && ValidTick(cfg, t) && |run.wire| <= I64_MAX && run.exit.None?
    ensures var run', ahead := UdpStep(cfg, rate, start, run, t), Ahead(rate, start, run.sent, t.now);
            && EndsBy(cfg, start, t.timerAt, Total(run.sent), !ahead && !t.outcome.Sent?, run'.exit)
            && run'.sent == run.sent + if run'.exit.None? && !ahead && t.outcome.n > 0
                                       then [Delivery(t.outcome.n, t.outcome.at)] else []
  {
    NoWaitIff(rate, Counted(run.sent), Since(t.now, start));
  }

  /** Iteration `k` is the first that leaves the loop, by `exit`, or there is none, and the sends are those
      before it. */
  ghost predicate LeavesAt(
    cfg: SendConfig, rate: nat, start: Time, script: seq<UdpTick>, k: nat, sent: seq<Delivery>, exit: Option<SendExit>)
    requires cfg.len > 0
  {
    && k <= |script| && sent == Sends(rate, start, script[..k])
    && (forall i :: 0 <= i < k ==> UdpEndsBy(cfg, rate, start, script, i, None))
    && (k < |script| ==> UdpEndsBy(cfg, rate, start, script, k, exit))
    && (k < |script| <==> exit.Some?)
  }

  lemma LeftBefore(
    cfg: SendConfig, rate: nat, start: Time, script: seq<UdpTick>, k: nat, sent: seq<Delivery>, exit: Option<SendExit>)
    requires cfg.len > 0 && script != [] && exit.Some?
    requires LeavesAt(cfg, rate, start, script[..|script| - 1], k, sent, exit)
    ensures LeavesAt(cfg, rate, start, script, k, sent, exit)
  {
    assert script[..|script| - 1][..k] == script[..k];
    forall i | 0 <= i < k ensures UdpEndsBy(cfg, rate, start, script, i, None) {
      UdpEndsSame(cfg, rate, start, script, i, None);
    }
    UdpEndsSame(cfg, rate, start, script, k, exit);
  }

  lemma LeavesLast(
    cfg: SendConfig, rate: nat, start: Time, script: seq<UdpTick>, k: nat, sent: seq<Delivery>, exit: Option<SendExit>)
    requires cfg.len > 0 && script != []
    requires LeavesAt(cfg, rate, start, script[..|script| - 1], |script| - 1, Sends(rate, start, script[..|script| - 1]), None)
    requires k == |script| - One(exit.Some?) && sent == Sends(rate, start, script[..k])
    requires UdpEndsBy(cfg, rate, start, script, |script| - 1, exit)
    ensures LeavesAt(cfg, rate, start, script, k, sent, exit)
  {
    forall i | 0 <= i < |script| - 1 ensures UdpEndsBy(cfg, rate, start, script, i, None) {
      assert UdpEndsBy(cfg, rate, start, script[..|script| - 1], i, None);
      UdpEndsSame(cfg, rate, start, script, i, None);
    }
  }

  /** A run sends exactly the script's sends before iteration `k`, the first that leaves the loop: by the
      clock if and only if its time is up, and so on. It has not left if there is no such iteration. */
  lemma {:induction false} UdpRunsUntil(cfg: SendConfig, rate: nat, start: Time, script: seq<UdpTick>)
    returns (k: nat)
    requires ValidScript(cfg, script)
    ensures var run := RunUdp(cfg, rate, start, script);
            LeavesAt(cfg, rate, start, script, k, run.sent, run.exit)
  {
    if script == [] {
      return 0;
    }
    var init := script[..|script| - 1];
    k := UdpRunsUntil(cfg, rate, start, init);
    var before := RunUdp(cfg, rate, start, init);
    if before.exit.Some? {
      LeftBefore(cfg, rate, start, script, k, before.sent, before.exit);
    } else {
      assert init[..k] == init;
      k := UdpLastStep(cfg, rate, start, script);
      LeavesLast(cfg, rate, start, script, k, RunUdp(cfg, rate, start, script).sent, RunUdp(cfg, rate, start, script).exit);
    }
  }

  lemma UdpEndsSame(
    cfg: SendConfig, rate: nat, start: Time, script: seq<UdpTick>, i: nat, exit: Option<SendExit>)
    requires cfg.len > 0 && i < |script| - 1
    ensures UdpEndsBy(cfg, rate, start, script[..|script| - 1], i, exit) <==>
            UdpEndsBy(cfg, rate, start, script, i, exit)
  {
    assert script[..|script| - 1][..i] == script[..i];
  }

  lemma UdpLastStep(cfg: SendConfig, rate: nat, start: Time, script: seq<UdpTick>) returns (k: nat)
    requires ValidScript(cfg, script) && script != []
    requires var run := RunUdp(cfg, rate, start, script[..|script| - 1]);
             run.exit.None? && run.sent == Sends(rate, start, script[..|script| - 1])
    ensures var run := RunUdp(cfg, rate, start, script);
            && k == |script| - One(run.exit.Some?)
            && run.sent == Sends(rate, start, script[..k])
            && UdpEndsBy(cfg, rate, start, script, |script| - 1, run.exit)
  {
    StepEndsBy(cfg, rate, start, RunUdp(cfg, rate, start, script[..|script| - 1]), script[|script| - 1]);
    assert script[..|script|] == script;
    k := if RunUdp(cfg, rate, start, script).exit.Some? then |script| - 1 else |script|;
  }

  // ----- Pacing over whole runs -----

  /** Clocks run forward: an iteration reads its clock after the bucket was made and sends after
      reading it, and a sleep lasts at least as long as asked. */
  ghost predicate HonestClock(cfg: SendConfig, rate: nat, start: Time, script: seq<UdpTick>)
    requires ValidScript(cfg, script)
  {
    && (forall i :: 0 <= i < |script| ==>
          start <= script[i].now && (script[i].outcome.Sent? ==> script[i].now <= script[i].outcome.at))
    && (forall i :: 0 <= i < |script| - 1 ==> SleepHonoured(cfg, rate, start, script, i))
  }

  ghost predicate SleepHonoured(cfg: SendConfig, rate: nat, start: Time, script: seq<UdpTick>, i: nat)
    requires ValidScript(cfg, script) && i + 1 < |script|
  {
    var run := RunUdp(cfg, rate, start, script[..i]);
    var wait := Wait(rate, Counted(run.sent), Since(script[i].now, start) as real);
    RunUdp(cfg, rate, start, script[..i + 1]).slept && wait.Some? ==>
      script[i + 1].now as real >= script[i].now as real + wait.value
  }

  /** No two iterations in a row sleep: after a sleep the loop sends or leaves. */
  lemma NeverSleepsTwice(cfg: SendConfig, rate: nat, start: Time, script: seq<UdpTick>, i: nat)
    requires ValidScript(cfg, script) && HonestClock(cfg, rate, start, script)
    requires i + 1 < |script| && RunUdp(cfg, rate, start, script[..i + 1]).slept
    ensures !RunUdp(cfg, rate, start, script[..i + 2]).slept
  {
    assert SleepHonoured(cfg, rate, start, script, i);
    assert script[..i + 1][..i] == script[..i];
    assert script[..i + 2][..i + 1] == script[..i + 1];
    var run := RunUdp(cfg, rate, start, script[..i]);
    var run1 := RunUdp(cfg, rate, start, script[..i + 1]);
    if run1.exit.None? {
      var t, t1 := script[i], script[i + 1];
      var elapsed := Since(t.now, start) as real;
      var wait := Wait(rate, Counted(run.sent), elapsed);
      assert run1.sent == run.sent && wait.Some?;
      WaitIsLeastDelay(rate, Counted(run.sent), elapsed, t1.now as real - t.now as real);
      assert elapsed + (t1.now as real - t.now as real) == Since(t1.now, start) as real;
    } else {
      SettledDidNotSleep(cfg, rate, start, script[..i + 1]);
    }
  }

  lemma {:induction false} SettledDidNotSleep(cfg: SendConfig, rate: nat, start: Time, script: seq<UdpTick>)
    requires ValidScript(cfg, script) && RunUdp(cfg, rate, start, script).exit.Some?
    ensures !RunUdp(cfg, rate, start, script).slept
  {
    if script != [] && RunUdp(cfg, rate, start, script[..|script| - 1]).exit.Some? {
      SettledDidNotSleep(cfg, rate, start, script[..|script| - 1]);
    }
  }

  /** After the send at `sent[j]` the sender is at most one packet ahead of the rate. */
  ghost predicate Paced(cfg: SendConfig, rate: nat, start: Time, sent: seq<Delivery>, j: nat)
    requires j < |sent|
  {
    sent[j].at >= start && WithinRate(rate, Counted(sent[..j + 1]), sent[j].at - start, cfg.len)
  }

  /** `count` bytes are at most what `rate` bits per second allow in `elapsed` nanoseconds, and `len` more. */
  predicate WithinRate(rate: nat, count: nat, elapsed: nat, len: nat) {
    8_000_000_000 * count <= rate * elapsed + 8_000_000_000 * len
  }

  lemma PacedSend(cfg: SendConfig, rate: nat, start: Time, sent: seq<Delivery>, d: Delivery, now: Time)
    requires rate > 0 && start <= now <= d.at && d.n <= cfg.len
    requires Wait(rate, Counted(sent), Since(now, start) as real).None?
    ensures Paced(cfg, rate, start, sent + [d], |sent|)
  {
    CountedSnoc(sent, d);
    assert (sent + [d])[..|sent| + 1] == sent + [d] && (sent + [d])[|sent|] == d;
    NoWaitIff(rate, Counted(sent), now - start);
    AllowanceGrows(rate, Counted(sent), Counted(sent + [d]), now - start, d.at - start, cfg.len);
  }

  /** What the rate allowed at one time it allows later too, and one packet more. */
  lemma AllowanceGrows(rate: nat, before: nat, after: nat, elapsed: nat, later: nat, len: nat)
    requires 8_000_000_000 * before <= rate * elapsed && elapsed <= later && after <= before + len
    ensures WithinRate(rate, after, later, len)
  {
    MulMonotone(elapsed, later, rate);
  }

  lemma WithinRateLater(rate: nat, count: nat, elapsed: nat, later: nat, len: nat)
    requires WithinRate(rate, count, elapsed, len) && elapsed <= later
    ensures WithinRate(rate, count, later, len)
  {
    MulMonotone(elapsed, later, rate);
  }

  ghost predicate AllPaced(cfg: SendConfig, rate: nat, start: Time, sent: seq<Delivery>) {
    forall j :: 0 <= j < |sent| ==> Paced(cfg, rate, start, sent, j)
  }

  lemma PacedPrefix(cfg: SendConfig, rate: nat, start: Time, sent: seq<Delivery>, d: Delivery)
    ensures AllPaced(cfg, rate, start, sent + [d]) <==>
            AllPaced(cfg, rate, start, sent) && Paced(cfg, rate, start, sent + [d], |sent|)
  {
    forall j | 0 <= j < |sent|
      ensures Paced(cfg, rate, start, sent + [d], j) <==> Paced(cfg, rate, start, sent, j)
    {
      assert (sent + [d])[..j + 1] == sent[..j + 1];
    }
  }

  lemma {:induction false} EverySendIsPaced(cfg: SendConfig, rate: nat, start: Time, script: seq<UdpTick>)
    requires ValidScript(cfg, script) && HonestClock(cfg, rate, start, script) && rate > 0
    ensures AllPaced(cfg, rate, start, RunUdp(cfg, rate, start, script).sent)
  {
    if script != [] {
      var init, t := script[..|script| - 1], script[|script| - 1];
      HonestPrefix(cfg, rate, start, script);
      EverySendIsPaced(cfg, rate, start, init);
      var before := RunUdp(cfg, rate, start, init);
      if before.exit.None?
         && Stops(cfg, start, Total(before.sent), t.timerAt).None?
         && Wait(rate, Counted(before.sent), Since(t.now, start) as real).None?
         && t.outcome.Sent?
      {
        var d := Delivery(t.outcome.n, t.outcome.at);
        PacedSend(cfg, rate, start, before.sent, d, t.now);
        PacedPrefix(cfg, rate, start, before.sent, d);
      }
    }
  }

  lemma HonestPrefix(cfg: SendConfig, rate: nat, start: Time, script: seq<UdpTick>)
    requires ValidScript(cfg, script) && HonestClock(cfg, rate, start, script) && script != []
    ensures HonestClock(cfg, rate, start, script[..|script| - 1])
  {
    var init := script[..|script| - 1];
    forall i | 0 <= i < |init| - 1 ensures SleepHonoured(cfg, rate, start, init, i) {
      assert SleepHonoured(cfg, rate, start, script, i);
      assert init[..i] == script[..i] && init[..i + 1] == script[..i + 1];
    }
  }

  /** The deliveries made by time `t`. */
  function SentBy(sent: seq<Delivery>, t: Time): seq<Delivery> {
    if sent == [] then []
    else if sent[|sent| - 1].at <= t then sent
    else SentBy(sent[..|sent| - 1], t)
  }

  lemma {:induction false} PacedAt(cfg: SendConfig, rate: nat, start: Time, sent: seq<Delivery>, t: Time)
    requires t >= start && AllPaced(cfg, rate, start, sent)
    ensures WithinRate(rate, Counted(SentBy(sent, t)), t - start, cfg.len)
  {
    if sent == [] {
      assert Sizes([]) == [];
    } else if sent[|sent| - 1].at <= t {
      assert Paced(cfg, rate, start, sent, |sent| - 1);
      assert sent[..|sent|] == sent;
      WithinRateLater(rate, Counted(sent), sent[|sent| - 1].at - start, t - start, cfg.len);
    } else {
      var init, d := sent[..|sent| - 1], sent[|sent| - 1];
      assert sent == init + [d];
      PacedPrefix(cfg, rate, start, init, d);
      PacedAt(cfg, rate, start, init, t);
    }
  }

  /** At every instant the bytes the bucket has counted are at most what the rate allows in the time since
      the start, plus one packet; and these are the bytes sent, as long as they fit the bucket's u64. */
  lemma PacingBound(cfg: SendConfig, rate: nat, start: Time, script: seq<UdpTick>, t: Time)
    requires ValidScript(cfg, script) && HonestClock(cfg, rate, start, script)
    requires rate > 0 && t >= start
    ensures var sent := SentBy(RunUdp(cfg, rate, start, script).sent, t);
            && 8_000_000_000 * Counted(sent) <= rate * (t - start) + 8_000_000_000 * cfg.len
            && (Total(sent) <= U64_MAX ==>
                  8_000_000_000 * Total(sent) <= rate * (t - start) + 8_000_000_000 * cfg.len)
  {
    EverySendIsPaced(cfg, rate, start, script);
    PacedAt(cfg, rate, start, RunUdp(cfg, rate, start, script).sent, t);
  }
}
