/** The TCP data-stream loops, receiving and sending with limits, and the limit checks that UDP shares.
    A loop is driven by a script of what each iteration observes. A script is any finite prefix
    of a run, so what holds of every script holds at every moment of every run. */
module Streams {
  import opened Common
  import opened Receipts
  import opened Interval

  const SECOND: nat := 1_000_000_000

  // ----- Receiving -----

  datatype RecvEvent = Data(n: nat, at: Time) | Interrupted | RecvError

  /** What the receive loop counts: the reads before the end of stream (a read of zero bytes or
      the end of the script) or the first error. */
  function Deliveries(script: seq<RecvEvent>): seq<Delivery> {
    if script == [] then []
    else match script[0]
         case Data(n, at) => if n == 0 then [] else [Delivery(n, at)] + Deliveries(script[1..])
         case Interrupted => Deliveries(script[1..])
         case RecvError => []
  }

  lemma {:induction false} DeliveriesPositive(script: seq<RecvEvent>)
    ensures forall i :: 0 <= i < |Deliveries(script)| ==> Deliveries(script)[i].n > 0
  {
    if script != [] {
      DeliveriesPositive(script[1..]);
    }
  }

  /** The reads of `script` that carried bytes. */
  function Reads(script: seq<RecvEvent>): seq<Delivery> {
    if script == [] then []
    else
      var last := script[|script| - 1];
      Reads(script[..|script| - 1]) + if last.Data? && last.n > 0 then [Delivery(last.n, last.at)] else []
  }

  predicate EndsStream(e: RecvEvent) {
    e.RecvError? || (e.Data? && e.n == 0)
  }

  lemma {:induction false} ReadsFront(e: RecvEvent, rest: seq<RecvEvent>)
    ensures Reads([e] + rest) == Reads([e]) + Reads(rest)
  {
    if rest != [] {
      assert ([e] + rest)[..|rest|] == [e] + rest[..|rest| - 1];
      ReadsFront(e, rest[..|rest| - 1]);
    } else {
      assert [e] + rest == [e];
    }
  }

  lemma ReceivedNext(script: seq<RecvEvent>, k: nat)
    requires k < |script| && !EndsStream(script[0]) && Deliveries(script[1..]) == Reads(script[1..][..k])
    ensures Deliveries(script) == Reads(script[..k + 1])
  {
    var e, rest := script[0], script[1..][..k];
    assert script[..k + 1] == [e] + rest;
    ReadsFront(e, rest);
    assert [e][..0] == [];
  }

  /** The stream goes on up to read `k`, which ends it unless the script does. */
  ghost predicate EndsAt(script: seq<RecvEvent>, k: nat) {
    && k <= |script| && (forall i :: 0 <= i < k ==> !EndsStream(script[i]))
    && (k < |script| ==> EndsStream(script[k]))
  }

  lemma EndsNext(script: seq<RecvEvent>, k: nat)
    requires script != [] && !EndsStream(script[0]) && EndsAt(script[1..], k)
    ensures EndsAt(script, k + 1)
  {
    forall i | 0 <= i < k + 1 ensures !EndsStream(script[i]) {
      assert i > 0 ==> script[i] == script[1..][i - 1];
    }
  }

  /** What is received is every read that carried bytes, up to the first empty read or error; an
      interrupted read ends nothing. */
  lemma {:induction false} ReceivedUntilEnd(script: seq<RecvEvent>) returns (k: nat)
    ensures EndsAt(script, k) && Deliveries(script) == Reads(script[..k])
  {
    if script == [] || EndsStream(script[0]) {
      k := 0;
    } else {
      k := ReceivedUntilEnd(script[1..]);
      EndsNext(script, k);
      ReceivedNext(script, k);
      k := k + 1;
    }
  }

  /** With a clock that does not run backwards the receipt of `RecvStreamBytes` is in order, and it says
      that something was measured exactly when it counts measured bytes. */
  lemma ReceivedIsOrdered(script: seq<RecvEvent>, omit: nat)
    ensures var r := AccountAll(Deliveries(script), omit);
            Monotone(Deliveries(script)) ==>
              Ordered(r, omit) && (BytesMeasured(r) > 0 <==> r.firstMeasuredAt.Some?)
  {
    DeliveriesPositive(script);
    if Monotone(Deliveries(script)) {
      ReceiptOrdered(Deliveries(script), omit);
    }
  }

  /** A loop's receipt and rows agree with the deliveries `ds` it has seen. A loop without a
      reporter prints no rows. */
  ghost predicate Tracks(reporter: IntervalReporter?, receipt: Receipt, rows: seq<Snapshot>, ds: seq<Delivery>, omit: nat)
    reads reporter
  {
    && receipt == AccountAll(ds, omit)
    && (reporter == null ==> rows == [])
    && (reporter != null ==>
          reporter.Valid() && (reporter.State(), rows) == Report(ds, reporter.streamId, reporter.interval))
  }

  /** What every loop does with a delivery: account for it and print the row it closes, if any. */
  method Track(
    reporter: IntervalReporter?, receipt: Receipt, rows: seq<Snapshot>, d: Delivery, omit: nat, ghost ds: seq<Delivery>)
    returns (receipt': Receipt, rows': seq<Snapshot>)
    requires Tracks(reporter, receipt, rows, ds, omit)
    modifies reporter
    ensures Tracks(reporter, receipt', rows', ds + [d], omit)
  {
    assert (ds + [d])[..|ds|] == ds;
    receipt', rows' := Account(receipt, d, omit), rows;
    if reporter != null {
      var snap := reporter.OnBytes(d.n, d.at);
      if snap.Some? {
        rows' := rows + [snap.value];
      }
    }
  }

  /** What the flushing loops do at the end: print the remainder, unless it is empty. */
  method Finish(reporter: IntervalReporter?, receipt: Receipt, rows: seq<Snapshot>, ghost ds: seq<Delivery>, ghost omit: nat)
    returns (rows': seq<Snapshot>)
    requires Tracks(reporter, receipt, rows, ds, omit)
    modifies reporter
    ensures rows' == if reporter == null then [] else Printed(ds, reporter.streamId, reporter.interval)
  {
    rows' := rows;
    if reporter != null && receipt.lastAt.Some? {
      var snap := reporter.Flush(receipt.lastAt.value);
      if snap.Some? && snap.value.bytes > 0 {
        rows' := rows + [snap.value];
      }
    }
  }

  lemma NextDelivery(ds: seq<Delivery>, script: seq<RecvEvent>, i: nat)
    requires i < |script|
    ensures ds + Deliveries(script[i..]) ==
            match script[i]
            case Data(n, at) => if n == 0 then ds else ds + [Delivery(n, at)] + Deliveries(script[i + 1..])
            case Interrupted => ds + Deliveries(script[i + 1..])
            case RecvError => ds
  {}

  /** Drain a data connection to its end. */
  method RecvStreamBytes(script: seq<RecvEvent>, omit: nat, reporter: IntervalReporter?)
    returns (receipt: Receipt, rows: seq<Snapshot>)
    requires reporter != null ==> reporter.State() == FRESH
    modifies reporter
    ensures receipt == AccountAll(Deliveries(script), omit)
    ensures rows == if reporter == null then [] else Printed(Deliveries(script), reporter.streamId, reporter.interval)
  {
    receipt, rows := EMPTY, [];
    ghost var ds: seq<Delivery> := [];
    assert script[0..] == script;
    var i, open := 0, true;
    while i < |script| && open
      invariant i <= |script|
      invariant Deliveries(script) == if open then ds + Deliveries(script[i..]) else ds
      invariant Tracks(reporter, receipt, rows, ds, omit)
    {
      NextDelivery(ds, script, i);
      match script[i] {
        case Data(n, now) =>
          if n == 0 {
            open := false;
          } else {
            receipt, rows := Track(reporter, receipt, rows, Delivery(n, now), omit, ds);
            ds := ds + [Delivery(n, now)];
          }
        case Interrupted =>
        case RecvError =>
          open := false;
      }
      i := i + 1;
    }
    assert script[|script|..] == [] && ds + [] == ds;
    rows := Finish(reporter, receipt, rows, ds, omit);
  }

  /** A loop's printed rows add up to the byte total of its receipt. */
  lemma RowsMatchReceipt(ds: seq<Delivery>, omit: nat, id: nat, interval: nat)
    ensures RowBytes(Printed(ds, id, interval)) == AccountAll(ds, omit).bytes
  {
    RowsConserveBytes(ds, id, interval);
    AccountedBytes(ds, omit);
  }

  // ----- Sending: what TCP and UDP share -----

  datatype SendConfig = SendConfig(
    len: nat,
    duration: nat,
    omit: nat,
    maxBytes: Option<nat>,
    maxBlocks: Option<nat>)

  datatype SendOutcome = Sent(n: nat, at: Time) | WouldBlock | SendFailed

  datatype SendExit = Elapsed | ByteLimit | BlockLimit | SendError

  /** The checks at the top of a send loop, in order. */
  function Stops(cfg: SendConfig, start: Time, bytes: nat, timerAt: Time): Option<SendExit>
    requires cfg.len > 0
  {
    if Since(timerAt, start) >= cfg.duration then Some(Elapsed)
    else if cfg.maxBytes.Some? && bytes >= cfg.maxBytes.value then Some(ByteLimit)
    else if cfg.maxBlocks.Some? && bytes / cfg.len >= cfg.maxBlocks.value then Some(BlockLimit)
    else None
  }

  /** A send loop's deliveries never go past a limit by more than one buffer, and an exit by a
      limit means that the limit was met: for blocks, met exactly. */
  ghost predicate WithinLimits(cfg: SendConfig, total: nat, exit: Option<SendExit>)
    requires cfg.len > 0
  {
    && (cfg.maxBytes.Some? ==> if cfg.maxBytes.value > 0 then total < cfg.maxBytes.value + cfg.len else total == 0)
    && (cfg.maxBlocks.Some? ==> total / cfg.len <= cfg.maxBlocks.value)
    && (exit == Some(ByteLimit) ==> cfg.maxBytes.Some? && total >= cfg.maxBytes.value)
    && (exit == Some(BlockLimit) ==> cfg.maxBlocks.Some? && total / cfg.len == cfg.maxBlocks.value)
  }

  lemma OneMoreBlock(total: nat, n: nat, len: nat, blocks: nat)
    requires len > 0 && n <= len && total / len < blocks
    ensures (total + n) / len <= blocks
  {
    var q := total / len;
    assert total < (q + 1) * len;
    assert total + n < (q + 2) * len by {
      assert (q + 2) * len == (q + 1) * len + len;
    }
    DivBound(total + n, len, q + 2);
  }

  lemma DivBound(x: nat, len: nat, k: nat)
    requires len > 0 && x < k * len
    ensures x / len < k
  {
    if x / len >= k {
      MulMonotone(k, x / len, len);
      assert false;
    }
  }

  lemma MulMonotone(a: nat, b: nat, len: nat)
    requires a <= b
    ensures a * len <= b * len
  {}

  lemma LimitsStep(cfg: SendConfig, start: Time, total: nat, timerAt: Time, n: nat)
    requires cfg.len > 0 && n <= cfg.len
    requires WithinLimits(cfg, total, None) && Stops(cfg, start, total, timerAt) == None
    ensures WithinLimits(cfg, total + n, None)
  {
    if cfg.maxBlocks.Some? {
      OneMoreBlock(total, n, cfg.len, cfg.maxBlocks.value);
    }
  }

  /** The test's time is over. */
  predicate TimeUp(cfg: SendConfig, start: Time, at: Time) {
    at >= start + cfg.duration || cfg.duration == 0
  }

  /** How an iteration ends that starts at `at` with `bytes` sent: its time is up, or else a limit is
      reached, or else the send fails, or else the loop goes on. */
  predicate EndsBy(cfg: SendConfig, start: Time, at: Time, bytes: nat, fails: bool, exit: Option<SendExit>)
    requires cfg.len > 0
  {
    var full := cfg.maxBytes.Some? && bytes >= cfg.maxBytes.value;
    var blocks := cfg.maxBlocks.Some? && bytes / cfg.len >= cfg.maxBlocks.value;
    && (exit == Some(Elapsed) <==> TimeUp(cfg, start, at))
    && (exit == Some(ByteLimit) <==> !TimeUp(cfg, start, at) && full)
    && (exit == Some(BlockLimit) <==> !TimeUp(cfg, start, at) && !full && blocks)
    && (exit == Some(SendError) <==> !TimeUp(cfg, start, at) && !full && !blocks && fails)
  }

  // ----- Sending TCP -----

  datatype SendTick = SendTick(timerAt: Time, outcome: SendOutcome)

  datatype TcpRun = TcpRun(sent: seq<Delivery>, exit: Option<SendExit>)

  function TcpStep(cfg: SendConfig, start: Time, run: TcpRun, t: SendTick): TcpRun
    requires cfg.len > 0
  {
    if run.exit.Some? then run
    else
      var stop := Stops(cfg, start, Total(run.sent), t.timerAt);
      if stop.Some? then run.(exit := stop)
      else match t.outcome
           case Sent(n, at) => if n > 0 then run.(sent := run.sent + [Delivery(n, at)]) else run
           case WouldBlock => run
           case SendFailed => run.(exit := Some(SendError))
  }

  function RunTcp(cfg: SendConfig, start: Time, script: seq<SendTick>): TcpRun
    requires cfg.len > 0
  {
    if script == [] then TcpRun([], None)
    else TcpStep(cfg, start, RunTcp(cfg, start, script[..|script| - 1]), script[|script| - 1])
  }

  /** Once the loop has left, nothing later in the script matters. */
  lemma {:induction false} RunTcpSettled(cfg: SendConfig, start: Time, script: seq<SendTick>, k: nat)
    requires cfg.len > 0 && k <= |script| && RunTcp(cfg, start, script[..k]).exit.Some?
    ensures RunTcp(cfg, start, script) == RunTcp(cfg, start, script[..k])
  {
    if k < |script| {
      assert script[..|script| - 1][..k] == script[..k];
      RunTcpSettled(cfg, start, script[..|script| - 1], k);
    } else {
      assert script[..k] == script;
    }
  }

  /** The non-zero successful sends, in order. */
  function Sends(script: seq<SendTick>): seq<Delivery> {
    if script == [] then []
    else
      var t := script[|script| - 1];
      Sends(script[..|script| - 1]) +
      if t.outcome.Sent? && t.outcome.n > 0 then [Delivery(t.outcome.n, t.outcome.at)] else []
  }

  /** How iteration `i` of a script ends, given the sends before it. */
  ghost predicate TcpEndsBy(cfg: SendConfig, start: Time, script: seq<SendTick>, i: nat, exit: Option<SendExit>)
    requires cfg.len > 0 && i < |script|
  {
    EndsBy(cfg, start, script[i].timerAt, Total(Sends(script[..i])), script[i].outcome.SendFailed?, exit)
  }

  /** A run sends exactly the script's sends before iteration `k`, the first that leaves the loop: by the
      clock if and only if its time is up, and so on. It has not left if there is no such iteration. */
  lemma {:induction false} TcpRunsUntil(cfg: SendConfig, start: Time, script: seq<SendTick>) returns (k: nat)
    requires cfg.len > 0
    ensures k <= |script| && RunTcp(cfg, start, script).sent == Sends(script[..k])
    ensures forall i :: 0 <= i < k ==> TcpEndsBy(cfg, start, script, i, None)
    ensures k < |script| ==> TcpEndsBy(cfg, start, script, k, RunTcp(cfg, start, script).exit)
    ensures k < |script| <==> RunTcp(cfg, start, script).exit.Some?
  {
    if script == [] {
      return 0;
    }
    var init := script[..|script| - 1];
    k := TcpRunsUntil(cfg, start, init);
    forall i | 0 <= i < k ensures TcpEndsBy(cfg, start, script, i, None) {
      TcpEndsSame(cfg, start, script, i, None);
    }
    if k < |init| {
      assert init[..k] == script[..k];
      TcpEndsSame(cfg, start, script, k, RunTcp(cfg, start, init).exit);
    } else {
      assert init[..k] == init;
      k := TcpLastStep(cfg, start, script);
    }
  }

  lemma TcpEndsSame(cfg: SendConfig, start: Time, script: seq<SendTick>, i: nat, exit: Option<SendExit>)
    requires cfg.len > 0 && i < |script| - 1
    ensures TcpEndsBy(cfg, start, script[..|script| - 1], i, exit) <==> TcpEndsBy(cfg, start, script, i, exit)
  {
    assert script[..|script| - 1][..i] == script[..i];
  }

  lemma TcpLastStep(cfg: SendConfig, start: Time, script: seq<SendTick>) returns (k: nat)
    requires cfg.len > 0 && script != []
    requires var run := RunTcp(cfg, start, script[..|script| - 1]);
             run.exit.None? && run.sent == Sends(script[..|script| - 1])
    ensures var run := RunTcp(cfg, start, script);
            && k == |script| - One(run.exit.Some?)
            && run.sent == Sends(script[..k])
            && TcpEndsBy(cfg, start, script, |script| - 1, run.exit)
  {
    assert script[..|script|] == script;
    k := if RunTcp(cfg, start, script).exit.Some? then |script| - 1 else |script|;
  }

  function One(b: bool): nat { if b then 1 else 0 }

  lemma {:induction false} AccountedBytes(ds: seq<Delivery>, omit: nat)
    ensures AccountAll(ds, omit).bytes == Total(ds)
  {
    if ds != [] {
      AccountedBytes(ds[..|ds| - 1], omit);
      TotalSnoc(ds[..|ds| - 1], ds[|ds| - 1]);
      assert ds == ds[..|ds| - 1] + [ds[|ds| - 1]];
    }
  }

  /** The client's TCP send loop. */
  method StartTcp(cfg: SendConfig, streamId: nat, json: bool, start: Time, script: seq<SendTick>)
    returns (receipt: Receipt, rows: seq<Snapshot>, exit: Option<SendExit>)
    requires cfg.len > 0
    ensures var run := RunTcp(cfg, start, script);
            && receipt == AccountAll(run.sent, cfg.omit)
            && exit == run.exit
            && rows == if json then [] else Printed(run.sent, streamId, 1_000_000_000)
  {
    var reporter: IntervalReporter? := null;
    if !json {
      reporter := new IntervalReporter(streamId, SECOND);
    }
    receipt, rows, exit := EMPTY, [], None;
    ghost var run := TcpRun([], None);
    var i := 0;
    while i < |script| && exit.None?
      invariant i <= |script|
      invariant run == RunTcp(cfg, start, script[..i]) && exit == run.exit
      invariant Tracks(reporter, receipt, rows, run.sent, cfg.omit)
    {
      var t := script[i];
      assert script[..i + 1][..i] == script[..i];
      AccountedBytes(run.sent, cfg.omit);
      exit := Stops(cfg, start, receipt.bytes, t.timerAt);
      if exit.None? {
        match t.outcome {
          case Sent(n, now) =>
            if n > 0 {
              receipt, rows := Track(reporter, receipt, rows, Delivery(n, now), cfg.omit, run.sent);
            }
          case WouldBlock =>
          case SendFailed => exit := Some(SendError);
        }
      }
      run := TcpStep(cfg, start, run, t);
      i := i + 1;
    }
    if exit.Some? {
      RunTcpSettled(cfg, start, script, i);
    } else {
      assert script[..i] == script;
    }
    rows := Finish(reporter, receipt, rows, run.sent, cfg.omit);
  }

  lemma {:induction false} TcpLimits(cfg: SendConfig, start: Time, script: seq<SendTick>)
    requires cfg.len > 0
    requires forall i :: 0 <= i < |script| && script[i].outcome.Sent? ==> script[i].outcome.n <= cfg.len
    ensures var run := RunTcp(cfg, start, script);
            WithinLimits(cfg, Total(run.sent), run.exit)
  {
    if script == [] {
      assert Sizes([]) == [];
      assert 0 / cfg.len == 0;
    } else {
      var init, t := script[..|script| - 1], script[|script| - 1];
      TcpLimits(cfg, start, init);
      var run := RunTcp(cfg, start, init);
      if run.exit.None? && Stops(cfg, start, Total(run.sent), t.timerAt).None? && t.outcome.Sent? && t.outcome.n > 0 {
        TotalSnoc(run.sent, Delivery(t.outcome.n, t.outcome.at));
        LimitsStep(cfg, start, Total(run.sent), t.timerAt, t.outcome.n);
      }
    }
  }
}
