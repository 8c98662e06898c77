/** The client's loop as an object that changes in place. Each method takes the step of the same name in
    the protocol model, and `RunClient` puts them together while the other processes run. */
module ClientLoop {
  import opened Wire
  import opened ControlProtocol
  import opened ControlLiveness

  /** The next message, if any, is the one the script has next, and the client waits for results
      exactly when those come next. */
  predicate OnScript(s: State) {
    && (s.clientRead < |s.serverLog| ==> ServerSays(s.clientRead, s.serverLog[s.clientRead]))
    && (s.cpc == ReadResults <==> s.clientRead == 5)
  }

  /** In every run the next message is on script, and whatever the client is about to answer to
      ExchangeResults covers every stream exactly once, in full. */
  lemma NextMessage(p: Params, schedule: nat -> Proc, k: nat)
    requires ValidParams(p)
    ensures var s := After(p, schedule, k);
            && OnScript(s)
            && (s.cpc == Poll && ClientStep(p, s).cpc == ReadResults ==> Complete(p.work, s.reported))
  {
    AlwaysInv(p, schedule, k);
    var s := After(p, schedule, k);
    if s.cpc == Poll && s.clientRead < |s.serverLog| && ClientStep(p, s).cpc == ReadResults {
      assert ServerSays(s.clientRead, s.serverLog[s.clientRead]);
      AllReported(p, s);
      ReportedIsComplete(p.work, s.streams, s.reported);
    }
  }

  /** The other messages change nothing but where the client is. */
  lemma OtherMessage(s: State, message: Message)
    requires message !in {ParamExchange, Message.CreateStreams, ExchangeResults, DisplayResults}
    ensures Handle(s, message) == s.(cpc := Handle(s, message).cpc)
  {}

  /** A client that is denied access sends nothing more and ends its loop. */
  lemma DeniedClientLeaves(p: Params, s: State)
    requires s.cpc == Poll && s.clientRead < |s.serverLog| && s.serverLog[s.clientRead] == Ctl(AccessDenied)
    ensures var s' := ClientStep(p, s);
            && s'.cpc == FinalDrain && s'.clientLog == s.clientLog && s'.streams == s.streams
            && ClientStep(p, s').cpc == ClientDone && ClientStep(p, s').clientLog == s.clientLog
  {}

  /** The four messages a client answers. */
  predicate Answered(m: Message) {
    m in {ParamExchange, Message.CreateStreams, ExchangeResults, DisplayResults}
  }

  /** Any other message is read and changes nothing else; it ends the loop exactly when it is IperfDone or
      AccessDenied. SetDataPort, which a TCP test does not use, is not modelled. */
  lemma OtherMessages(p: Params, s: State, m: Message)
    requires s.cpc == Poll && s.clientRead < |s.serverLog| && s.serverLog[s.clientRead] == Ctl(m)
    requires !Answered(m) && m != SetDataPort
    ensures ClientStep(p, s) ==
            s.(clientRead := s.clientRead + 1,
               cpc := if m == IperfDone || m == AccessDenied then FinalDrain else ControlProtocol.Drain)
  {}

  class Client {
    const parallel: nat
    // What has arrived on the control channel and on the stream threads' two queues.
    var inbox: seq<Msg>
    var receiptQueue: seq<Entry>
    var endSignals: nat
    // The loop's own state.
    var outbox: seq<Msg>
    var receipts: seq<Entry>
    var streamsFinished: nat
    var testEndSent: bool
    var streamsCreated: bool

    constructor (parallel: nat)
      ensures this.parallel == parallel
      ensures forall p: Params :: |p.work| == parallel ==> Models(Init(p))
    {
      this.parallel := parallel;
      inbox, receiptQueue, endSignals := [], [], 0;
      outbox, receipts := [], [];
      streamsFinished, testEndSent, streamsCreated := 0, false, false;
    }

    /** This object is the client of state `s` of the protocol. */
    ghost predicate Models(s: State)
      reads this
    {
      && s.clientRead <= |s.serverLog| && inbox == s.serverLog[s.clientRead..]
      && s.drained <= |s.reported| && receiptQueue == s.reported[s.drained..]
      && receipts == s.reported[..s.drained]
      && s.finished <= s.signals && endSignals == s.signals - s.finished
      && outbox == s.clientLog
      && streamsFinished == s.finished
      && testEndSent == s.testEndSent
      && parallel == |s.streams|
      && (forall i :: 0 <= i < |s.streams| ==> (s.streams[i].phase != NotStarted) == streamsCreated)
    }

    /** Take everything off the receipt queue. */
    method DrainReceipts()
      modifies this`receiptQueue, this`receipts
      ensures receiptQueue == [] && receipts == old(receipts) + old(receiptQueue)
    {
      while receiptQueue != []
        invariant receipts + receiptQueue == old(receipts) + old(receiptQueue)
        decreases |receiptQueue|
      {
        receipts := receipts + [receiptQueue[0]];
        receiptQueue := receiptQueue[1..];
      }
    }

    method Drain(ghost p: Params, ghost s: State)
      requires Models(s) && s.cpc == ControlProtocol.Drain
      modifies this`receiptQueue, this`receipts
      ensures Models(ClientStep(p, s)) && ClientStep(p, s).cpc == ControlProtocol.TryRecv
    {
      DrainReceipts();
    }

    /** Count one finished stream, and send TestEnd with the last of them. */
    method TryRecv(ghost p: Params, ghost s: State)
      requires Models(s) && |p.work| == parallel && s.cpc == ControlProtocol.TryRecv
      modifies this
      ensures Models(ClientStep(p, s)) && ClientStep(p, s).cpc == Poll
    {
      if endSignals > 0 {
        endSignals := endSignals - 1;
        streamsFinished := streamsFinished + 1;
        if streamsFinished >= parallel && !testEndSent {
          outbox := outbox + [Ctl(TestEnd)];
          testEndSent := true;
        }
      }
    }

    method SendOptions(ghost s: State)
      requires Models(s)
      modifies this`outbox
      ensures Models(Handle(s, ParamExchange))
    {
      outbox := outbox + [Options];
    }

    method CreateStreams(ghost s: State)
      requires Models(s)
      modifies this`streamsCreated
      ensures Models(Handle(s, Message.CreateStreams))
    {
      streamsCreated := true;
    }

    /** Send all the receipts reported so far. */
    method SendResults(ghost s: State)
      requires Models(s)
      modifies this`receiptQueue, this`receipts, this`outbox
      ensures Models(Handle(s, ExchangeResults)) && outbox == old(outbox) + [Results(s.reported)]
    {
      DrainReceipts();
      assert receipts == s.reported[..s.drained] + s.reported[s.drained..] == s.reported;
      outbox := outbox + [Results(receipts)];
    }

    method SendIperfDone(ghost s: State)
      requires Models(s)
      modifies this`outbox
      ensures Models(Handle(s, DisplayResults))
    {
      outbox := outbox + [Ctl(IperfDone)];
    }

    /** Act on a control message that has just been read. */
    method HandleMessage(message: Message, ghost s: State) returns (done: bool, exchanging: bool)
      requires Models(s)
      modifies this
      ensures Models(Handle(s, message))
      ensures Handle(s, message).cpc
              == if done then FinalDrain else if exchanging then ReadResults else ControlProtocol.Drain
    {
      done := message == DisplayResults || message == IperfDone || message == AccessDenied;
      exchanging := message == ExchangeResults;
      if message == ParamExchange {
        SendOptions(s);
      } else if message == Message.CreateStreams {
        CreateStreams(s);
      } else if message == ExchangeResults {
        SendResults(s);
      } else if message == DisplayResults {
        SendIperfDone(s);
      } else {
        OtherMessage(s, message);
      }
    }

    /** One non-blocking look at the control channel: handle the next message, if there is one. */
    method Recv(ghost p: Params, ghost s: State) returns (done: bool, exchanging: bool)
      requires Models(s) && s.cpc == Poll && OnScript(s)
      modifies this
      ensures Models(ClientStep(p, s))
      ensures ClientStep(p, s).cpc == if done then FinalDrain else if exchanging then ReadResults else ControlProtocol.Drain
    {
      if inbox == [] {
        return false, false;
      }
      var message := inbox[0].message;
      inbox := inbox[1..];
      done, exchanging := HandleMessage(message, s.(clientRead := s.clientRead + 1));
    }

    /** The blocking read of the server's results, once they have arrived. */
    method ReadServerResults(ghost p: Params, ghost s: State) returns (server: seq<Entry>)
      requires Models(s) && s.cpc == ReadResults && OnScript(s) && inbox != []
      modifies this`inbox
      ensures Models(ClientStep(p, s))
      ensures Results(server) == s.serverLog[s.clientRead]
    {
      server := inbox[0].entries;
      inbox := inbox[1..];
    }

    /** The drain after the loop. */
    method FinalDrainReceipts(ghost p: Params, ghost s: State)
      requires Models(s) && s.cpc == FinalDrain
      modifies this`receiptQueue, this`receipts
      ensures Models(ClientStep(p, s)) && receipts == s.reported
    {
      DrainReceipts();
      assert receipts == s.reported[..s.drained] + s.reported[s.drained..] == s.reported;
    }

    /** What the other processes have done meanwhile shows in the client's queues. */
    method Notice(ghost before: State, now: State)
      requires Models(before) && Grown(before, now)
      modifies this`inbox, this`receiptQueue, this`endSignals
      ensures Models(now)
    {
      inbox := now.serverLog[now.clientRead..];
      receiptQueue := now.reported[now.drained..];
      endSignals := now.signals - now.finished;
    }
  }

  /** Only the queues towards the client have changed, and only by growing. */
  predicate Grown(s: State, s': State) {
    && s'.cpc == s.cpc && s'.clientRead == s.clientRead && s'.clientLog == s.clientLog
    && s'.drained == s.drained && s'.finished == s.finished && s'.testEndSent == s.testEndSent
    && s.serverLog <= s'.serverLog && s.reported <= s'.reported && s.signals <= s'.signals
    && |s'.streams| == |s.streams|
    && forall i :: 0 <= i < |s.streams| ==> (s'.streams[i].phase == NotStarted) == (s.streams[i].phase == NotStarted)
  }

  lemma ServerOnlyGrows(p: Params, s: State)
    ensures Grown(s, ServerStep(p, s))
  {}

  lemma ThreadOnlyGrows(p: Params, s: State, i: nat)
    ensures Grown(s, ThreadStep(p, s, i))
  {
    if ThreadStep(p, s, i) != s {
      ThreadEffects(p, s, i);
    }
  }

  lemma ReaderOnlyGrows(s: State, i: nat)
    ensures Grown(s, ReaderStep(s, i))
  {}

  lemma GrownTwice(s: State, s': State, s'': State)
    requires Grown(s, s') && Grown(s', s'')
    ensures Grown(s, s'')
  {}

  /** One step of another process. */
  method OtherStep(p: Params, schedule: nat -> Proc, ghost run: nat -> State, k: nat, s: State) returns (s': State)
    requires Run(p, schedule, run) && s == run(k) && schedule(k) != ClientProc
    ensures s' == run(k + 1) && Grown(s, s')
  {
    assert RunStep(p, schedule, run, k);
    s' := Step(p, s, schedule(k));
    match schedule(k) {
      case ServerProc => ServerOnlyGrows(p, s);
      case ThreadProc(i) => ThreadOnlyGrows(p, s, i);
      case ReaderProc(i) => ReaderOnlyGrows(s, i);
    }
  }

  /** The other processes run until the client's next turn. */
  method OthersRun(p: Params, schedule: nat -> Proc, ghost run: nat -> State, k: nat, s: State)
    returns (k': nat, s': State)
    requires Fair(p, schedule) && Run(p, schedule, run) && s == run(k)
    ensures k' >= k && schedule(k') == ClientProc && s' == run(k') && Grown(s, s')
  {
    k', s' := k, s;
    assert HasTurn(schedule, ClientProc, k);
    ghost var turn: nat :| k <= turn && schedule(turn) == ClientProc;
    while schedule(k') != ClientProc
      invariant k <= k' <= turn && s' == run(k') && Grown(s, s')
      decreases turn - k'
    {
      var next := OtherStep(p, schedule, run, k', s');
      GrownTwice(s, s', next);
      k', s' := k' + 1, next;
    }
  }

  method AwaitTurn(client: Client, p: Params, schedule: nat -> Proc, ghost run: nat -> State, k: nat, s: State)
    returns (k': nat, s': State)
    requires Fair(p, schedule) && Run(p, schedule, run) && s == run(k) && client.Models(s)
    modifies client
    ensures k' >= k && schedule(k') == ClientProc && s' == run(k')
    ensures Grown(s, s') && client.Models(s')
  {
    k', s' := OthersRun(p, schedule, run, k, s);
    client.Notice(s, s');
  }

  /** The client's own step, once its turn has come. */
  lemma OwnStep(p: Params, schedule: nat -> Proc, run: nat -> State, k: nat, s: State)
    requires Run(p, schedule, run) && s == run(k) && schedule(k) == ClientProc
    ensures run(k + 1) == ClientStep(p, s) && Inv(p, s) && OnScript(s)
  {
    assert RunStep(p, schedule, run, k);
  }

  /** A client that is done stays done. */
  lemma {:induction false} DoneStays(p: Params, schedule: nat -> Proc, run: nat -> State, end: nat, k: nat)
    requires Run(p, schedule, run) && run(end).cpc == ClientDone && end <= k
    ensures run(k).cpc == ClientDone
    decreases k
  {
    if end < k {
      DoneStays(p, schedule, run, end, k - 1);
      DoneStaysStep(p, schedule, run, k - 1);
    }
  }

  lemma DoneStaysStep(p: Params, schedule: nat -> Proc, run: nat -> State, k: nat)
    requires Run(p, schedule, run) && run(k).cpc == ClientDone
    ensures run(k + 1).cpc == ClientDone
  {
    assert RunStep(p, schedule, run, k);
    match schedule(k) {
      case ServerProc => ServerOnlyGrows(p, run(k));
      case ClientProc =>
      case ThreadProc(i) => ThreadOnlyGrows(p, run(k), i);
      case ReaderProc(i) => ReaderOnlyGrows(run(k), i);
    }
  }

  /** A turn at the blocking read: while nothing has arrived, it changes nothing. */
  method ReadTurn(client: Client, p: Params, schedule: nat -> Proc, ghost run: nat -> State, k: nat, s: State)
    returns (k': nat, s': State)
    requires Fair(p, schedule) && Run(p, schedule, run) && s == run(k) && client.Models(s) && s.cpc == ReadResults
    modifies client
    ensures k' >= k && s' == run(k') && client.Models(s') && s'.cpc == ReadResults && OnScript(s')
    ensures run(k' + 1) == if client.inbox == [] then s' else ClientStep(p, s')
  {
    k', s' := AwaitTurn(client, p, schedule, run, k, s);
    OwnStep(p, schedule, run, k', s');
  }

  /** The blocking read of the server's results in the middle of `exchange_results`. */
  method AwaitResults(
    client: Client, p: Params, schedule: nat -> Proc, ghost run: nat -> State, k: nat, s: State, ghost end: nat)
    returns (k': nat, s': State)
    requires Fair(p, schedule) && Run(p, schedule, run) && s == run(k) && client.Models(s)
    requires s.cpc == ReadResults && run(end).cpc == ClientDone
    modifies client
    ensures k' > k && s' == run(k') && client.Models(s') && s'.cpc == Drain
  {
    k', s' := ReadTurn(client, p, schedule, run, k, s);
    while client.inbox == []
      invariant k' >= k && s' == run(k') && client.Models(s') && s'.cpc == ReadResults && OnScript(s')
      invariant run(k' + 1) == if client.inbox == [] then s' else ClientStep(p, s')
      decreases end - k'
    {
      NotDoneYet(p, schedule, run, end, k');
      k', s' := ReadTurn(client, p, schedule, run, k' + 1, s');
    }
    var _ := client.ReadServerResults(p, s');
    k', s' := k' + 1, ClientStep(p, s');
  }

  /** One look at the control channel. */
  method RecvTurn(client: Client, p: Params, schedule: nat -> Proc, ghost run: nat -> State, k: nat, s: State)
    returns (k': nat, s': State, done: bool, exchanging: bool)
    requires Fair(p, schedule) && Run(p, schedule, run) && s == run(k) && client.Models(s) && s.cpc == Poll
    modifies client
    ensures k' > k && s' == run(k') && client.Models(s')
    ensures s'.cpc == if done then FinalDrain else if exchanging then ReadResults else ControlProtocol.Drain
  {
    k', s' := AwaitTurn(client, p, schedule, run, k, s);
    OwnStep(p, schedule, run, k', s');
    done, exchanging := client.Recv(p, s');
    k', s' := k' + 1, ClientStep(p, s');
  }

  method DrainTurn(client: Client, p: Params, schedule: nat -> Proc, ghost run: nat -> State, k: nat, s: State)
    returns (k': nat, s': State)
    requires Fair(p, schedule) && Run(p, schedule, run) && s == run(k) && client.Models(s) && s.cpc == Drain
    modifies client
    ensures k' > k && s' == run(k') && client.Models(s') && s'.cpc == TryRecv
  {
    k', s' := AwaitTurn(client, p, schedule, run, k, s);
    OwnStep(p, schedule, run, k', s');
    client.Drain(p, s');
    k', s' := k' + 1, ClientStep(p, s');
  }

  method CountTurn(client: Client, p: Params, schedule: nat -> Proc, ghost run: nat -> State, k: nat, s: State)
    returns (k': nat, s': State)
    requires Fair(p, schedule) && Run(p, schedule, run) && s == run(k) && client.Models(s) && s.cpc == TryRecv
    requires |p.work| == client.parallel
    modifies client
    ensures k' > k && s' == run(k') && client.Models(s') && s'.cpc == Poll
  {
    k', s' := AwaitTurn(client, p, schedule, run, k, s);
    OwnStep(p, schedule, run, k', s');
    client.TryRecv(p, s');
    k', s' := k' + 1, ClientStep(p, s');
  }

  /** By the time the client leaves its loop every thread has reported. */
  lemma EverythingReported(p: Params, s: State)
    requires Inv(p, s) && s.cpc == FinalDrain
    ensures Complete(p.work, s.reported)
  {
    AllReported(p, s);
    ReportedIsComplete(p.work, s.streams, s.reported);
  }

  method FinalTurn(client: Client, p: Params, schedule: nat -> Proc, ghost run: nat -> State, k: nat, s: State)
    returns (k': nat)
    requires Fair(p, schedule) && Run(p, schedule, run) && s == run(k) && client.Models(s) && s.cpc == FinalDrain
    modifies client
    ensures client.Models(run(k')) && run(k').cpc == ClientDone && Complete(p.work, client.receipts)
  {
    var s': State;
    k', s' := AwaitTurn(client, p, schedule, run, k, s);
    OwnStep(p, schedule, run, k', s');
    client.FinalDrainReceipts(p, s');
    EverythingReported(p, s');
    k' := k' + 1;
  }

  /** The loop itself. `end` is a moment by which it has ended. */
  method Loop(client: Client, p: Params, schedule: nat -> Proc, ghost run: nat -> State, ghost end: nat) returns (k: nat)
    requires Fair(p, schedule) && Run(p, schedule, run) && run(0) == Init(p) && client.Models(run(0))
    requires |p.work| == client.parallel && run(end).cpc == ClientDone
    modifies client
    ensures client.Models(run(k)) && run(k).cpc == ClientDone && Complete(p.work, client.receipts)
  {
    k := 0;
    var s := Init(p);
    while true
      invariant s == run(k) && client.Models(s) && s.cpc == Poll
      decreases end - k
    {
      NotDoneYet(p, schedule, run, end, k);
      var done, exchanging: bool;
      k, s, done, exchanging := RecvTurn(client, p, schedule, run, k, s);
      if done {
        break;
      }
      if exchanging {
        k, s := AwaitResults(client, p, schedule, run, k, s, end);
      }
      k, s := DrainTurn(client, p, schedule, run, k, s);
      k, s := CountTurn(client, p, schedule, run, k, s);
    }
    k := FinalTurn(client, p, schedule, run, k, s);
  }

  lemma NotDoneYet(p: Params, schedule: nat -> Proc, run: nat -> State, end: nat, k: nat)
    requires Run(p, schedule, run) && run(end).cpc == ClientDone && run(k).cpc != ClientDone
    ensures k < end
  {
    if end <= k {
      DoneStays(p, schedule, run, end, k);
    }
  }

  /** `client_loop`: with every process getting its turns, the loop ends, and then the client holds one
      receipt for every stream, each in full. */
  method RunClient(p: Params, schedule: nat -> Proc) returns (client: Client, k: nat)
    requires ValidParams(p) && Fair(p, schedule)
    ensures fresh(client) && client.Models(After(p, schedule, k)) && After(p, schedule, k).cpc == ClientDone
    ensures Complete(p.work, client.receipts)
  {
    ghost var run := Trace(p, schedule);
    forall j: nat ensures RunStep(p, schedule, run, j) {
      TraceStep(p, schedule, j);
    }
    ghost var end := FairRunsFinish(p, schedule);
    client := new Client(|p.work|);
    k := Loop(client, p, schedule, run, end);
  }
}
