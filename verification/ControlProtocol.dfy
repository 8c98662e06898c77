/** A forward TCP test between one client and one server: the control channel, the client's loop,
    its stream threads with their two queues, the data connections and the server's readers.
    The processes run interleaved in any order; each step is deterministic. */
module ControlProtocol {
  import opened Common
  import opened Wire

  /** `work[i]` is how many chunks stream `i` sends before its time is up; `room` is how many
      chunks a data connection buffers before its sender blocks. */
  datatype Params = Params(work: seq<nat>, room: nat)

  /** Valid options ask for at least one stream. */
  predicate ValidParams(p: Params) { |p.work| >= 1 && p.room >= 1 }

  /** A per-stream result: the stream's number, from 1, and its chunk count. */
  datatype Entry = Entry(id: nat, chunks: nat)

  /** What travels on the control channel. */
  datatype Msg = Ctl(message: Message) | Options | Results(entries: seq<Entry>)

  datatype Phase = NotStarted | Connecting | Sending | Reporting | Ending | Closing | Closed

  /** A data stream: the client thread's phase, chunks left to send and chunks sent; the chunks in
      flight; and the server reader's count and whether it has seen the end of the stream. */
  datatype Stream = Stream(phase: Phase, left: nat, sent: nat, buffered: nat, got: nat, eof: bool)

  /** The server's position, in program order. */
  datatype ServerPc =
    | SendParamExchange | RecvOptions | SendCreateStreams | AcceptStreams | SendTestStart
    | SendTestRunning | WaitTestEnd | JoinReaders | SendExchangeResults | SendResults
    | RecvResults | SendDisplayResults | WaitDone | ServerDone

  datatype ClientPc = Poll | Drain | TryRecv | ReadResults | FinalDrain | ClientDone

  /** Every queue is kept as a log of what was put in and a count of what was taken out: the two
      directions of the control channel, the connections waiting to be accepted (`connected`), and
      the client threads' two queues to the client loop (`reported` and `signals`). */
  datatype State = State(
    spc: ServerPc,
    serverLog: seq<Msg>,
    serverRead: nat,
    connected: seq<nat>,
    accepted: nat,
    cpc: ClientPc,
    clientLog: seq<Msg>,
    clientRead: nat,
    streams: seq<Stream>,
    reported: seq<Entry>,
    drained: nat,
    signals: nat,
    finished: nat,
    testEndSent: bool,
    built: Option<seq<Entry>>,
    fault: bool)

  datatype Proc = ServerProc | ClientProc | ThreadProc(i: nat) | ReaderProc(i: nat)

  function Init(p: Params): State {
    State(
      SendParamExchange, [], 0, [], 0, Poll, [], 0,
      seq(|p.work|, i requires 0 <= i < |p.work| => Stream(NotStarted, p.work[i], 0, 0, 0, false)),
      [], 0, 0, 0, false, None, false)
  }

  // ----- The server -----

  /** The server's per-stream results, numbered in the order the streams were accepted. */
  function ServerResults(s: State): seq<Entry> {
    seq(s.accepted, j requires 0 <= j < s.accepted =>
      Entry(j + 1, if j < |s.connected| && s.connected[j] < |s.streams| then s.streams[s.connected[j]].got else 0))
  }

  predicate AllEof(streams: seq<Stream>) {
    forall i :: 0 <= i < |streams| ==> streams[i].eof
  }

  /** What the server does in one step: where it goes, and what it sends, reads or accepts on the way. */
  datatype ServerAction = ServerAction(next: ServerPc, sends: Option<Msg>, takes: bool, accepts: bool, fails: bool)

  function Stay(pc: ServerPc): ServerAction { ServerAction(pc, None, false, false, false) }
  function Send(m: Msg, next: ServerPc): ServerAction { ServerAction(next, Some(m), false, false, false) }
  function Read(next: ServerPc): ServerAction { ServerAction(next, None, true, false, false) }
  function Fail(pc: ServerPc): ServerAction { ServerAction(pc, None, false, false, true) }

  function ServerAct(p: Params, s: State): ServerAction {
    var mail := s.serverRead < |s.clientLog|;
    match s.spc
    case SendParamExchange => Send(Ctl(ParamExchange), RecvOptions)
    case RecvOptions =>
      if !mail then Stay(s.spc)
      else if s.clientLog[s.serverRead].Options? then Read(SendCreateStreams)
      else Fail(s.spc)
    case SendCreateStreams => Send(Ctl(CreateStreams), AcceptStreams)
    case AcceptStreams =>
      if s.accepted >= |s.connected| then Stay(s.spc)
      else
        ServerAction(if s.accepted + 1 >= |p.work| then SendTestStart else AcceptStreams, None, false, true, false)
    case SendTestStart => Send(Ctl(TestStart), SendTestRunning)
    case SendTestRunning => Send(Ctl(TestRunning), WaitTestEnd)
    case WaitTestEnd =>
      if !mail then Stay(s.spc)
      else if !s.clientLog[s.serverRead].Ctl? then Fail(s.spc)
      else Read(if s.clientLog[s.serverRead].message == TestEnd then JoinReaders else WaitTestEnd)
    case JoinReaders => if AllEof(s.streams) then Stay(SendExchangeResults) else Stay(s.spc)
    case SendExchangeResults => Send(Ctl(ExchangeResults), SendResults)
    case SendResults => Send(Results(ServerResults(s)), RecvResults)
    case RecvResults =>
      if !mail then Stay(s.spc)
      else if s.clientLog[s.serverRead].Results? then Read(SendDisplayResults)
      else Fail(s.spc)
    case SendDisplayResults => Send(Ctl(DisplayResults), WaitDone)
    case WaitDone =>
      if !mail then Stay(s.spc)
      else if !s.clientLog[s.serverRead].Ctl? then Fail(s.spc)
      else
        var message := s.clientLog[s.serverRead].message;
        Read(if message == IperfDone || message == ClientTerminate then ServerDone else WaitDone)
    case ServerDone => Stay(s.spc)
  }

  function ServerStep(p: Params, s: State): State {
    var a := ServerAct(p, s);
    s.(spc := a.next,
       serverLog := if a.sends.Some? then s.serverLog + [a.sends.value] else s.serverLog,
       serverRead := s.serverRead + One(a.takes),
       accepted := s.accepted + One(a.accepts),
       fault := s.fault || a.fails)
  }

  // ----- The client loop -----

  function SendC(s: State, m: Msg, next: ClientPc): State {
    s.(clientLog := s.clientLog + [m], cpc := next)
  }

  function Drained(s: State): State {
    s.(drained := |s.reported|)
  }

  function Started(streams: seq<Stream>): (started: seq<Stream>)
    ensures |started| == |streams|
  {
    seq(|streams|, i requires 0 <= i < |streams| => streams[i].(phase := Connecting))
  }

  /** `handle_message_client`, after the message has been read. */
  function Handle(s: State, m: Message): State {
    match m
    case ParamExchange => SendC(s, Options, Drain)
    case CreateStreams => s.(streams := Started(s.streams), cpc := Drain)
    case ExchangeResults =>
      // The receipts are drained first, so the payload holds everything reported so far.
      SendC(Drained(s), Results(s.reported), ReadResults).(built := Some(s.reported))
    case DisplayResults => SendC(s, Ctl(IperfDone), FinalDrain)
    case IperfDone => s.(cpc := FinalDrain)
    case AccessDenied => s.(cpc := FinalDrain)
    case _ => s.(cpc := Drain)
  }

  function ClientStep(p: Params, s: State): State {
    match s.cpc
    case Poll =>
      if s.clientRead < |s.serverLog| then
        var m := s.serverLog[s.clientRead];
        if m.Ctl? then Handle(s.(clientRead := s.clientRead + 1), m.message) else s.(fault := true)
      else s.(cpc := Drain)
    case Drain => Drained(s).(cpc := TryRecv)
    case TryRecv =>
      if s.finished < s.signals then
        var s1 := s.(finished := s.finished + 1);
        if s1.finished >= |p.work| && !s.testEndSent
        then SendC(s1, Ctl(TestEnd), Poll).(testEndSent := true)
        else s1.(cpc := Poll)
      else s.(cpc := Poll)
    case ReadResults =>
      if s.clientRead < |s.serverLog| then
        if s.serverLog[s.clientRead].Results? then s.(clientRead := s.clientRead + 1, cpc := Drain)
        else s.(fault := true)
      else s
    case FinalDrain => Drained(s).(cpc := ClientDone)
    case ClientDone => s
  }

  // ----- The client's stream threads and the server's readers -----

  function SetStream(s: State, i: nat, t: Stream): State
    requires i < |s.streams|
  {
    s.(streams := s.streams[i := t])
  }

  /** What a thread does in one step: its stream afterwards, and which of its queues gets an entry. */
  datatype ThreadAction = ThreadAction(t: Stream, connects: bool, reports: bool, signals: bool)

  function ThreadAct(room: nat, t: Stream): ThreadAction {
    match t.phase
    case NotStarted => ThreadAction(t, false, false, false)
    case Connecting => ThreadAction(t.(phase := Sending), true, false, false)
    case Sending =>
      if t.left == 0 then ThreadAction(t.(phase := Reporting), false, false, false)
      else if t.buffered < room then
        ThreadAction(t.(left := t.left - 1, sent := t.sent + 1, buffered := t.buffered + 1), false, false, false)
      else ThreadAction(t, false, false, false)
    case Reporting => ThreadAction(t.(phase := Ending), false, true, false)
    case Ending => ThreadAction(t.(phase := Closing), false, false, true)
    case Closing => ThreadAction(t.(phase := Closed), false, false, false)
    case Closed => ThreadAction(t, false, false, false)
  }

  function ThreadStep(p: Params, s: State, i: nat): State {
    if i >= |s.streams| then s
    else
      var a := ThreadAct(p.room, s.streams[i]);
      s.(streams := if a.t == s.streams[i] then s.streams else s.streams[i := a.t],
         connected := if a.connects then s.connected + [i] else s.connected,
         reported := if a.reports then s.reported + [Entry(i + 1, a.t.sent)] else s.reported,
         signals := s.signals + One(a.signals))
  }

  /** Readers run from the time the server has announced the running test. */
  predicate ReadersRun(s: State) {
    match s.spc
    case WaitTestEnd => true
    case JoinReaders => true
    case _ => false
  }

  function ReaderStep(s: State, i: nat): State {
    if i >= |s.streams| || !ReadersRun(s) then s
    else
      var t := s.streams[i];
      if t.buffered > 0 then SetStream(s, i, t.(buffered := t.buffered - 1, got := t.got + 1))
      else if t.phase == Closed && !t.eof then SetStream(s, i, t.(eof := true))
      else s
  }

  function Step(p: Params, s: State, proc: Proc): State {
    match proc
    case ServerProc => ServerStep(p, s)
    case ClientProc => ClientStep(p, s)
    case ThreadProc(i) => ThreadStep(p, s, i)
    case ReaderProc(i) => ReaderStep(s, i)
  }

  /** The state after the first `k` steps of a schedule. */
  function After(p: Params, schedule: nat -> Proc, k: nat): State {
    if k == 0 then Init(p) else Step(p, After(p, schedule, k - 1), schedule(k - 1))
  }

  // ----- Where the two sides stand -----

  /** How many messages the server has sent when it is at a given place. */
  function SentAt(pc: ServerPc): nat {
    match pc
    case SendParamExchange => 0
    case RecvOptions => 1
    case SendCreateStreams => 1
    case AcceptStreams => 2
    case SendTestStart => 2
    case SendTestRunning => 3
    case WaitTestEnd => 4
    case JoinReaders => 4
    case SendExchangeResults => 4
    case SendResults => 5
    case RecvResults => 6
    case SendDisplayResults => 6
    case WaitDone => 7
    case ServerDone => 7
  }

  /** How many messages it has read by then. */
  function ReadAt(pc: ServerPc): nat {
    match pc
    case SendParamExchange => 0
    case RecvOptions => 0
    case SendCreateStreams => 1
    case AcceptStreams => 1
    case SendTestStart => 1
    case SendTestRunning => 1
    case WaitTestEnd => 1
    case JoinReaders => 2
    case SendExchangeResults => 2
    case SendResults => 2
    case RecvResults => 2
    case SendDisplayResults => 3
    case WaitDone => 3
    case ServerDone => 4
  }

  /** The server's side of the conversation. */
  predicate ServerSays(i: nat, m: Msg) {
    match i
    case 0 => m == Ctl(ParamExchange)
    case 1 => m == Ctl(CreateStreams)
    case 2 => m == Ctl(TestStart)
    case 3 => m == Ctl(TestRunning)
    case 4 => m == Ctl(ExchangeResults)
    case 5 => m.Results?
    case 6 => m == Ctl(DisplayResults)
    case _ => false
  }

  /** The client's side. */
  predicate ClientSays(i: nat, m: Msg) {
    match i
    case 0 => m == Options
    case 1 => m == Ctl(TestEnd)
    case 2 => m.Results?
    case 3 => m == Ctl(IperfDone)
    case _ => false
  }

  function One(b: bool): nat { if b then 1 else 0 }

  /** Both transcripts follow the script, each side has read what its place says, and the client
      has answered everything it has read. */
  ghost predicate TalkInv(s: State) {
    && !s.fault
    && |s.serverLog| == SentAt(s.spc)
    && (forall i :: 0 <= i < |s.serverLog| ==> ServerSays(i, s.serverLog[i]))
    && s.serverRead == ReadAt(s.spc) <= |s.clientLog|
    && s.clientRead <= |s.serverLog|
    && (forall i :: 0 <= i < |s.clientLog| ==> ClientSays(i, s.clientLog[i]))
    && |s.clientLog| == One(s.clientRead >= 1) + One(s.testEndSent) + One(s.clientRead >= 5) + One(s.clientRead >= 7)
    && (s.testEndSent ==> s.clientRead >= 2)
    && (s.clientRead >= 5 ==> s.testEndSent)
    && (s.cpc == ReadResults <==> s.clientRead == 5)
    && (s.cpc == FinalDrain || s.cpc == ClientDone <==> s.clientRead == 7)
  }

  // ----- The streams -----

  function Rank(ph: Phase): nat {
    match ph
    case NotStarted => 0
    case Connecting => 1
    case Sending => 2
    case Reporting => 3
    case Ending => 4
    case Closing => 5
    case Closed => 6
  }

  /** One stream conserves its chunks, in every phase. */
  ghost predicate StreamInv(t: Stream, work: nat, started: bool) {
    && (t.phase == NotStarted <==> !started)
    && t.sent + t.left == work
    && t.got + t.buffered == t.sent
    && (Rank(t.phase) < 2 ==> t.sent == 0)
    && (Rank(t.phase) > 2 ==> t.left == 0)
    && (t.eof ==> t.phase == Closed && t.buffered == 0)
  }

  ghost predicate StreamsInv(work: seq<nat>, streams: seq<Stream>, started: bool) {
    && |streams| == |work|
    && forall i :: 0 <= i < |streams| ==> StreamInv(streams[i], work[i], started)
  }

  /** The connections made are those of the streams that got past connecting, each once. */
  ghost predicate ConnectInv(streams: seq<Stream>, connected: seq<nat>) {
    && Distinct(connected)
    && (forall j :: 0 <= j < |connected| ==> HasConnected(streams, connected[j]))
    && (forall i :: 0 <= i < |streams| ==> Listed(streams, connected, i))
  }

  predicate HasConnected(streams: seq<Stream>, i: nat) {
    i < |streams| && Rank(streams[i].phase) >= 2
  }

  predicate Listed(streams: seq<Stream>, connected: seq<nat>, i: nat) {
    HasConnected(streams, i) ==> i in connected
  }

  /** The server accepts until it has as many streams as were asked for. */
  predicate AcceptInv(work: seq<nat>, spc: ServerPc, connected: seq<nat>, accepted: nat) {
    && accepted <= |connected|
    && (SentAt(spc) < 2 ==> accepted == 0)
    && (spc == AcceptStreams ==> accepted < |work|)
    && (SentAt(spc) >= 2 && spc != AcceptStreams ==> accepted >= |work|)
  }

  /** The receipts sent: one for each thread that has reported, with its final count. */
  ghost predicate ReceiptInv(work: seq<nat>, streams: seq<Stream>, reported: seq<Entry>) {
    && DistinctIds(reported)
    && (forall j :: 0 <= j < |reported| ==> EntryOk(work, streams, reported[j]))
    && (forall i :: 0 <= i < |streams| ==> Accounted(streams, reported, i))
  }

  predicate DistinctIds(all: seq<Entry>) {
    forall j, k :: 0 <= j < k < |all| ==> all[j].id != all[k].id
  }

  predicate EntryOk(work: seq<nat>, streams: seq<Stream>, e: Entry) {
    && 1 <= e.id <= |work| && e.id <= |streams|
    && e.chunks == work[e.id - 1]
    && Rank(streams[e.id - 1].phase) > 3
  }

  ghost predicate Accounted(streams: seq<Stream>, reported: seq<Entry>, i: nat)
    requires i < |streams|
  {
    Rank(streams[i].phase) > 3 ==> HasEntry(reported, i + 1)
  }

  ghost predicate HasEntry(all: seq<Entry>, id: nat) {
    exists j :: 0 <= j < |all| && all[j].id == id
  }

  /** Exactly one entry for each stream, with everything that stream sent. */
  ghost predicate Complete(work: seq<nat>, all: seq<Entry>) {
    && DistinctIds(all)
    && (forall j :: 0 <= j < |all| ==> 1 <= all[j].id <= |work| && all[j].chunks == work[all[j].id - 1])
    && (forall id :: 1 <= id <= |work| ==> HasEntry(all, id))
  }

  ghost predicate BuiltInv(work: seq<nat>, built: Option<seq<Entry>>, clientRead: nat) {
    && (built.Some? <==> clientRead >= 5)
    && (built.Some? ==> Complete(work, built.value))
  }

  /** The results on the wire: the client's are what it built, the server's are the full counts of
      the streams in the order it accepted them. */
  ghost predicate ExchangeInv(
    work: seq<nat>, serverLog: seq<Msg>, clientLog: seq<Msg>, connected: seq<nat>, built: Option<seq<Entry>>)
  {
    && (built.Some? ==> |clientLog| >= 3 && clientLog[2] == Results(built.value))
    && (|serverLog| >= 6 ==> serverLog[5].Results? && InAcceptOrder(work, connected, serverLog[5].entries))
  }

  ghost predicate InAcceptOrder(work: seq<nat>, connected: seq<nat>, entries: seq<Entry>) {
    && |work| <= |entries| <= |connected|
    && forall j :: 0 <= j < |entries| ==> connected[j] < |work| && entries[j] == Entry(j + 1, work[connected[j]])
  }

  function Ended(streams: seq<Stream>): nat {
    if streams == [] then 0
    else Ended(streams[..|streams| - 1]) + One(Rank(streams[|streams| - 1].phase) > 4)
  }

  /** Every end signal comes from a thread, and the one TestEnd goes out with the last of them. */
  ghost predicate EndInv(work: seq<nat>, streams: seq<Stream>, signals: nat, finished: nat, testEndSent: bool) {
    && signals == Ended(streams)
    && finished <= signals
    && (testEndSent <==> finished >= |work|)
  }

  /** Past the join, every reader has seen the end of its stream. */
  predicate JoinInv(spc: ServerPc, streams: seq<Stream>) {
    SentAt(spc) >= 5 || spc == SendExchangeResults ==> AllEof(streams)
  }

  ghost predicate Inv(p: Params, s: State) {
    && TalkInv(s)
    && StreamsInv(p.work, s.streams, s.clientRead >= 2)
    && ConnectInv(s.streams, s.connected)
    && AcceptInv(p.work, s.spc, s.connected, s.accepted)
    && ReceiptInv(p.work, s.streams, s.reported)
    && s.drained <= |s.reported|
    && BuiltInv(p.work, s.built, s.clientRead)
    && ExchangeInv(p.work, s.serverLog, s.clientLog, s.connected, s.built)
    && EndInv(p.work, s.streams, s.signals, s.finished, s.testEndSent)
    && JoinInv(s.spc, s.streams)
  }

  // ----- Every step keeps the invariant -----

  lemma {:induction false} EndedZero(streams: seq<Stream>)
    requires forall i :: 0 <= i < |streams| ==> Rank(streams[i].phase) <= 4
    ensures Ended(streams) == 0
  {
    if streams != [] {
      EndedZero(streams[..|streams| - 1]);
    }
  }

  lemma {:induction false} EndedUpdate(streams: seq<Stream>, i: nat, t: Stream)
    requires i < |streams|
    ensures Ended(streams[i := t]) + One(Rank(streams[i].phase) > 4) == Ended(streams) + One(Rank(t.phase) > 4)
  {
    var last := |streams| - 1;
    if i == last {
      assert streams[i := t][..last] == streams[..last];
    } else {
      assert streams[i := t][..last] == streams[..last][i := t];
      EndedUpdate(streams[..last], i, t);
    }
  }

  lemma {:induction false} EndedBound(streams: seq<Stream>)
    ensures Ended(streams) <= |streams|
    ensures Ended(streams) == |streams| <==> forall i :: 0 <= i < |streams| ==> Rank(streams[i].phase) > 4
  {
    if streams != [] {
      var init := streams[..|streams| - 1];
      EndedBound(init);
      assert (forall i :: 0 <= i < |streams| ==> Rank(streams[i].phase) > 4) <==>
             (forall i :: 0 <= i < |init| ==> Rank(init[i].phase) > 4) && Rank(streams[|streams| - 1].phase) > 4;
    }
  }

  lemma InitInv(p: Params)
    requires ValidParams(p)
    ensures Inv(p, Init(p))
  {
    EndedZero(Init(p).streams);
  }

  // The conversation

  /** Each of the server's actions is the one the script has at its place. */
  lemma ServerActs(p: Params, s: State)
    requires TalkInv(s)
    ensures var a := ServerAct(p, s);
            && !a.fails
            && (a.sends.Some? ==> ServerSays(|s.serverLog|, a.sends.value))
            && SentAt(a.next) == SentAt(s.spc) + One(a.sends.Some?)
            && ReadAt(a.next) == ReadAt(s.spc) + One(a.takes)
            && (a.takes ==> s.serverRead < |s.clientLog|)
  {
    if s.serverRead < |s.clientLog| {
      assert ClientSays(s.serverRead, s.clientLog[s.serverRead]);
    }
  }

  lemma ServerTalks(p: Params, s: State)
    requires TalkInv(s)
    ensures TalkInv(ServerStep(p, s))
  {
    ServerActs(p, s);
    var s' := ServerStep(p, s);
    forall i | 0 <= i < |s'.serverLog| ensures ServerSays(i, s'.serverLog[i]) {
      if i < |s.serverLog| {
        assert ServerSays(i, s.serverLog[i]);
      }
    }
  }

  lemma HandleTalks(s: State)
    requires TalkInv(s) && s.cpc == Poll && s.clientRead < |s.serverLog|
    ensures s.serverLog[s.clientRead].Ctl?
    ensures TalkInv(Handle(s.(clientRead := s.clientRead + 1), s.serverLog[s.clientRead].message))
  {}

  lemma ClientTalks(p: Params, s: State)
    requires TalkInv(s) && (s.finished < s.signals ==> s.clientRead >= 2) && |p.work| >= 1
    ensures TalkInv(ClientStep(p, s))
  {
    match s.cpc {
      case Poll =>
        if s.clientRead < |s.serverLog| {
          HandleTalks(s);
        }
      case ReadResults =>
        if s.clientRead < |s.serverLog| {
          assert ServerSays(s.clientRead, s.serverLog[s.clientRead]);
        }
      case _ =>
    }
  }

  // The server

  lemma ServerKeeps(p: Params, s: State)
    requires Inv(p, s)
    ensures Inv(p, ServerStep(p, s))
  {
    ServerTalks(p, s);
    ServerExchanges(p, s);
  }

  lemma ServerExchanges(p: Params, s: State)
    requires Inv(p, s)
    ensures var s' := ServerStep(p, s);
            ExchangeInv(p.work, s'.serverLog, s'.clientLog, s'.connected, s'.built)
  {
    if s.spc == SendResults {
      FinalCounts(p, s);
      assert ServerStep(p, s).serverLog[5] == Results(ServerResults(s));
    }
  }

  /** After the join the server has counted every chunk of every stream. */
  lemma FinalCounts(p: Params, s: State)
    requires Inv(p, s) && s.spc == SendResults
    ensures InAcceptOrder(p.work, s.connected, ServerResults(s))
  {}

  // The client

  /** Nothing has ended before the streams are created. */
  lemma NoneEnded(work: seq<nat>, streams: seq<Stream>)
    requires StreamsInv(work, streams, false)
    ensures Ended(streams) == 0
  {
    EndedZero(streams);
  }

  /** When the server has sent ExchangeResults, every thread has reported: it only got there after
      the TestEnd that the last thread's signal released. */
  lemma AllReported(p: Params, s: State)
    requires TalkInv(s) && |s.streams| == |p.work| && SentAt(s.spc) >= 5
    requires EndInv(p.work, s.streams, s.signals, s.finished, s.testEndSent)
    ensures s.testEndSent
    ensures forall i :: 0 <= i < |s.streams| ==> Rank(s.streams[i].phase) > 4
  {
    EndedBound(s.streams);
  }

  lemma ReportedIsComplete(work: seq<nat>, streams: seq<Stream>, reported: seq<Entry>)
    requires |streams| == |work| && ReceiptInv(work, streams, reported)
    requires forall i :: 0 <= i < |streams| ==> Rank(streams[i].phase) > 4
    ensures Complete(work, reported)
  {
    forall id | 1 <= id <= |work| ensures HasEntry(reported, id) {
      assert Accounted(streams, reported, id - 1);
    }
  }

  lemma StartStreams(work: seq<nat>, streams: seq<Stream>, connected: seq<nat>, reported: seq<Entry>)
    requires StreamsInv(work, streams, false) && ConnectInv(streams, connected) && ReceiptInv(work, streams, reported)
    ensures var started := Started(streams);
            && StreamsInv(work, started, true)
            && ConnectInv(started, connected)
            && ReceiptInv(work, started, reported)
            && Ended(started) == Ended(streams)
  {
    EndedZero(streams);
    EndedZero(Started(streams));
    assert |connected| > 0 ==> HasConnected(streams, connected[0]);
    assert |reported| > 0 ==> EntryOk(work, streams, reported[0]);
    assert connected == [] && reported == [];
    forall i | 0 <= i < |streams| ensures Accounted(Started(streams), reported, i) {}
    forall i | 0 <= i < |streams| ensures StreamInv(Started(streams)[i], work[i], true) {
      assert StreamInv(streams[i], work[i], false);
    }
  }

  /** Creating the streams keeps everything that is said of them. */
  lemma CreateKeeps(p: Params, s: State)
    requires Inv(p, s) && s.clientRead == 1
    requires TalkInv(Handle(s.(clientRead := 2), CreateStreams))
    ensures Inv(p, Handle(s.(clientRead := 2), CreateStreams))
  {
    StartStreams(p.work, s.streams, s.connected, s.reported);
    assert JoinInv(s.spc, Started(s.streams));
  }

  /** The results the client builds are complete. */
  lemma BuildKeeps(p: Params, s: State)
    requires Inv(p, s) && s.clientRead == 4 && SentAt(s.spc) >= 5
    requires TalkInv(Handle(s.(clientRead := 5), ExchangeResults))
    ensures Inv(p, Handle(s.(clientRead := 5), ExchangeResults))
  {
    AllReported(p, s);
    ReportedIsComplete(p.work, s.streams, s.reported);
  }

  lemma HandleKeeps(p: Params, s: State)
    requires Inv(p, s) && s.cpc == Poll && s.clientRead < |s.serverLog|
    ensures s.serverLog[s.clientRead].Ctl?
    ensures Inv(p, Handle(s.(clientRead := s.clientRead + 1), s.serverLog[s.clientRead].message))
  {
    HandleTalks(s);
    assert ServerSays(s.clientRead, s.serverLog[s.clientRead]);
    if s.clientRead == 1 {
      CreateKeeps(p, s);
    } else if s.clientRead == 4 {
      BuildKeeps(p, s);
    }
  }

  /** Counting a finished stream: TestEnd goes out with the last one, before any results. */
  lemma TryRecvKeeps(p: Params, s: State)
    requires EndInv(p.work, s.streams, s.signals, s.finished, s.testEndSent) && TalkInv(s)
    requires |s.streams| == |p.work| && s.cpc == TryRecv
    requires ExchangeInv(p.work, s.serverLog, s.clientLog, s.connected, s.built) && BuiltInv(p.work, s.built, s.clientRead)
    ensures var s' := ClientStep(p, s);
            && EndInv(p.work, s'.streams, s'.signals, s'.finished, s'.testEndSent)
            && ExchangeInv(p.work, s'.serverLog, s'.clientLog, s'.connected, s'.built)
  {}

  /** Outside message handling the client changes only its own counters and its outgoing messages. */
  predicate OnlyClient(s: State, s': State) {
    && s' == s.(cpc := s'.cpc, clientLog := s'.clientLog, clientRead := s'.clientRead,
                drained := s'.drained, finished := s'.finished, testEndSent := s'.testEndSent)
    && s'.drained <= |s.reported|
    && (s'.clientRead >= 2 <==> s.clientRead >= 2) && (s'.clientRead >= 5 <==> s.clientRead >= 5)
  }

  lemma ClientEffects(p: Params, s: State)
    requires TalkInv(s) && s.drained <= |s.reported| && !(s.cpc == Poll && s.clientRead < |s.serverLog|)
    ensures OnlyClient(s, ClientStep(p, s))
    ensures s.cpc != TryRecv ==>
              var s' := ClientStep(p, s);
              s'.clientLog == s.clientLog && s'.finished == s.finished && s'.testEndSent == s.testEndSent
  {}

  lemma ClientFrame(p: Params, s: State, s': State)
    requires Inv(p, s) && OnlyClient(s, s') && TalkInv(s')
    requires EndInv(p.work, s'.streams, s'.signals, s'.finished, s'.testEndSent)
    requires ExchangeInv(p.work, s'.serverLog, s'.clientLog, s'.connected, s'.built)
    ensures Inv(p, s')
  {}

  lemma ClientKeeps(p: Params, s: State)
    requires ValidParams(p) && Inv(p, s)
    ensures Inv(p, ClientStep(p, s))
  {
    if s.clientRead < 2 {
      NoneEnded(p.work, s.streams);
    }
    ClientTalks(p, s);
    if s.cpc == Poll && s.clientRead < |s.serverLog| {
      HandleKeeps(p, s);
    } else {
      ClientEffects(p, s);
      if s.cpc == TryRecv {
        TryRecvKeeps(p, s);
      }
      ClientFrame(p, s, ClientStep(p, s));
    }
  }

  // Threads and readers

  /** Replacing one stream, without connecting or reporting it, keeps what is said of all. */
  lemma SetStreamKeeps(
    work: seq<nat>, streams: seq<Stream>, i: nat, t: Stream, started: bool, connected: seq<nat>, reported: seq<Entry>)
    requires StreamsInv(work, streams, started) && ConnectInv(streams, connected) && ReceiptInv(work, streams, reported)
    requires i < |streams| && StreamInv(t, work[i], started)
    requires Rank(t.phase) >= Rank(streams[i].phase)
    ensures StreamsInv(work, streams[i := t], started)
    ensures Rank(streams[i].phase) >= 2 ==> ConnectInv(streams[i := t], connected)
    ensures Rank(t.phase) <= 3 || Rank(streams[i].phase) >= 4 ==> ReceiptInv(work, streams[i := t], reported)
  {
    var streams' := streams[i := t];
    forall j | 0 <= j < |connected| ensures HasConnected(streams', connected[j]) {
      assert HasConnected(streams, connected[j]);
    }
    forall k | 0 <= k < |streams| && Rank(streams[i].phase) >= 2 ensures Listed(streams', connected, k) {
      assert Listed(streams, connected, k);
    }
    forall j | 0 <= j < |reported| ensures EntryOk(work, streams', reported[j]) {
      assert EntryOk(work, streams, reported[j]);
    }
    forall k | 0 <= k < |streams| && (Rank(t.phase) <= 3 || Rank(streams[i].phase) >= 4)
      ensures Accounted(streams', reported, k)
    {
      assert Accounted(streams, reported, k);
    }
  }

  lemma ConnectOne(streams: seq<Stream>, i: nat, t: Stream, connected: seq<nat>)
    requires ConnectInv(streams, connected) && i < |streams|
    requires Rank(streams[i].phase) == 1 && Rank(t.phase) == 2
    ensures ConnectInv(streams[i := t], connected + [i])
  {
    var streams', connected' := streams[i := t], connected + [i];
    assert forall j :: 0 <= j < |connected| ==> HasConnected(streams, connected[j]);
    forall j | 0 <= j < |connected'| ensures HasConnected(streams', connected'[j]) {}
    forall k | 0 <= k < |streams'| ensures Listed(streams', connected', k) {
      assert Listed(streams, connected, k);
    }
  }

  lemma ReportOne(work: seq<nat>, streams: seq<Stream>, i: nat, t: Stream, reported: seq<Entry>)
    requires |streams| == |work| && ReceiptInv(work, streams, reported) && i < |streams|
    requires streams[i].phase == Reporting && t.phase == Ending && t.sent == work[i]
    ensures ReceiptInv(work, streams[i := t], reported + [Entry(i + 1, t.sent)])
  {
    var streams', reported' := streams[i := t], reported + [Entry(i + 1, t.sent)];
    assert forall j :: 0 <= j < |reported| ==> EntryOk(work, streams, reported[j]);
    forall j | 0 <= j < |reported'| ensures EntryOk(work, streams', reported'[j]) {}
    forall k | 0 <= k < |streams'| ensures Accounted(streams', reported', k) {
      assert Accounted(streams, reported, k);
      if k == i {
        assert reported'[|reported|].id == i + 1;
      } else if HasEntry(reported, k + 1) {
        var j :| 0 <= j < |reported| && reported[j].id == k + 1;
        assert reported'[j].id == k + 1;
      }
    }
  }

  /** A thread changes only the streams and its three queues, and only adds to the queues. */
  predicate OnlyThread(s: State, s': State) {
    && s' == s.(streams := s'.streams, connected := s'.connected, reported := s'.reported, signals := s'.signals)
    && s.connected <= s'.connected
    && |s.reported| <= |s'.reported|
    && s.signals <= s'.signals
  }

  lemma ThreadFrame(p: Params, s: State, s': State)
    requires Inv(p, s) && OnlyThread(s, s')
    requires StreamsInv(p.work, s'.streams, s.clientRead >= 2) && JoinInv(s.spc, s'.streams)
    requires ConnectInv(s'.streams, s'.connected) && ReceiptInv(p.work, s'.streams, s'.reported)
    requires s'.signals == Ended(s'.streams)
    ensures Inv(p, s')
  {}

  /** What a thread that moves does: its stream becomes `t`, and each queue it has reached gets one
      entry. */
  predicate ThreadEffect(s: State, s': State, i: nat, t: Stream) {
    && i < |s.streams|
    && OnlyThread(s, s')
    && s'.streams == s.streams[i := t]
    && var before := s.streams[i].phase;
    && before != NotStarted
    && Rank(before) <= Rank(t.phase) <= Rank(before) + 1
    && s'.connected == (if before == Connecting then s.connected + [i] else s.connected)
    && s'.reported == (if before == Reporting then s.reported + [Entry(i + 1, t.sent)] else s.reported)
    && s'.signals == s.signals + One(before == Ending)
    && (before != Sending ==> t.phase != before)
  }

  lemma ThreadEffects(p: Params, s: State, i: nat)
    requires ThreadStep(p, s, i) != s
    ensures i < |s.streams| == |ThreadStep(p, s, i).streams|
    ensures ThreadEffect(s, ThreadStep(p, s, i), i, ThreadStep(p, s, i).streams[i])
  {}

  lemma ThreadStream(p: Params, s: State, i: nat, work: nat, started: bool)
    requires i < |s.streams| && StreamInv(s.streams[i], work, started) && ThreadStep(p, s, i) != s
    ensures |ThreadStep(p, s, i).streams| == |s.streams|
    ensures StreamInv(ThreadStep(p, s, i).streams[i], work, started) && !s.streams[i].eof
  {}

  lemma EffectKeepsQueues(work: seq<nat>, s: State, s': State, i: nat, t: Stream, started: bool)
    requires ThreadEffect(s, s', i, t) && StreamsInv(work, s.streams, started) && StreamInv(t, work[i], started)
    requires ConnectInv(s.streams, s.connected) && ReceiptInv(work, s.streams, s.reported)
    requires s.signals == Ended(s.streams)
    ensures StreamsInv(work, s'.streams, started)
    ensures ConnectInv(s'.streams, s'.connected) && ReceiptInv(work, s'.streams, s'.reported)
    ensures s'.signals == Ended(s'.streams)
  {
    SetStreamKeeps(work, s.streams, i, t, started, s.connected, s.reported);
    EndedUpdate(s.streams, i, t);
    if s.streams[i].phase == Reporting {
      ReportOne(work, s.streams, i, t, s.reported);
    } else if s.streams[i].phase == Connecting {
      ConnectOne(s.streams, i, t, s.connected);
    }
  }

  lemma ThreadKeeps(p: Params, s: State, i: nat)
    requires Inv(p, s)
    ensures Inv(p, ThreadStep(p, s, i))
  {
    var s' := ThreadStep(p, s, i);
    if s' != s {
      ThreadEffects(p, s, i);
      ThreadStream(p, s, i, p.work[i], s.clientRead >= 2);
      EffectKeepsQueues(p.work, s, s', i, s'.streams[i], s.clientRead >= 2);
      ThreadFrame(p, s, s');
    }
  }

  lemma ReaderStream(s: State, i: nat, work: nat, started: bool)
    requires i < |s.streams| && StreamInv(s.streams[i], work, started) && ReaderStep(s, i) != s
    ensures ReadersRun(s) && |ReaderStep(s, i).streams| == |s.streams|
    ensures var t := ReaderStep(s, i).streams[i];
            && ReaderStep(s, i) == SetStream(s, i, t)
            && StreamInv(t, work, started) && t.phase == s.streams[i].phase && Rank(t.phase) >= 2
  {}

  lemma ReaderKeeps(p: Params, s: State, i: nat)
    requires Inv(p, s)
    ensures Inv(p, ReaderStep(s, i))
  {
    var s' := ReaderStep(s, i);
    if s' != s {
      ReaderStream(s, i, p.work[i], s.clientRead >= 2);
      SetStreamKeeps(p.work, s.streams, i, s'.streams[i], s.clientRead >= 2, s.connected, s.reported);
      EndedUpdate(s.streams, i, s'.streams[i]);
      ThreadFrame(p, s, s');
    }
  }

  lemma StepKeeps(p: Params, s: State, proc: Proc)
    requires ValidParams(p) && Inv(p, s)
    ensures Inv(p, Step(p, s, proc))
  {
    match proc {
      case ServerProc => ServerKeeps(p, s);
      case ClientProc => ClientKeeps(p, s);
      case ThreadProc(i) => ThreadKeeps(p, s, i);
      case ReaderProc(i) => ReaderKeeps(p, s, i);
    }
  }

  /** The invariant holds at every moment of every interleaving. */
  lemma {:induction false} AlwaysInv(p: Params, schedule: nat -> Proc, k: nat)
    requires ValidParams(p)
    ensures Inv(p, After(p, schedule, k))
  {
    if k == 0 {
      InitInv(p);
    } else {
      AlwaysInv(p, schedule, k - 1);
      StepKeeps(p, After(p, schedule, k - 1), schedule(k - 1));
    }
  }

  // ----- What holds at every moment of every interleaving -----

  /** The control conversation: no side ever reads something of the wrong kind, and both
      transcripts are prefixes of the scripted ones. */
  lemma ConversationFollowsScript(p: Params, schedule: nat -> Proc, k: nat)
    requires ValidParams(p)
    ensures var s := After(p, schedule, k);
            && !s.fault
            && |s.serverLog| <= 7 && (forall i :: 0 <= i < |s.serverLog| ==> ServerSays(i, s.serverLog[i]))
            && |s.clientLog| <= 4 && (forall i :: 0 <= i < |s.clientLog| ==> ClientSays(i, s.clientLog[i]))
  {
    AlwaysInv(p, schedule, k);
  }

  function Chunks(all: seq<Entry>): (cs: seq<nat>)
    ensures |cs| == |all|
  {
    seq(|all|, j requires 0 <= j < |all| => all[j].chunks)
  }

  /** The streams of a complete list, each once. */
  lemma EntryOrder(work: seq<nat>, all: seq<Entry>) returns (order: seq<nat>)
    requires Complete(work, all)
    ensures |order| == |all| && forall j :: 0 <= j < |all| ==> order[j] == all[j].id - 1 < |work|
    ensures Distinct(order) && forall i :: 0 <= i < |work| ==> i in order
  {
    order := seq(|all|, j requires 0 <= j < |all| => all[j].id - 1);
    forall i | 0 <= i < |work| ensures i in order {
      assert HasEntry(all, i + 1);
      var j :| 0 <= j < |all| && all[j].id == i + 1;
      assert order[j] == i;
    }
  }

  /** A complete list has one entry per stream, and its counts add up to everything sent. */
  lemma CompleteTotals(work: seq<nat>, all: seq<Entry>)
    requires Complete(work, all)
    ensures |all| == |work|
    ensures Sum(Chunks(all)) == Sum(work)
  {
    var order := EntryOrder(work, all);
    DistinctBelow(order, |work|);
    CoverLength(order, |work|);
    assert Chunks(all) == Picked(work, order);
    PermutedSum(work, order);
  }

  lemma {:induction false} CoverLength(s: seq<nat>, n: nat)
    requires Distinct(s) && forall i :: 0 <= i < n ==> i in s
    ensures |s| >= n
  {
    if n > 0 {
      assert n - 1 in s;
      var j :| 0 <= j < |s| && s[j] == n - 1;
      var rest := Without(s, j);
      assert forall k :: 0 <= k < |rest| ==> rest[k] == s[if k < j then k else k + 1];
      forall i | 0 <= i < n - 1 ensures i in rest {
        assert i in s;
        var k :| 0 <= k < |s| && s[k] == i;
        assert rest[if k < j then k else k - 1] == i;
      }
      CoverLength(rest, n - 1);
    }
  }

  /** Whenever the client has built its results, they hold exactly one receipt for each stream id
      from 1 to n, each with that stream's full count. */
  lemma ClientResultsComplete(p: Params, schedule: nat -> Proc, k: nat)
    requires ValidParams(p)
    ensures var s := After(p, schedule, k);
            s.built.Some? ==> Complete(p.work, s.built.value) && |s.built.value| == |p.work|
  {
    AlwaysInv(p, schedule, k);
    var s := After(p, schedule, k);
    if s.built.Some? {
      CompleteTotals(p.work, s.built.value);
    }
  }

  /** Once the server is done, the two sides have exchanged results that agree: the server lists
      every stream once, in the order accepted, with the count the client reports for that stream;
      and both lists add up to everything that was sent. */
  lemma ResultsAgree(p: Params, schedule: nat -> Proc, k: nat)
    requires ValidParams(p)
    ensures After(p, schedule, k).spc == ServerDone ==> Agreed(p.work, After(p, schedule, k))
  {
    AlwaysInv(p, schedule, k);
    var s := After(p, schedule, k);
    if s.spc == ServerDone {
      ServerTotals(p, s);
      CompleteTotals(p.work, s.built.value);
    }
  }

  ghost predicate Agreed(work: seq<nat>, s: State) {
    && |s.serverLog| == 7 && s.serverLog[5].Results? && |s.clientLog| == 4 && s.clientLog[2].Results?
    && var server, client := s.serverLog[5].entries, s.clientLog[2].entries;
    && Complete(work, client)
    && |server| == |client| == |s.connected| == |work|
    && Distinct(s.connected)
    && (forall j :: 0 <= j < |server| ==>
          s.connected[j] < |work| && server[j] == Entry(j + 1, work[s.connected[j]]))
    && Sum(Chunks(server)) == Sum(Chunks(client)) == Sum(work)
  }

  lemma ServerTotals(p: Params, s: State)
    requires Inv(p, s) && |s.serverLog| >= 6
    ensures s.serverLog[5].Results? && |s.serverLog[5].entries| == |s.connected| == |p.work|
    ensures Sum(Chunks(s.serverLog[5].entries)) == Sum(p.work)
  {
    var entries := s.serverLog[5].entries;
    assert forall j :: 0 <= j < |s.connected| ==> HasConnected(s.streams, s.connected[j]);
    DistinctBelow(s.connected, |p.work|);
    assert Chunks(entries) == Picked(p.work, s.connected);
    PermutedSum(p.work, s.connected);
  }
}
