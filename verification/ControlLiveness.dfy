/** The forward test always finishes: no reachable state is stuck, every step that is not an idle
    poll makes progress, and every fair schedule ends with both sides done. */
module ControlLiveness {
  import opened Common
  import opened ControlProtocol

  // ----- A measure of what is left to do -----

  function Place(pc: ServerPc): nat {
    match pc
    case SendParamExchange => 0
    case RecvOptions => 1
    case SendCreateStreams => 2
    case AcceptStreams => 3
    case SendTestStart => 4
    case SendTestRunning => 5
    case WaitTestEnd => 6
    case JoinReaders => 7
    case SendExchangeResults => 8
    case SendResults => 9
    case RecvResults => 10
    case SendDisplayResults => 11
    case WaitDone => 12
    case ServerDone => 13
  }

  function ClientCost(pc: ClientPc): nat {
    match pc
    case FinalDrain => 1
    case ClientDone => 0
    case _ => 2
  }

  function StreamCost(t: Stream): nat {
    4 * (6 - Rank(t.phase)) + 2 * t.left + t.buffered + One(!t.eof)
  }

  function StreamCosts(streams: seq<Stream>): (cs: seq<nat>)
    ensures |cs| == |streams|
  {
    seq(|streams|, i requires 0 <= i < |streams| => StreamCost(streams[i]))
  }

  function StreamWork(streams: seq<Stream>): nat {
    Sum(StreamCosts(streams))
  }

  /** What is left to do apart from the streams' own work. */
  function ControlWork(p: Params, s: State): nat {
    4 * (13 - Place(s.spc))
    + Since(|p.work|, s.accepted)
    + 3 * Since(|s.serverLog|, s.clientRead)
    + Since(|s.clientLog|, s.serverRead)
    + Since(|s.connected|, s.accepted)
    + Since(|s.reported|, s.drained)
    + 2 * Since(s.signals, s.finished)
    + ClientCost(s.cpc)
  }

  function Measure(p: Params, s: State): nat {
    ControlWork(p, s) + StreamWork(s.streams)
  }

  predicate Progress(p: Params, s: State, s': State) {
    Measure(p, s') < Measure(p, s)
  }

  /** Nothing but the client's position in its polling loop differs. */
  predicate Idle(s: State, s': State) {
    s' == s.(cpc := s'.cpc) && ClientCost(s'.cpc) == ClientCost(s.cpc)
  }

  lemma CostUpdate(streams: seq<Stream>, i: nat, t: Stream)
    requires i < |streams|
    ensures StreamWork(streams[i := t]) + StreamCost(streams[i]) == StreamWork(streams) + StreamCost(t)
  {
    assert StreamCosts(streams[i := t]) == StreamCosts(streams)[i := StreamCost(t)];
    SumUpdate(StreamCosts(streams), i, StreamCost(t));
  }

  lemma {:induction false} SumMonotone(a: seq<nat>, b: seq<nat>)
    requires |a| == |b| && forall i :: 0 <= i < |a| ==> a[i] <= b[i]
    ensures Sum(a) <= Sum(b)
  {
    if a != [] {
      SumMonotone(a[..|a| - 1], b[..|b| - 1]);
    }
  }

  /** The server has something to do. */
  predicate ServerReady(s: State) {
    match s.spc
    case RecvOptions => s.serverRead < |s.clientLog|
    case WaitTestEnd => s.serverRead < |s.clientLog|
    case RecvResults => s.serverRead < |s.clientLog|
    case WaitDone => s.serverRead < |s.clientLog|
    case AcceptStreams => s.accepted < |s.connected|
    case JoinReaders => AllEof(s.streams)
    case ServerDone => false
    case _ => true
  }

  /** The message the server is about to read, if any, is the one the script has next. */
  lemma ServerReads(s: State)
    requires TalkInv(s) && s.serverRead < |s.clientLog|
    ensures ClientSays(s.serverRead, s.clientLog[s.serverRead])
  {}

  predicate Reading(pc: ServerPc) {
    pc == RecvOptions || pc == WaitTestEnd || pc == RecvResults || pc == WaitDone
  }

  lemma ServerReadCost(p: Params, s: State)
    requires Counts(s) && Reading(s.spc) && s.serverRead == ReadAt(s.spc) < |s.clientLog|
    requires ClientSays(s.serverRead, s.clientLog[s.serverRead])
    ensures var s' := ServerStep(p, s);
            s'.streams == s.streams && ControlWork(p, s') < ControlWork(p, s)
  {}

  lemma ServerWriteCost(p: Params, s: State)
    requires Counts(s) && ServerReady(s) && !Reading(s.spc)
    ensures var s' := ServerStep(p, s);
            s'.streams == s.streams && ControlWork(p, s') < ControlWork(p, s)
  {}

  lemma ServerMoves(p: Params, s: State)
    requires Inv(p, s)
    ensures if ServerReady(s) then Progress(p, s, ServerStep(p, s)) else ServerStep(p, s) == s
  {
    if ServerReady(s) && Reading(s.spc) {
      ServerReads(s);
      ServerReadCost(p, s);
    } else if ServerReady(s) {
      ServerWriteCost(p, s);
    }
  }

  /** No queue has had more taken out than was put in. */
  predicate Counts(s: State) {
    && s.clientRead <= |s.serverLog| && s.serverRead <= |s.clientLog|
    && s.accepted <= |s.connected| && s.drained <= |s.reported| && s.finished <= s.signals
  }

  /** The thread of stream `i` has something to do. */
  predicate ThreadReady(p: Params, s: State, i: nat) {
    && i < |s.streams|
    && var t := s.streams[i];
    && t.phase != NotStarted && t.phase != Closed
    && (t.phase == Sending && t.left > 0 ==> t.buffered < p.room)
  }

  /** A thread's step adds to its queues less than it takes from its stream's cost. */
  lemma ThreadCost(p: Params, s: State, i: nat)
    requires Counts(s) && ThreadReady(p, s, i)
    ensures var s' := ThreadStep(p, s, i);
            && |s'.streams| == |s.streams|
            && s'.streams == s.streams[i := s'.streams[i]]
            && ControlWork(p, s') + StreamCost(s'.streams[i]) < ControlWork(p, s) + StreamCost(s.streams[i])
  {}

  lemma ThreadMoves(p: Params, s: State, i: nat)
    requires Counts(s)
    ensures if ThreadReady(p, s, i) then Progress(p, s, ThreadStep(p, s, i)) else ThreadStep(p, s, i) == s
  {
    if ThreadReady(p, s, i) {
      ThreadCost(p, s, i);
      CostUpdate(s.streams, i, ThreadStep(p, s, i).streams[i]);
    }
  }

  /** The reader of stream `i` has something to do. */
  predicate ReaderReady(s: State, i: nat) {
    && i < |s.streams| && ReadersRun(s)
    && (s.streams[i].buffered > 0 || (s.streams[i].phase == Closed && !s.streams[i].eof))
  }

  lemma ReaderMoves(p: Params, s: State, i: nat)
    requires Counts(s)
    ensures if ReaderReady(s, i) then Progress(p, s, ReaderStep(s, i)) else ReaderStep(s, i) == s
  {
    if ReaderReady(s, i) {
      CostUpdate(s.streams, i, ReaderStep(s, i).streams[i]);
    }
  }

  lemma StartCost(work: seq<nat>, streams: seq<Stream>)
    requires StreamsInv(work, streams, false)
    ensures StreamWork(Started(streams)) <= StreamWork(streams)
  {
    forall i | 0 <= i < |streams| ensures StreamCost(Started(streams)[i]) <= StreamCost(streams[i]) {
      assert StreamInv(streams[i], work[i], false);
    }
    SumMonotone(StreamCosts(Started(streams)), StreamCosts(streams));
  }

  /** The client's next message is a control byte that the script allows. */
  predicate HasMail(s: State) {
    s.clientRead < |s.serverLog| && ServerSays(s.clientRead, s.serverLog[s.clientRead])
  }

  lemma HandleWork(p: Params, s: State)
    requires Counts(s) && s.cpc == Poll && HasMail(s) && s.serverLog[s.clientRead].Ctl?
    ensures var s' := ClientStep(p, s);
            && ControlWork(p, s') < ControlWork(p, s)
            && s'.streams == if s.clientRead == 1 then Started(s.streams) else s.streams
  {}

  lemma HandleMoves(p: Params, s: State)
    requires Inv(p, s) && s.cpc == Poll && s.clientRead < |s.serverLog|
    ensures Progress(p, s, ClientStep(p, s))
  {
    assert HasMail(s);
    HandleWork(p, s);
    if s.clientRead == 1 {
      StartCost(p.work, s.streams);
    }
  }

  lemma ReadMoves(p: Params, s: State)
    requires Inv(p, s) && s.cpc == ReadResults && s.clientRead < |s.serverLog|
    ensures Progress(p, s, ClientStep(p, s))
  {}

  /** Without mail the client counts, drains or polls. */
  lemma NoMailWork(p: Params, s: State)
    requires Counts(s) && ((s.cpc == Poll || s.cpc == ReadResults) ==> s.clientRead == |s.serverLog|)
    ensures var s' := ClientStep(p, s);
            s'.streams == s.streams && (ControlWork(p, s') < ControlWork(p, s) || Idle(s, s'))
  {}

  lemma ClientMoves(p: Params, s: State)
    requires Inv(p, s)
    ensures Progress(p, s, ClientStep(p, s)) || Idle(s, ClientStep(p, s))
  {
    if s.cpc == Poll && s.clientRead < |s.serverLog| {
      HandleMoves(p, s);
    } else if s.cpc == ReadResults && s.clientRead < |s.serverLog| {
      ReadMoves(p, s);
    } else {
      NoMailWork(p, s);
    }
  }

  /** Every step makes progress or is an idle poll. */
  lemma StepMoves(p: Params, s: State, proc: Proc)
    requires Inv(p, s)
    ensures Progress(p, s, Step(p, s, proc)) || Idle(s, Step(p, s, proc))
    ensures proc != ClientProc && !Progress(p, s, Step(p, s, proc)) ==> Step(p, s, proc) == s
  {
    match proc {
      case ServerProc => ServerMoves(p, s);
      case ClientProc => ClientMoves(p, s);
      case ThreadProc(i) => ThreadMoves(p, s, i);
      case ReaderProc(i) => ReaderMoves(p, s, i);
    }
  }

  // ----- Someone can always move -----

  predicate Final(s: State) { s.spc == ServerDone && s.cpc == ClientDone }

  /** The client, left to itself, will make progress within three steps. */
  predicate ClientReady(s: State) {
    match s.cpc
    case FinalDrain => true
    case ClientDone => false
    case ReadResults => s.clientRead < |s.serverLog|
    case _ => s.clientRead < |s.serverLog| || s.drained < |s.reported| || s.finished < s.signals
  }

  /** How many idle steps the client takes first. */
  function Distance(s: State): nat {
    var mail, receipts, signals := s.clientRead < |s.serverLog|, s.drained < |s.reported|, s.finished < s.signals;
    match s.cpc
    case Poll => if mail then 0 else if receipts then 1 else 2
    case Drain => if receipts then 0 else if signals then 1 else 2
    case TryRecv => if signals then 0 else if mail then 1 else 2
    case _ => 0
  }

  /** Idle polls bring the client closer to what it is ready for. */
  lemma IdleApproaches(p: Params, s: State)
    requires Counts(s) && ClientReady(s) && ClientStep(p, s) == s.(cpc := ClientStep(p, s).cpc)
    requires s.cpc == Poll || s.cpc == Drain || s.cpc == TryRecv
    requires s.cpc == Poll ==> s.clientRead == |s.serverLog|
    ensures var s' := ClientStep(p, s);
            ClientReady(s') && Distance(s') < Distance(s)
  {}

  lemma ReadyClientMoves(p: Params, s: State)
    requires Inv(p, s) && ClientReady(s)
    ensures var s' := ClientStep(p, s);
            Progress(p, s, s') || (Idle(s, s') && ClientReady(s') && Distance(s') < Distance(s))
  {
    if s.cpc == Poll && s.clientRead < |s.serverLog| {
      HandleMoves(p, s);
    } else if s.cpc == ReadResults {
      ReadMoves(p, s);
    } else {
      ClientMoves(p, s);
      if !Progress(p, s, ClientStep(p, s)) {
        IdleApproaches(p, s);
      }
    }
  }

  /** `proc` can make progress, now or, for the client, after a few idle polls. */
  predicate CanMove(p: Params, s: State, proc: Proc) {
    match proc
    case ServerProc => ServerReady(s)
    case ClientProc => ClientReady(s)
    case ThreadProc(i) => ThreadReady(p, s, i)
    case ReaderProc(i) => ReaderReady(s, i)
  }

  lemma ReadyMoves(p: Params, s: State, proc: Proc)
    requires Inv(p, s) && proc != ClientProc && CanMove(p, s, proc)
    ensures Progress(p, s, Step(p, s, proc))
  {
    match proc {
      case ServerProc => ServerMoves(p, s);
      case ThreadProc(i) => ThreadMoves(p, s, i);
      case ReaderProc(i) => ReaderMoves(p, s, i);
    }
  }

  predicate Participates(p: Params, proc: Proc) {
    match proc
    case ThreadProc(i) => i < |p.work|
    case ReaderProc(i) => i < |p.work|
    case _ => true
  }

  /** A stream whose thread has not ended can move: its thread, or its reader if its buffer is full. */
  lemma StreamCanMove(p: Params, s: State, i: nat) returns (proc: Proc)
    requires ValidParams(p) && Inv(p, s) && i < |p.work| && ReadersRun(s) && s.clientRead >= 2
    requires !s.streams[i].eof
    ensures Participates(p, proc) && CanMove(p, s, proc)
  {
    var t := s.streams[i];
    assert StreamInv(t, p.work[i], true);
    if t.phase == Closed || (t.phase == Sending && t.left > 0 && t.buffered >= p.room) {
      proc := ReaderProc(i);
    } else {
      proc := ThreadProc(i);
    }
  }

  lemma AcceptCanMove(p: Params, s: State) returns (proc: Proc)
    requires ValidParams(p) && Inv(p, s) && s.spc == AcceptStreams
    ensures Participates(p, proc) && CanMove(p, s, proc)
  {
    if s.accepted < |s.connected| {
      proc := ServerProc;
    } else if s.clientRead < 2 {
      proc := ClientProc;
    } else {
      // Fewer connections than streams: some stream is still connecting.
      var i := Unconnected(p, s);
      assert StreamInv(s.streams[i], p.work[i], true);
      proc := ThreadProc(i);
    }
  }

  lemma Unconnected(p: Params, s: State) returns (i: nat)
    requires Inv(p, s) && |s.connected| < |p.work|
    ensures i < |p.work| && !HasConnected(s.streams, i)
  {
    if forall i :: 0 <= i < |p.work| ==> HasConnected(s.streams, i) {
      forall i | 0 <= i < |p.work| ensures i in s.connected {
        assert Listed(s.streams, s.connected, i);
      }
      CoverLength(s.connected, |p.work|);
      assert false;
    }
    i :| 0 <= i < |p.work| && !HasConnected(s.streams, i);
  }

  lemma TestEndCanMove(p: Params, s: State) returns (proc: Proc)
    requires ValidParams(p) && Inv(p, s) && s.spc == WaitTestEnd
    ensures Participates(p, proc) && CanMove(p, s, proc)
  {
    if s.serverRead < |s.clientLog| {
      proc := ServerProc;
    } else if s.clientRead < 4 || s.finished < s.signals {
      proc := ClientProc;
    } else {
      EndedBound(s.streams);
      var i :| 0 <= i < |s.streams| && Rank(s.streams[i].phase) <= 4;
      assert StreamInv(s.streams[i], p.work[i], true);
      proc := StreamCanMove(p, s, i);
    }
  }

  lemma JoinCanMove(p: Params, s: State) returns (proc: Proc)
    requires ValidParams(p) && Inv(p, s) && s.spc == JoinReaders
    ensures Participates(p, proc) && CanMove(p, s, proc)
  {
    if AllEof(s.streams) {
      proc := ServerProc;
    } else {
      var i :| 0 <= i < |s.streams| && !s.streams[i].eof;
      proc := StreamCanMove(p, s, i);
    }
  }

  /** No reachable state is stuck before both sides have finished. */
  lemma SomeoneCanMove(p: Params, s: State) returns (proc: Proc)
    requires ValidParams(p) && Inv(p, s) && !Final(s)
    ensures Participates(p, proc) && CanMove(p, s, proc)
  {
    match s.spc {
      case AcceptStreams => proc := AcceptCanMove(p, s);
      case WaitTestEnd => proc := TestEndCanMove(p, s);
      case JoinReaders => proc := JoinCanMove(p, s);
      case ServerDone => proc := ClientProc;
      case _ =>
        if ServerReady(s) {
              proc := ServerProc;
        } else {
          proc := ClientProc;
        }
    }
  }

  // ----- Fair schedules -----

  /** `proc` gets a turn at or after step `k`. */
  ghost predicate HasTurn(schedule: nat -> Proc, proc: Proc, k: nat) {
    exists j: nat :: k <= j && schedule(j) == proc
  }

  /** Every process gets turns forever. */
  ghost predicate Fair(p: Params, schedule: nat -> Proc) {
    forall proc, k: nat :: Participates(p, proc) ==> HasTurn(schedule, proc, k)
  }

  lemma SameMeasure(p: Params, s: State, s': State)
    requires Idle(s, s')
    ensures Measure(p, s') == Measure(p, s)
  {}

  /** What stays true of a process that can move while nobody makes progress. */
  ghost predicate StillCanMove(p: Params, s: State, s': State, proc: Proc) {
    && Idle(s, s')
    && CanMove(p, s', proc)
    && (proc == ClientProc ==> Distance(s') <= Distance(s))
  }

  lemma StillCanMoveStep(p: Params, s: State, s': State, proc: Proc, other: Proc)
    requires Inv(p, s') && StillCanMove(p, s, s', proc)
    ensures var s'' := Step(p, s', other);
            Progress(p, s, s'') || StillCanMove(p, s, s'', proc)
  {
    StepMoves(p, s', other);
    SameMeasure(p, s, s');
    var s'' := Step(p, s', other);
    if proc == ClientProc && other == ClientProc {
      ReadyClientMoves(p, s');
    }
  }

  /** `run` is a run of the protocol under `schedule`, with the invariant at every moment. */
  ghost predicate Run(p: Params, schedule: nat -> Proc, run: nat -> State) {
    forall k: nat :: RunStep(p, schedule, run, k)
  }

  ghost predicate RunStep(p: Params, schedule: nat -> Proc, run: nat -> State, k: nat) {
    Inv(p, run(k)) && run(k + 1) == Step(p, run(k), schedule(k))
  }

  lemma PersistsStep(p: Params, schedule: nat -> Proc, run: nat -> State, s: State, j: nat, proc: Proc)
    requires Run(p, schedule, run) && StillCanMove(p, s, run(j), proc)
    ensures Progress(p, s, run(j + 1)) || StillCanMove(p, s, run(j + 1), proc)
  {
    assert RunStep(p, schedule, run, j);
    StillCanMoveStep(p, s, run(j), proc, schedule(j));
  }

  /** Between a moment when `proc` can move and any later one, somebody makes progress or `proc`
      can still move. */
  lemma {:induction false} Persists(
    p: Params, schedule: nat -> Proc, run: nat -> State, s: State, k: nat, j: nat, proc: Proc)
    returns (progress: Option<nat>)
    requires Run(p, schedule, run) && k <= j && s == run(k) && CanMove(p, s, proc)
    ensures progress.Some? ==> k < progress.value && Progress(p, s, run(progress.value))
    ensures progress.None? ==> StillCanMove(p, s, run(j), proc)
    decreases j
  {
    progress := None;
    if k < j {
      progress := Persists(p, schedule, run, s, k, j - 1, proc);
      if progress.None? {
        PersistsStep(p, schedule, run, s, j - 1, proc);
        if Progress(p, s, run(j)) {
          progress := Some(j);
        }
      }
    }
  }

  /** The turn itself: progress, or the client gets closer to it. */
  lemma TurnTaken(p: Params, schedule: nat -> Proc, run: nat -> State, s: State, turn: nat, proc: Proc)
    requires Run(p, schedule, run) && schedule(turn) == proc && StillCanMove(p, s, run(turn), proc)
    ensures || Progress(p, s, run(turn + 1))
            || (proc == ClientProc && Idle(s, run(turn + 1)) && ClientReady(run(turn + 1))
                && Distance(run(turn + 1)) < Distance(s))
  {
    assert RunStep(p, schedule, run, turn);
    SameMeasure(p, s, run(turn));
    if proc == ClientProc {
      ReadyClientMoves(p, run(turn));
    } else {
      ReadyMoves(p, run(turn), proc);
    }
  }

  /** From any moment at which `proc` can move, a fair schedule leads to progress. */
  lemma {:induction false} EventualProgress(
    p: Params, schedule: nat -> Proc, run: nat -> State, s: State, k: nat, proc: Proc)
    returns (j: nat)
    requires Run(p, schedule, run) && Fair(p, schedule) && Participates(p, proc)
    requires s == run(k) && CanMove(p, s, proc)
    ensures k < j && Progress(p, s, run(j))
    decreases Distance(s)
  {
    assert HasTurn(schedule, proc, k);
    var turn: nat :| k <= turn && schedule(turn) == proc;
    var early := Persists(p, schedule, run, s, k, turn, proc);
    if early.Some? {
      return early.value;
    }
    TurnTaken(p, schedule, run, s, turn, proc);
    j := turn + 1;
    if !Progress(p, s, run(turn + 1)) {
      SameMeasure(p, s, run(turn + 1));
      j := EventualProgress(p, schedule, run, run(turn + 1), turn + 1, proc);
    }
  }

  lemma {:induction false} RunsFinish(p: Params, schedule: nat -> Proc, run: nat -> State, s: State, k: nat)
    returns (j: nat)
    requires ValidParams(p) && Run(p, schedule, run) && Fair(p, schedule) && s == run(k)
    ensures k <= j && Final(run(j)) && AllEof(run(j).streams)
    decreases Measure(p, s)
  {
    assert RunStep(p, schedule, run, k);
    if Final(s) {
      return k;
    }
    var proc := SomeoneCanMove(p, s);
    var later := EventualProgress(p, schedule, run, s, k, proc);
    j := RunsFinish(p, schedule, run, run(later), later);
  }

  function Trace(p: Params, schedule: nat -> Proc): nat -> State {
    (k: nat) => After(p, schedule, k)
  }

  lemma TraceStep(p: Params, schedule: nat -> Proc, k: nat)
    requires ValidParams(p)
    ensures RunStep(p, schedule, Trace(p, schedule), k)
  {
    AlwaysInv(p, schedule, k);
  }

  /** Every fair run of the protocol finishes: both sides reach their end, and then every stream is
      closed and fully read, and the results the two sides exchanged agree. */
  lemma FairRunsFinish(p: Params, schedule: nat -> Proc) returns (j: nat)
    requires ValidParams(p) && Fair(p, schedule)
    ensures Final(After(p, schedule, j)) && AllEof(After(p, schedule, j).streams)
    ensures Agreed(p.work, After(p, schedule, j))
  {
    var run := Trace(p, schedule);
    forall k: nat ensures RunStep(p, schedule, run, k) {
      TraceStep(p, schedule, k);
    }
    j := RunsFinish(p, schedule, run, run(0), 0);
    ResultsAgree(p, schedule, j);
  }

  function Turn(period: nat, k: nat): (turn: nat)
    requires period > 0
    ensures turn < period
  {
    if k < period then k else Turn(period, k - period)
  }

  /** A fair schedule exists: turns in rotation. */
  function RoundRobin(n: nat, k: nat): Proc {
    var turn := Turn(2 * n + 2, k);
    if turn == 0 then ServerProc
    else if turn == 1 then ClientProc
    else if turn < n + 2 then ThreadProc(turn - 2)
    else ReaderProc(turn - n - 2)
  }

  function Rotation(p: Params): nat -> Proc {
    (k: nat) => RoundRobin(|p.work|, k)
  }

  lemma RoundRobinIsFair(p: Params)
    ensures Fair(p, Rotation(p))
  {
    var n := |p.work|;
    forall proc, k: nat | Participates(p, proc) ensures HasTurn(Rotation(p), proc, k) {
      var slot := match proc
        case ServerProc => 0
        case ClientProc => 1
        case ThreadProc(i) => i + 2
        case ReaderProc(i) => i + n + 2;
      var j := NextSlot(k, 2 * n + 2, slot);
      assert Rotation(p)(j) == proc;
    }
  }

  lemma {:induction false} NextSlot(k: nat, period: nat, slot: nat) returns (j: nat)
    requires slot < period
    ensures k <= j && Turn(period, j) == slot
    decreases k
  {
    if k < period {
      j := slot + period;
    } else {
      j := NextSlot(k - period, period, slot);
      j := j + period;
    }
  }
}
