/** The symmetric exchange of result frames over a control connection with bounded buffers. The
    server blocks while it writes its frame and then while it reads the client's. The client writes
    first too, but on a non-blocking socket: it gives up when its buffer is full. Then it switches to
    blocking mode and reads. Frames count as bytes, and each call moves any part of what it could. */
module ResultsExchange {

  /** The two frames' lengths, and how much each direction of the connection holds. */
  datatype Sizes = Sizes(serverFrame: nat, clientFrame: nat, toClient: nat, toServer: nat)

  predicate ValidSizes(z: Sizes) { z.toClient >= 1 && z.toServer >= 1 }

  /** What each side has left to write and has read, what is in flight, and whether the client
      has given up. */
  datatype State = State(
    serverLeft: nat, serverGot: nat, clientLeft: nat, clientGot: nat,
    toClient: nat, toServer: nat, gaveUp: bool)

  /** A turn of one side, whose call tries to move `amount` bytes. */
  datatype Turn = Server(amount: nat) | Client(amount: nat)

  function Init(z: Sizes): State {
    State(z.serverFrame, 0, z.clientFrame, 0, 0, 0, false)
  }

  function Min(a: nat, b: nat): nat { if a < b then a else b }

  /** A call moves at least one byte, and at most what there is and what there is room for. */
  function Moved(amount: nat, available: nat, room: nat): (n: nat)
    requires available > 0 && room > 0
    ensures 0 < n <= available && n <= room
  {
    Min(if amount == 0 then 1 else amount, Min(available, room))
  }

  function ServerStep(z: Sizes, s: State, amount: nat): State {
    if s.serverLeft > 0 then
      if s.toClient >= z.toClient then s
      else
        var n := Moved(amount, s.serverLeft, z.toClient - s.toClient);
        s.(serverLeft := s.serverLeft - n, toClient := s.toClient + n)
    else if s.serverGot < z.clientFrame && s.toServer > 0 then
      var n := Moved(amount, s.toServer, z.clientFrame - s.serverGot);
      s.(toServer := s.toServer - n, serverGot := s.serverGot + n)
    else s
  }

  function ClientStep(z: Sizes, s: State, amount: nat): State {
    if s.gaveUp then s
    else if s.clientLeft > 0 then
      if s.toServer >= z.toServer then s.(gaveUp := true)
      else
        var n := Moved(amount, s.clientLeft, z.toServer - s.toServer);
        s.(clientLeft := s.clientLeft - n, toServer := s.toServer + n)
    else if s.clientGot < z.serverFrame && s.toClient > 0 then
      var n := Moved(amount, s.toClient, z.serverFrame - s.clientGot);
      s.(toClient := s.toClient - n, clientGot := s.clientGot + n)
    else s
  }

  function Step(z: Sizes, s: State, turn: Turn): State {
    match turn
    case Server(amount) => ServerStep(z, s, amount)
    case Client(amount) => ClientStep(z, s, amount)
  }

  /** The state after a sequence of turns. */
  function After(z: Sizes, s: State, turns: seq<Turn>): State {
    if turns == [] then s else Step(z, After(z, s, turns[..|turns| - 1]), turns[|turns| - 1])
  }

  /** Both sides hold the other's whole frame. */
  predicate Exchanged(z: Sizes, s: State) {
    s.serverGot == z.clientFrame && s.clientGot == z.serverFrame && s.serverLeft == 0 && s.clientLeft == 0
  }

  /** No byte is lost or made up, and no buffer overflows. */
  predicate Inv(z: Sizes, s: State) {
    && s.serverLeft + s.toClient + s.clientGot == z.serverFrame
    && s.clientLeft + s.toServer + s.serverGot == z.clientFrame
    && s.toClient <= z.toClient
    && s.toServer <= z.toServer
    && (s.serverLeft > 0 ==> s.serverGot == 0)
    && (s.clientLeft > 0 ==> s.clientGot == 0)
    && (s.gaveUp ==> s.clientLeft > 0)
  }

  function Work(s: State): nat {
    2 * s.serverLeft + s.toClient + 2 * s.clientLeft + s.toServer + if s.gaveUp then 0 else 1
  }

  lemma {:induction false} AlwaysInv(z: Sizes, turns: seq<Turn>)
    requires ValidSizes(z)
    ensures Inv(z, After(z, Init(z), turns))
  {
    if turns != [] {
      AlwaysInv(z, turns[..|turns| - 1]);
    }
  }

  /** Every turn that does anything brings the exchange closer to its end. */
  lemma StepDecreases(z: Sizes, s: State, turn: Turn)
    requires Inv(z, s) && Step(z, s, turn) != s
    ensures Work(Step(z, s, turn)) < Work(s)
  {}

  /** Before the client gives up the two sides never wait for each other, whatever the sizes: in every
      reachable state in which the frames are not yet exchanged, one side can move. */
  lemma NoDeadlock(z: Sizes, turns: seq<Turn>, amount: nat)
    requires ValidSizes(z)
    ensures var s := After(z, Init(z), turns);
            !s.gaveUp && !Exchanged(z, s) ==>
              Step(z, s, Server(amount)) != s || Step(z, s, Client(amount)) != s
  {
    AlwaysInv(z, turns);
  }

  /** A client that has given up has left part of its frame unsent for good: the exchange is never
      completed from there, whatever turns follow. */
  lemma {:induction false} GivingUpIsFinal(z: Sizes, s: State, turns: seq<Turn>)
    requires s.gaveUp && s.clientLeft > 0
    ensures var s' := After(z, s, turns);
            s'.gaveUp && s'.clientLeft == s.clientLeft && !Exchanged(z, s')
  {
    if turns != [] {
      GivingUpIsFinal(z, s, turns[..|turns| - 1]);
    }
  }

  lemma {:induction false} AfterConcat(z: Sizes, s: State, a: seq<Turn>, b: seq<Turn>)
    ensures After(z, s, a + b) == After(z, After(z, s, a), b)
  {
    if b == [] {
      assert a + b == a;
    } else {
      assert (a + b)[..|a + b| - 1] == a + b[..|b| - 1];
      AfterConcat(z, s, a, b[..|b| - 1]);
    }
  }

  /** If the client's frame fits, a turn exists that brings the exchange closer to its end. */
  lemma SomeoneMoves(z: Sizes, s: State) returns (turn: Turn)
    requires ValidSizes(z) && Inv(z, s) && !s.gaveUp && z.clientFrame <= z.toServer && !Exchanged(z, s)
    ensures var s' := Step(z, s, turn);
            Inv(z, s') && !s'.gaveUp && Work(s') < Work(s)
  {
    turn := if Step(z, s, Server(1)) != s then Server(1) else Client(1);
  }

  /** From any state of an exchange whose client frame fits, the frames can still be exchanged. */
  lemma {:induction false} CanFinish(z: Sizes, s: State) returns (turns: seq<Turn>)
    requires ValidSizes(z) && Inv(z, s) && !s.gaveUp && z.clientFrame <= z.toServer
    ensures Exchanged(z, After(z, s, turns))
    decreases Work(s)
  {
    if Exchanged(z, s) {
      return [];
    }
    var turn := SomeoneMoves(z, s);
    var rest := CanFinish(z, Step(z, s, turn));
    turns := Prepended(z, s, turn, rest);
  }

  /** The client gives up in some run exactly when its frame is larger than the server-bound buffer.
      The server's frame and the other buffer do not matter. */
  lemma GivesUpIff(z: Sizes)
    requires ValidSizes(z)
    ensures (exists turns :: After(z, Init(z), turns).gaveUp) <==> z.clientFrame > z.toServer
  {
    if z.clientFrame > z.toServer {
      var once := [Client(z.toServer)];
      var turns := once + [Client(0)];
      assert once[..0] == [] && turns[..1] == once;
      assert After(z, Init(z), once).toServer == z.toServer;
      assert After(z, Init(z), turns).gaveUp;
    } else {
      forall turns ensures !After(z, Init(z), turns).gaveUp {
        AlwaysKeepsGoing(z, turns);
      }
    }
  }

  lemma {:induction false} AlwaysKeepsGoing(z: Sizes, turns: seq<Turn>)
    requires ValidSizes(z) && z.clientFrame <= z.toServer
    ensures !After(z, Init(z), turns).gaveUp
  {
    if turns != [] {
      AlwaysInv(z, turns[..|turns| - 1]);
      AlwaysKeepsGoing(z, turns[..|turns| - 1]);
    }
  }

  /** With both frames larger than their buffers neither side ever gets its frame out. */
  lemma {:induction false} BothTooLarge(z: Sizes, turns: seq<Turn>)
    requires ValidSizes(z) && z.clientFrame > z.toServer && z.serverFrame > z.toClient
    ensures var s := After(z, Init(z), turns);
            s.serverLeft > 0 && s.clientLeft > 0
  {
    AlwaysInv(z, turns);
    if turns != [] {
      BothTooLarge(z, turns[..|turns| - 1]);
    }
  }

  /** Once the server's frame is out, the two sides can hand the client's over byte by byte. */
  lemma {:induction false} FinishAfterServer(z: Sizes, s: State) returns (turns: seq<Turn>)
    requires ValidSizes(z) && Inv(z, s) && !s.gaveUp && s.serverLeft == 0
    ensures Exchanged(z, After(z, s, turns))
    decreases Work(s)
  {
    if Exchanged(z, s) {
      return [];
    }
    var turn := if s.toServer > 0 then Server(1) else Client(1);
    StepDecreases(z, s, turn);
    var rest := FinishAfterServer(z, Step(z, s, turn));
    turns := Prepended(z, s, turn, rest);
  }

  lemma Prepended(z: Sizes, s: State, turn: Turn, rest: seq<Turn>) returns (turns: seq<Turn>)
    ensures After(z, s, turns) == After(z, Step(z, s, turn), rest)
  {
    assert [turn][..0] == [];
    AfterConcat(z, s, [turn], rest);
    turns := [turn] + rest;
  }

  lemma FinishFromStart(z: Sizes) returns (turns: seq<Turn>)
    requires ValidSizes(z) && (z.clientFrame <= z.toServer || z.serverFrame <= z.toClient)
    ensures Exchanged(z, After(z, Init(z), turns))
  {
    if z.clientFrame <= z.toServer {
      turns := CanFinish(z, Init(z));
    } else if z.serverFrame == 0 {
      turns := FinishAfterServer(z, Init(z));
    } else {
      var turn := Server(z.serverFrame);
      var rest := FinishAfterServer(z, Step(z, Init(z), turn));
      turns := Prepended(z, Init(z), turn, rest);
    }
  }

  predicate CompletedBy(z: Sizes, turns: seq<Turn>) {
    Exchanged(z, After(z, Init(z), turns))
  }

  /** Some run completes the exchange exactly when one of the two frames fits its buffer. */
  lemma CompletableIff(z: Sizes)
    requires ValidSizes(z)
    ensures (exists turns :: CompletedBy(z, turns)) <==> z.clientFrame <= z.toServer || z.serverFrame <= z.toClient
  {
    if z.clientFrame <= z.toServer || z.serverFrame <= z.toClient {
      var turns := FinishFromStart(z);
      assert CompletedBy(z, turns);
    } else {
      forall turns ensures !CompletedBy(z, turns) {
        BothTooLarge(z, turns);
      }
    }
  }

  // ----- Fair schedules -----

  /** The state after the first `k` turns of an endless schedule. */
  function RunTo(z: Sizes, schedule: nat -> Turn, k: nat): State {
    if k == 0 then Init(z) else Step(z, RunTo(z, schedule, k - 1), schedule(k - 1))
  }

  ghost predicate HasTurn(schedule: nat -> Turn, server: bool, k: nat) {
    exists j: nat :: k <= j && schedule(j).Server? == server
  }

  /** Both sides get turns forever, each time for any amount. */
  ghost predicate Fair(schedule: nat -> Turn) {
    forall server, k: nat :: HasTurn(schedule, server, k)
  }

  ghost predicate Completes(z: Sizes, schedule: nat -> Turn) {
    exists k: nat :: Exchanged(z, RunTo(z, schedule, k))
  }

  lemma {:induction false} RunInv(z: Sizes, schedule: nat -> Turn, k: nat)
    requires ValidSizes(z)
    ensures Inv(z, RunTo(z, schedule, k))
    ensures z.clientFrame <= z.toServer ==> !RunTo(z, schedule, k).gaveUp
  {
    if k > 0 {
      RunInv(z, schedule, k - 1);
    }
  }

  /** `run` is a run under `schedule` of an exchange in which the client's frame fits. */
  ghost predicate Run(z: Sizes, schedule: nat -> Turn, run: nat -> State) {
    forall k: nat :: RunStep(z, schedule, run, k)
  }

  ghost predicate RunStep(z: Sizes, schedule: nat -> Turn, run: nat -> State, k: nat) {
    Inv(z, run(k)) && !run(k).gaveUp && run(k + 1) == Step(z, run(k), schedule(k))
  }

  /** A turn shrinks the work left, or does nothing. */
  lemma StillOrLessStep(z: Sizes, schedule: nat -> Turn, run: nat -> State, k: nat)
    requires Run(z, schedule, run)
    ensures run(k + 1) == run(k) || Work(run(k + 1)) < Work(run(k))
  {
    assert RunStep(z, schedule, run, k);
    if run(k + 1) != run(k) {
      StepDecreases(z, run(k), schedule(k));
    }
  }

  lemma {:induction false} StillOrLess(z: Sizes, schedule: nat -> Turn, run: nat -> State, k: nat, j: nat)
    requires Run(z, schedule, run) && k <= j
    ensures run(j) == run(k) || Work(run(j)) < Work(run(k))
  {
    if k < j {
      StillOrLess(z, schedule, run, k, j - 1);
      StillOrLessStep(z, schedule, run, j - 1);
    }
  }

  /** One side has something to do, whatever amount its call tries to move. */
  lemma SomeSideMoves(z: Sizes, s: State) returns (server: bool)
    requires ValidSizes(z) && Inv(z, s) && !s.gaveUp && !Exchanged(z, s)
    ensures forall turn: Turn :: turn.Server? == server ==> Step(z, s, turn) != s
  {
    server := Step(z, s, Server(1)) != s;
  }

  /** The turn that a waiting side finally gets: something has happened by its end. */
  lemma TurnTaken(z: Sizes, schedule: nat -> Turn, run: nat -> State, k: nat, turn: nat)
    requires Run(z, schedule, run) && k <= turn && Step(z, run(k), schedule(turn)) != run(k)
    ensures Work(run(turn + 1)) < Work(run(k))
  {
    StillOrLess(z, schedule, run, k, turn);
    StillOrLessStep(z, schedule, run, turn);
    assert RunStep(z, schedule, run, turn);
  }

  lemma {:induction false} FairFinishes(z: Sizes, schedule: nat -> Turn, run: nat -> State, k: nat) returns (j: nat)
    requires ValidSizes(z) && Fair(schedule) && Run(z, schedule, run)
    ensures Exchanged(z, run(j))
    decreases Work(run(k))
  {
    if Exchanged(z, run(k)) {
      return k;
    }
    assert RunStep(z, schedule, run, k);
    var server := SomeSideMoves(z, run(k));
    assert HasTurn(schedule, server, k);
    var turn: nat :| k <= turn && schedule(turn).Server? == server;
    TurnTaken(z, schedule, run, k, turn);
    j := FairFinishes(z, schedule, run, turn + 1);
  }

  /** A fair schedule in which the client fills the buffer and tries again before the server reads. */
  function Impatient(z: Sizes): nat -> Turn {
    (k: nat) => if k < 2 then Client(z.toServer) else if k % 2 == 0 then Server(1) else Client(1)
  }

  lemma ImpatientIsFair(z: Sizes)
    ensures Fair(Impatient(z))
  {
    forall server, k: nat ensures HasTurn(Impatient(z), server, k) {
      assert Impatient(z)(2 * k + 2) == Server(1) && Impatient(z)(2 * k + 3) == Client(1);
    }
  }

  lemma {:induction false} ImpatientGivesUp(z: Sizes, k: nat)
    requires ValidSizes(z) && z.clientFrame > z.toServer
    ensures !Exchanged(z, RunTo(z, Impatient(z), k))
    ensures k >= 2 ==> RunTo(z, Impatient(z), k).gaveUp && RunTo(z, Impatient(z), k).clientLeft > 0
  {
    if k == 1 {
      assert RunTo(z, Impatient(z), 0) == Init(z);
    } else if k == 2 {
      assert RunTo(z, Impatient(z), 0) == Init(z);
      assert RunTo(z, Impatient(z), 1) == ClientStep(z, Init(z), z.toServer);
    } else if k > 2 {
      ImpatientGivesUp(z, k - 1);
    }
  }

  /** Every schedule that is fair to both sides completes the exchange exactly when the client's frame
      fits the server-bound buffer. */
  lemma FairCompletesIff(z: Sizes)
    requires ValidSizes(z)
    ensures (forall schedule: nat -> Turn :: Fair(schedule) ==> Completes(z, schedule)) <==>
            z.clientFrame <= z.toServer
  {
    if z.clientFrame <= z.toServer {
      forall schedule: nat -> Turn | Fair(schedule) ensures Completes(z, schedule) {
        var run := (k: nat) => RunTo(z, schedule, k);
        forall k: nat ensures RunStep(z, schedule, run, k) {
          RunInv(z, schedule, k);
        }
        var j := FairFinishes(z, schedule, run, 0);
      }
    } else {
      ImpatientIsFair(z);
      forall k: nat ensures !Exchanged(z, RunTo(z, Impatient(z), k)) {
        ImpatientGivesUp(z, k);
      }
      assert !Completes(z, Impatient(z));
    }
  }

  // ----- A bound on the work -----

  /** How many turns of a run did something. */
  function Effective(z: Sizes, turns: seq<Turn>): nat {
    if turns == [] then 0
    else
      var init := turns[..|turns| - 1];
      Effective(z, init)
      + if After(z, Init(z), turns) != After(z, Init(z), init) then 1 else 0
  }

  /** No run does more than a bounded amount of work. */
  lemma {:induction false} BoundedWork(z: Sizes, turns: seq<Turn>)
    requires ValidSizes(z)
    ensures Effective(z, turns) + Work(After(z, Init(z), turns)) <= 2 * z.serverFrame + 2 * z.clientFrame + 1
  {
    if turns != [] {
      var init := turns[..|turns| - 1];
      BoundedWork(z, init);
      AlwaysInv(z, init);
      if After(z, Init(z), turns) != After(z, Init(z), init) {
        StepDecreases(z, After(z, Init(z), init), turns[|turns| - 1]);
      }
    }
  }
}
