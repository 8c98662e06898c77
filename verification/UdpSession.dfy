/** The server's UDP session: registering senders, then demultiplexing datagrams by source. */
module UdpSession {
  import opened Common
  import opened Wire
  import opened Receipts
  import opened UdpHeaders
  import opened UdpLoss
  import Jitter

  datatype SocketAddr = SocketAddr(ip: nat, port: nat)

  // ----- Registering streams -----

  const UDP_STREAM_INIT: seq<Byte> := [57, 56, 55, 54]

  /** One result of `recv_from`: a datagram, or an error such as a read timeout. */
  datatype RecvFrom = Datagram(src: SocketAddr, payload: seq<Byte>) | RecvFailed

  predicate ValidInit(e: RecvFrom, cookie: seq<Byte>) {
    e.Datagram? && (e.payload == cookie || e.payload == UDP_STREAM_INIT)
  }

  /** The sources of valid inits, each once, in order of first arrival. */
  function Registered(events: seq<RecvFrom>, cookie: seq<Byte>): seq<SocketAddr> {
    if events == [] then []
    else
      var prev := Registered(events[..|events| - 1], cookie);
      var e := events[|events| - 1];
      if ValidInit(e, cookie) && e.src !in prev then prev + [e.src] else prev
  }

  /** The events up to the first receive error. */
  function UntilError(events: seq<RecvFrom>): (good: seq<RecvFrom>)
    ensures good <= events
    ensures forall j :: 0 <= j < |good| ==> events[j].Datagram?
    ensures |good| < |events| ==> events[|good|].RecvFailed?
  {
    if events == [] || events[0].RecvFailed? then [] else [events[0]] + UntilError(events[1..])
  }

  /** The event at index `k` is the first valid init from `a`; every valid init before it came
      from a stream that is registered earlier. */
  ghost predicate FirstInit(events: seq<RecvFrom>, cookie: seq<Byte>, addrs: seq<SocketAddr>, p: nat, k: nat)
    requires p < |addrs|
  {
    && k < |events| && ValidInit(events[k], cookie) && events[k].src == addrs[p]
    && forall j :: 0 <= j < k && ValidInit(events[j], cookie) ==> events[j].src in addrs[..p]
  }

  ghost predicate HasFirstInit(events: seq<RecvFrom>, cookie: seq<Byte>, addrs: seq<SocketAddr>, p: nat)
    requires p < |addrs|
  {
    exists k :: FirstInit(events, cookie, addrs, p, k)
  }

  /** `Registered` lists exactly the sources of valid inits, without repeats, by first arrival. */
  lemma {:induction false} RegisteredExactly(events: seq<RecvFrom>, cookie: seq<Byte>)
    ensures var addrs := Registered(events, cookie);
            && Distinct(addrs)
            && (forall j :: 0 <= j < |events| && ValidInit(events[j], cookie) ==> events[j].src in addrs)
            && (forall p :: 0 <= p < |addrs| ==> HasFirstInit(events, cookie, addrs, p))
  {
    if events != [] {
      var init := events[..|events| - 1];
      RegisteredExactly(init, cookie);
      var prev, addrs := Registered(init, cookie), Registered(events, cookie);
      forall p | 0 <= p < |addrs| ensures HasFirstInit(events, cookie, addrs, p) {
        if p < |prev| {
          assert HasFirstInit(init, cookie, prev, p);
          var k :| FirstInit(init, cookie, prev, p, k);
          assert addrs[..p] == prev[..p];
          assert FirstInit(events, cookie, addrs, p, k);
        } else {
          assert addrs[..p] == prev;
          assert FirstInit(events, cookie, addrs, p, |init|);
        }
      }
    }
  }

  lemma RegisteredSnoc(events: seq<RecvFrom>, cookie: seq<Byte>, i: nat)
    requires i < |events|
    ensures var prev := Registered(events[..i], cookie);
            Registered(events[..i + 1], cookie)
            == if ValidInit(events[i], cookie) && events[i].src !in prev then prev + [events[i].src] else prev
  {
    assert events[..i + 1][..i] == events[..i];
  }

  lemma {:induction false} RegisteredGrows(events: seq<RecvFrom>, cookie: seq<Byte>, k: nat)
    requires k <= |events|
    ensures Registered(events[..k], cookie) <= Registered(events, cookie)
  {
    if k < |events| {
      RegisteredGrows(events[..|events| - 1], cookie, k);
      assert events[..|events| - 1][..k] == events[..k];
    } else {
      assert events[..k] == events;
    }
  }

  ghost predicate SameMembers(seen: set<SocketAddr>, addrs: seq<SocketAddr>) {
    forall a {:trigger a in seen} :: a in seen <==> a in addrs
  }

  lemma MembersGrow(seen: set<SocketAddr>, addrs: seq<SocketAddr>, a: SocketAddr)
    requires SameMembers(seen, addrs)
    ensures SameMembers(seen + {a}, addrs + [a])
  {}

  lemma FirstRegistered(events: seq<RecvFrom>, cookie: seq<Byte>, i: nat)
    requires i <= |events|
    ensures var first, all := Registered(events[..i], cookie), Registered(events, cookie);
            |first| <= |all| && all[..|first|] == first && Distinct(first)
  {
    RegisteredGrows(events, cookie, i);
    RegisteredExactly(events[..i], cookie);
  }

  /** Register the first `n` distinct sources of valid inits, acknowledging each of them and
      nobody else; fail if a receive error comes first. An exhausted `events` is such an error. */
  method AcceptUdpStreams(events: seq<RecvFrom>, cookie: seq<Byte>, n: nat)
    returns (r: Result<seq<SocketAddr>, IoError>, acks: seq<SocketAddr>)
    ensures var all := Registered(UntilError(events), cookie);
            && (r.Ok? <==> |all| >= n)
            && (r.Ok? ==> r.value == all[..n] && acks == r.value && Distinct(r.value))
            && (r.Err? ==> acks == all)
  {
    ghost var good := UntilError(events);
    var addrs, seen, i := [], {}, 0;
    acks := [];
    while |addrs| < n
      invariant i <= |good|
      invariant addrs == Registered(good[..i], cookie) && acks == addrs && |addrs| <= n
      invariant SameMembers(seen, addrs)
      decreases |events| - i
    {
      if i == |events| || events[i].RecvFailed? {
        assert good[..i] == good;
        return Err(SocketError), acks;
      }
      var e := events[i];
      RegisteredSnoc(good, cookie, i);
      i := i + 1;
      if !(e.payload == cookie || e.payload == UDP_STREAM_INIT) {
        continue;
      }
      assert e.src in seen <==> e.src in addrs;
      if e.src in seen {
        continue;
      }
      MembersGrow(seen, addrs, e.src);
      seen := seen + {e.src};
      acks := acks + [e.src];
      addrs := addrs + [e.src];
    }
    FirstRegistered(good, cookie, i);
    return Ok(addrs), acks;
  }

  // ----- One stream -----

  /** A datagram from one stream's source, with its arrival time. */
  datatype Arrival = Arrival(payload: seq<Byte>, at: Time)

  datatype StreamState = StreamState(
    receipt: Receipt,
    packets: nat,
    counters: Counters,
    jitter: Jitter.Estimate,
    sawSentinel: bool)

  const NEW_STREAM: StreamState := StreamState(EMPTY, 0, START, Jitter.Estimate(0.0, None), false)

  /** What the server reports for a UDP stream. */
  datatype UdpReceipt = UdpReceipt(receipt: Receipt, packets: nat, lost: nat, ooo: nat, jitterMs: real)

  const EMPTY_UDP: UdpReceipt := UdpReceipt(EMPTY, 0, 0, 0, 0.0)

  function Reported(st: StreamState): UdpReceipt {
    UdpReceipt(st.receipt, st.packets, st.counters.lost, st.counters.ooo, st.jitter.jitter)
  }

  function SendMs(h: UdpHeader): real {
    h.tvSec as real * 1000.0 + h.tvUsec as real / 1000.0
  }

  /** Receive time since the stream's first packet, minus send time, in milliseconds. */
  function Transit(first: Time, now: Time, h: UdpHeader): real {
    Since(now, first) as real / 1_000_000.0 - SendMs(h)
  }

  predicate IsData(payload: seq<Byte>) {
    |payload| >= UDP_HEADER_LEN && !IsSentinel(DecodeHeader(payload).value)
  }

  function Absorb(st: StreamState, a: Arrival, omit: nat): StreamState {
    if |a.payload| < UDP_HEADER_LEN then st
    else
      var h := DecodeHeader(a.payload).value;
      if IsSentinel(h) then st.(sawSentinel := true)
      else
        var receipt := Account(st.receipt, Delivery(|a.payload|, a.at), omit);
        StreamState(
          receipt,
          st.packets + 1,
          Count(st.counters, h.seqNo),
          Jitter.Observe(st.jitter, Transit(receipt.firstAt.value, a.at, h)),
          st.sawSentinel)
  }

  /** A receiver with a single stream. */
  function FoldStream(arrivals: seq<Arrival>, omit: nat): StreamState {
    if arrivals == [] then NEW_STREAM
    else Absorb(FoldStream(arrivals[..|arrivals| - 1], omit), arrivals[|arrivals| - 1], omit)
  }

  // ----- The receiver loop -----

  const GRACE: nat := 500_000_000

  datatype Outcome = Got(src: SocketAddr, payload: seq<Byte>) | TimedOut | Failed

  /** What one iteration of the loop observes: the stop flag, the clock readings for a new
      deadline and for the deadline check, the receive and its time, and the stop flag again. */
  datatype Tick = Tick(
    stop: bool,
    deadlineFrom: Time,
    checkedAt: Time,
    outcome: Outcome,
    receivedAt: Time,
    stopAfter: bool)

  datatype Exit = AllSentinels | DeadlinePassed | ReadTimeout | HardError

  /** Iterations take time and the stop flag, once raised, stays raised. */
  ghost predicate RealClock(env: nat -> Tick) {
    forall i: nat :: Advances(env, i)
  }

  predicate Advances(env: nat -> Tick, i: nat) {
    var t, next := env(i), env(i + 1);
    && t.deadlineFrom <= t.checkedAt <= t.receivedAt <= next.deadlineFrom
    && t.checkedAt < next.checkedAt
    && (t.stop ==> t.stopAfter)
    && (t.stopAfter ==> next.stop)
  }

  /** The datagrams of the first `n` iterations that came from `src`. */
  function FromSource(env: nat -> Tick, n: nat, src: SocketAddr): seq<Arrival> {
    if n == 0 then []
    else
      var t := env(n - 1);
      FromSource(env, n - 1, src) +
      if t.outcome.Got? && t.outcome.src == src then [Arrival(t.outcome.payload, t.receivedAt)] else []
  }

  /** The iteration that first saw the stop flag, for a loop that sees it at `j`. */
  function FirstStop(env: nat -> Tick, j: nat): (f: nat)
    requires env(j).stop
    ensures f <= j && env(f).stop && (f > 0 ==> !env(f - 1).stop)
  {
    if j == 0 || !env(j - 1).stop then j else FirstStop(env, j - 1)
  }

  ghost predicate SentinelsSeen(env: nat -> Tick, order: seq<SocketAddr>, omit: nat, j: nat) {
    forall i :: 0 <= i < |order| ==> FoldStream(FromSource(env, j, order[i]), omit).sawSentinel
  }

  /** Whether iteration `j` leaves the loop, and why. */
  ghost function ExitAt(env: nat -> Tick, order: seq<SocketAddr>, omit: nat, j: nat): Option<Exit> {
    if env(j).stop && SentinelsSeen(env, order, omit, j) then Some(AllSentinels)
    else if env(j).stop && env(j).checkedAt >= env(FirstStop(env, j)).deadlineFrom + GRACE then Some(DeadlinePassed)
    else match env(j).outcome
         case Got(_, _) => None
         case TimedOut => if env(j).stopAfter then Some(ReadTimeout) else None
         case Failed => Some(HardError)
  }

  /** What the receiver reports for position `i` of `order` after `n` receives: the single-stream
      receipt of that source, or an empty one if an earlier position has the same source. */
  function Demuxed(env: nat -> Tick, order: seq<SocketAddr>, omit: nat, n: nat, i: nat): UdpReceipt
    requires i < |order|
  {
    if order[i] in order[..i] then EMPTY_UDP
    else Reported(FoldStream(FromSource(env, n, order[i]), omit))
  }

  ghost predicate StatesMatch(
    states: map<SocketAddr, StreamState>, env: nat -> Tick, order: seq<SocketAddr>, omit: nat, n: nat)
  {
    && states.Keys == (set a | a in order)
    && forall a :: a in states ==> states[a] == FoldStream(FromSource(env, n, a), omit)
  }

  lemma {:induction false} StopPersists(env: nat -> Tick, n: nat, stopBy: nat)
    requires RealClock(env) && env(stopBy).stop && stopBy <= n
    ensures env(n).stop
    decreases n
  {
    if stopBy < n {
      StopPersists(env, n - 1, stopBy);
      assert Advances(env, n - 1);
    }
  }

  function Routed(states: map<SocketAddr, StreamState>, t: Tick, omit: nat): map<SocketAddr, StreamState> {
    if t.outcome.Got? && t.outcome.src in states
    then states[t.outcome.src := Absorb(states[t.outcome.src], Arrival(t.outcome.payload, t.receivedAt), omit)]
    else states
  }

  lemma StatesStep(states: map<SocketAddr, StreamState>, env: nat -> Tick, order: seq<SocketAddr>, omit: nat, n: nat)
    requires StatesMatch(states, env, order, omit, n)
    ensures StatesMatch(Routed(states, env(n), omit), env, order, omit, n + 1)
  {
    var t := env(n);
    forall a | a in states
      ensures FoldStream(FromSource(env, n + 1, a), omit) ==
              if t.outcome.Got? && t.outcome.src == a
              then Absorb(states[a], Arrival(t.outcome.payload, t.receivedAt), omit) else states[a]
    {
      if t.outcome.Got? && t.outcome.src == a {
        assert FromSource(env, n + 1, a)[..|FromSource(env, n, a)|] == FromSource(env, n, a);
      } else {
        assert FromSource(env, n + 1, a) == FromSource(env, n, a);
      }
    }
  }

  /** The deadline that iteration `n` starts with: set by the first iteration that saw the flag. */
  ghost predicate DeadlineMatches(deadline: Option<Time>, env: nat -> Tick, n: nat) {
    deadline == if n > 0 && env(n - 1).stop
                then Some(env(FirstStop(env, n - 1)).deadlineFrom + GRACE)
                else None
  }

  function NextDeadline(deadline: Option<Time>, t: Tick): Option<Time> {
    if t.stop && deadline.None? then Some(t.deadlineFrom + GRACE) else deadline
  }

  /** Why an iteration leaves the loop, from what the loop keeps. */
  function Leaves(states: map<SocketAddr, StreamState>, deadline: Option<Time>, t: Tick): Option<Exit> {
    if t.stop && (forall a :: a in states ==> states[a].sawSentinel) then Some(AllSentinels)
    else if t.stop && t.checkedAt >= NextDeadline(deadline, t).value then Some(DeadlinePassed)
    else match t.outcome
         case Got(_, _) => None
         case TimedOut => if t.stopAfter then Some(ReadTimeout) else None
         case Failed => Some(HardError)
  }

  lemma DeadlineStep(deadline: Option<Time>, env: nat -> Tick, n: nat)
    requires RealClock(env) && DeadlineMatches(deadline, env, n)
    ensures DeadlineMatches(NextDeadline(deadline, env(n)), env, n + 1)
  {
    ClockFacts(env, n);
  }

  lemma LeavesIsExitAt(
    states: map<SocketAddr, StreamState>, deadline: Option<Time>, env: nat -> Tick, order: seq<SocketAddr>, omit: nat, n: nat)
    requires StatesMatch(states, env, order, omit, n)
    requires DeadlineMatches(deadline, env, n)
    ensures Leaves(states, deadline, env(n)) == ExitAt(env, order, omit, n)
  {}

  /** The loop is still running when it reaches iteration `n`. */
  ghost predicate Reaches(env: nat -> Tick, order: seq<SocketAddr>, omit: nat, n: nat) {
    forall j :: 0 <= j < n ==> ExitAt(env, order, omit, j) == None
  }

  lemma ReachesStep(env: nat -> Tick, order: seq<SocketAddr>, omit: nat, n: nat)
    requires Reaches(env, order, omit, n) && ExitAt(env, order, omit, n) == None
    ensures Reaches(env, order, omit, n + 1)
  {}

  /** One iteration of the receive loop. */
  method Iterate(states: map<SocketAddr, StreamState>, deadline: Option<Time>, t: Tick, omit: nat)
    returns (states': map<SocketAddr, StreamState>, deadline': Option<Time>, exit: Option<Exit>)
    ensures deadline' == NextDeadline(deadline, t)
    ensures exit == Leaves(states, deadline, t)
    ensures states' == if exit.None? then Routed(states, t, omit) else states
  {
    states', deadline', exit := states, deadline, None;
    if t.stop {
      if deadline'.None? {
        deadline' := Some(t.deadlineFrom + GRACE);
      }
      if (forall a :: a in states ==> states[a].sawSentinel) {
        exit := Some(AllSentinels);
        return;
      }
      if t.checkedAt >= deadline'.value {
        exit := Some(DeadlinePassed);
        return;
      }
    }
    match t.outcome {
      case Got(src, payload) =>
        if src in states {
          states' := states[src := Absorb(states[src], Arrival(payload, t.receivedAt), omit)];
        }
      case TimedOut =>
        if t.stopAfter {
          exit := Some(ReadTimeout);
        }
      case Failed =>
        exit := Some(HardError);
    }
  }

  /** Iterations until the stop flag, or nanoseconds until the deadline. */
  ghost function TicksLeft(deadline: Option<Time>, stopBy: nat, n: nat, now: Time): nat {
    match deadline
    case None => Since(stopBy, n)
    case Some(d) => Since(d, now)
  }

  /** Every iteration that stays in the loop brings its end closer. */
  lemma Progress(states: map<SocketAddr, StreamState>, deadline: Option<Time>, env: nat -> Tick, stopBy: nat, n: nat)
    requires RealClock(env) && env(stopBy).stop && DeadlineMatches(deadline, env, n)
    requires Leaves(states, deadline, env(n)) == None
    ensures var next := NextDeadline(deadline, env(n));
            || (deadline.None? && next.Some?)
            || (deadline.None? == next.None?
                && TicksLeft(next, stopBy, n + 1, env(n + 1).checkedAt) < TicksLeft(deadline, stopBy, n, env(n).checkedAt))
  {
    ClockFacts(env, n);
    if stopBy <= n {
      StopPersists(env, n, stopBy);
    }
  }

  /** The receive loop. The stop flag is raised by iteration `stopBy` at the latest, and the
      loop then ends. */
  method ReceiveLoop(env: nat -> Tick, order: seq<SocketAddr>, omit: nat, ghost stopBy: nat)
    returns (states: map<SocketAddr, StreamState>, exit: Exit, n: nat)
    requires RealClock(env) && env(stopBy).stop
    ensures ExitAt(env, order, omit, n) == Some(exit)
    ensures Reaches(env, order, omit, n)
    ensures StatesMatch(states, env, order, omit, n)
  {
    states := map a | a in order :: NEW_STREAM;
    var graceDeadline: Option<Time> := None;
    n := 0;
    while true
      invariant StatesMatch(states, env, order, omit, n)
      invariant Reaches(env, order, omit, n)
      invariant DeadlineMatches(graceDeadline, env, n)
      decreases graceDeadline.None?, TicksLeft(graceDeadline, stopBy, n, env(n).checkedAt)
    {
      LeavesIsExitAt(states, graceDeadline, env, order, omit, n);
      StatesStep(states, env, order, omit, n);
      DeadlineStep(graceDeadline, env, n);
      ghost var before, deadline := states, graceDeadline;
      var left: Option<Exit>;
      states, graceDeadline, left := Iterate(states, graceDeadline, env(n), omit);
      if left.Some? {
        exit := left.value;
        return;
      }
      Progress(before, deadline, env, stopBy, n);
      ReachesStep(env, order, omit, n);
      n := n + 1;
    }
  }

  /** The demultiplexing receiver: the receive loop, then one receipt for each registered stream. */
  method RunUdpReceiver(env: nat -> Tick, order: seq<SocketAddr>, omit: nat, ghost stopBy: nat)
    returns (receipts: seq<UdpReceipt>, exit: Exit, n: nat)
    requires RealClock(env) && env(stopBy).stop
    ensures ExitAt(env, order, omit, n) == Some(exit)
    ensures Reaches(env, order, omit, n)
    ensures |receipts| == |order|
    ensures forall i :: 0 <= i < |order| ==> receipts[i] == Demuxed(env, order, omit, n, i)
  {
    var states: map<SocketAddr, StreamState>;
    states, exit, n := ReceiveLoop(env, order, omit, stopBy);
    receipts := TakeReceipts(states, order);
    forall i | 0 <= i < |order| ensures receipts[i] == Demuxed(env, order, omit, n, i) {
      assert order[i] in states;
    }
  }

  lemma ClockFacts(env: nat -> Tick, n: nat)
    requires RealClock(env)
    ensures env(n).checkedAt < env(n + 1).checkedAt
    ensures n > 0 && env(n - 1).stop ==> env(n).stop
  {
    assert Advances(env, n);
    if n > 0 {
      assert Advances(env, n - 1);
    }
  }

  lemma PrefixMember(order: seq<SocketAddr>, k: nat)
    requires k < |order|
    ensures forall a :: a in order[..k + 1] <==> a in order[..k] || a == order[k]
  {}

  /** Take each stream's state out of the map in registration order. */
  method TakeReceipts(states: map<SocketAddr, StreamState>, order: seq<SocketAddr>) returns (receipts: seq<UdpReceipt>)
    ensures |receipts| == |order|
    ensures forall i :: 0 <= i < |order| ==> receipts[i] == Taken(states, order, i)
  {
    receipts := [];
    var left := states;
    ghost var taken: set<SocketAddr> := {};
    for k := 0 to |order|
      invariant |receipts| == k
      invariant left == states - taken
      invariant forall a :: a in taken <==> a in order[..k]
      invariant forall i :: 0 <= i < k ==> receipts[i] == Taken(states, order, i)
    {
      var a := order[k];
      PrefixMember(order, k);
      taken := taken + {a};
      if a in left {
        receipts := receipts + [Reported(left[a])];
        left := left - {a};
      } else {
        receipts := receipts + [EMPTY_UDP];
      }
    }
  }

  /** The receipt of the `i`-th registration: an address registered before has none of its own. */
  function Taken(states: map<SocketAddr, StreamState>, order: seq<SocketAddr>, i: nat): UdpReceipt
    requires i < |order|
  {
    if order[i] in order[..i] || order[i] !in states then EMPTY_UDP else Reported(states[order[i]])
  }
}
