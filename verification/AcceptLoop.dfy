/** The concurrent accept loop: a cookie registry, a capacity, a per-address session count, and
    session threads that finish in any order. Each lock-protected region is one atomic step. */
module AcceptLoop {
  import opened Common
  import opened Wire

  type Cookie = seq<Byte>
  type Ip = nat

  const PER_IP_SESSION_CAP: nat := 4

  // ----- The per-address counter -----

  /** `try_acquire`: the entry is created before the limit is looked at. */
  function Acquire(counts: map<Ip, nat>, ip: Ip, limit: nat): (map<Ip, nat>, bool) {
    var count := if ip in counts then counts[ip] else 0;
    if count >= limit then (counts[ip := count], false) else (counts[ip := count + 1], true)
  }

  /** Dropping a handle. */
  function Release(counts: map<Ip, nat>, ip: Ip): map<Ip, nat> {
    if ip !in counts then counts
    else
      var count := if counts[ip] > 0 then counts[ip] - 1 else 0;
      if count == 0 then counts - {ip} else counts[ip := count]
  }

  class PerIpCounter {
    var counts: map<Ip, nat>

    constructor ()
      ensures counts == map[]
    {
      counts := map[];
    }

    method TryAcquire(ip: Ip, limit: nat) returns (acquired: bool)
      modifies this
      ensures (counts, acquired) == Acquire(old(counts), ip, limit)
    {
      if ip !in counts {
        counts := counts[ip := 0];
      }
      if counts[ip] >= limit {
        assert counts == old(counts)[ip := counts[ip]];
        return false;
      }
      counts := counts[ip := counts[ip] + 1];
      assert counts == old(counts)[ip := counts[ip]];
      return true;
    }

    method DropHandle(ip: Ip)
      modifies this
      ensures counts == Release(old(counts), ip)
    {
      if ip in counts {
        counts := counts[ip := if counts[ip] > 0 then counts[ip] - 1 else 0];
        if counts[ip] == 0 {
          counts := counts - {ip};
          assert counts == old(counts) - {ip};
        }
      }
    }
  }

  // ----- Sessions -----

  /** A connection whose cookie has been read. */
  datatype Conn = Conn(id: nat, cookie: Cookie, ip: Ip)

  /** A session thread: serving, then its receiver is gone, then its registry entry, then its
      per-address handle. A panic while serving skips the registry. */
  datatype Phase = Serving | Returned | Unregistered | Gone | Panicked

  /** `openedAt` is the position of the session's control connection among all arrivals;
      `channel` holds the data streams not yet taken, `taken` the ones taken, oldest first. */
  datatype Session = Session(
    cookie: Cookie, ip: Ip, openedAt: nat, phase: Phase, channel: seq<Conn>, taken: seq<Conn>)

  datatype ServerState = ServerState(
    registry: map<Cookie, nat>,
    perIp: map<Ip, nat>,
    sessions: seq<Session>,
    arrivals: seq<Conn>)

  /** A server whose registry refers to existing sessions, as handles in the source always do. */
  type Server = s: ServerState | forall c :: c in s.registry ==> s.registry[c] < |s.sessions|
    witness ServerState(map[], map[], [], [])

  const IDLE: Server := ServerState(map[], map[], [], [])

  datatype Step =
    | Arrive(conn: Conn)
    | Take(sid: nat)
    | Return(sid: nat)
    | Unregister(sid: nat)
    | ReleaseIp(sid: nat)
    | Panic(sid: nat)

  predicate InPhase(s: Server, sid: nat, phase: Phase) {
    sid < |s.sessions| && s.sessions[sid].phase == phase
  }

  predicate Enabled(s: Server, step: Step) {
    match step
    case Arrive(_) => true
    case Take(sid) => InPhase(s, sid, Serving) && s.sessions[sid].channel != []
    case Return(sid) => InPhase(s, sid, Serving)
    case Unregister(sid) => InPhase(s, sid, Returned)
    case ReleaseIp(sid) => InPhase(s, sid, Unregistered)
    case Panic(sid) => InPhase(s, sid, Serving)
  }

  function Update(s: Server, sid: nat, session: Session): Server
    requires sid < |s.sessions|
  {
    s.(sessions := s.sessions[sid := session])
  }

  /** What the accept loop does with one connection. */
  function OnArrival(s: Server, conn: Conn, maxConcurrent: nat): Server
  {
    var s1 := s.(arrivals := s.arrivals + [conn]);
    if conn.cookie in s.registry then
      var sid := s.registry[conn.cookie];
      var session := s.sessions[sid];
      // A send to a session whose receiver is gone fails and the connection is dropped.
      if session.phase == Serving
      then Update(s1, sid, session.(channel := session.channel + [conn]))
      else s1
    else if |s.registry| >= maxConcurrent then s1
    else
      var (counts, acquired) := Acquire(s.perIp, conn.ip, PER_IP_SESSION_CAP);
      if !acquired then s1.(perIp := counts)
      else
        s1.(perIp := counts,
            registry := s.registry[conn.cookie := |s.sessions|],
            sessions := s.sessions + [Session(conn.cookie, conn.ip, |s.arrivals|, Serving, [], [])])
  }

  function Next(s: Server, step: Step, maxConcurrent: nat): Server
    requires Enabled(s, step)
  {
    match step
    case Arrive(conn) => OnArrival(s, conn, maxConcurrent)
    case Take(sid) =>
      var session := s.sessions[sid];
      Update(s, sid, session.(taken := session.taken + [session.channel[0]], channel := session.channel[1..]))
    case Return(sid) => Update(s, sid, s.sessions[sid].(phase := Returned, channel := []))
    case Unregister(sid) =>
      var session := s.sessions[sid];
      Update(s, sid, session.(phase := Unregistered)).(registry := s.registry - {session.cookie})
    case ReleaseIp(sid) =>
      var session := s.sessions[sid];
      Update(s, sid, session.(phase := Gone)).(perIp := Release(s.perIp, session.ip))
    case Panic(sid) =>
      var session := s.sessions[sid];
      Update(s, sid, session.(phase := Panicked, channel := [])).(perIp := Release(s.perIp, session.ip))
  }

  // ----- What every step keeps -----

  predicate HoldsEntry(p: Phase) { p == Serving || p == Returned || p == Panicked }

  predicate HoldsHandle(p: Phase) { p == Serving || p == Returned || p == Unregistered }

  /** Registry entries and the sessions that hold one correspond one to one. */
  ghost predicate RegistryInv(s: Server) {
    && (forall c :: c in s.registry ==> s.registry[c] < |s.sessions| && Owns(s, s.registry[c], c))
    && (forall sid :: 0 <= sid < |s.sessions| && HoldsEntry(s.sessions[sid].phase) ==>
          s.sessions[sid].cookie in s.registry && s.registry[s.sessions[sid].cookie] == sid)
  }

  ghost predicate Owns(s: Server, sid: nat, c: Cookie)
    requires sid < |s.sessions|
  {
    s.sessions[sid].cookie == c && HoldsEntry(s.sessions[sid].phase)
  }

  /** The live handles for an address. */
  ghost function Handles(s: Server, ip: Ip): set<nat> {
    set sid | 0 <= sid < |s.sessions| && s.sessions[sid].ip == ip && HoldsHandle(s.sessions[sid].phase)
  }

  /** The counter is the number of live handles, without empty entries. */
  ghost predicate CountInv(s: Server, ip: Ip) {
    && (ip in s.perIp <==> Handles(s, ip) != {})
    && (ip in s.perIp ==> s.perIp[ip] == |Handles(s, ip)| && 1 <= s.perIp[ip] <= PER_IP_SESSION_CAP)
  }

  function WithCookie(conns: seq<Conn>, c: Cookie): seq<Conn> {
    if conns == [] then []
    else
      var last := conns[|conns| - 1];
      WithCookie(conns[..|conns| - 1], c) + if last.cookie == c then [last] else []
  }

  /** All the connections that arrived with the session's cookie after its control connection. */
  ghost function Matching(s: Server, sid: nat): seq<Conn>
    requires sid < |s.sessions| && s.sessions[sid].openedAt < |s.arrivals|
  {
    WithCookie(s.arrivals[s.sessions[sid].openedAt + 1..], s.sessions[sid].cookie)
  }

  /** A serving session has received, in order, every connection with its cookie since it was
      opened; the streams any session took are the first of those. */
  ghost predicate ChannelInv(s: Server, sid: nat)
    requires sid < |s.sessions|
  {
    var session := s.sessions[sid];
    && session.openedAt < |s.arrivals|
    && s.arrivals[session.openedAt].cookie == session.cookie
    && s.arrivals[session.openedAt].ip == session.ip
    && session.taken <= Matching(s, sid)
    && (session.phase == Serving ==> session.taken + session.channel == Matching(s, sid))
    && (session.phase != Serving ==> session.channel == [])
  }

  ghost predicate Inv(s: Server, maxConcurrent: nat) {
    && RegistryInv(s)
    && |s.registry| <= maxConcurrent
    && (forall ip :: CountInv(s, ip))
    && (forall sid :: 0 <= sid < |s.sessions| ==> ChannelInv(s, sid))
  }

  // Registry

  /** Changing one session matters to the registry only if the session stops holding its entry. */
  lemma RegistrySame(s: Server, s': Server, sid: nat, session: Session)
    requires RegistryInv(s) && sid < |s.sessions|
    requires s'.registry == s.registry && s'.sessions == s.sessions[sid := session]
    requires session.cookie == s.sessions[sid].cookie
    requires HoldsEntry(session.phase) == HoldsEntry(s.sessions[sid].phase)
    ensures RegistryInv(s')
  {}

  lemma RegistryOpen(s: Server, s': Server, session: Session)
    requires RegistryInv(s) && session.cookie !in s.registry && HoldsEntry(session.phase)
    requires s'.registry == s.registry[session.cookie := |s.sessions|] && s'.sessions == s.sessions + [session]
    ensures RegistryInv(s') && |s'.registry| == |s.registry| + 1
  {}

  /** A finishing thread takes its own entry out of the registry and touches no other. */
  lemma UnregisterOwnEntry(s: Server, sid: nat, maxConcurrent: nat)
    requires RegistryInv(s) && InPhase(s, sid, Returned)
    ensures var s' := Next(s, Unregister(sid), maxConcurrent);
            var cookie := s.sessions[sid].cookie;
            && cookie in s.registry && s.registry[cookie] == sid && cookie !in s'.registry
            && (forall c :: c in s.registry && s.registry[c] != sid ==> c in s'.registry && s'.registry[c] == s.registry[c])
            && |s'.registry| == |s.registry| - 1
            && RegistryInv(s')
  {}

  lemma RegistryArrival(s: Server, conn: Conn, maxConcurrent: nat)
    requires RegistryInv(s) && |s.registry| <= maxConcurrent
    ensures RegistryInv(OnArrival(s, conn, maxConcurrent))
    ensures |OnArrival(s, conn, maxConcurrent).registry| <= maxConcurrent
  {
    var s' := OnArrival(s, conn, maxConcurrent);
    if |s'.sessions| > |s.sessions| {
      RegistryOpen(s, s', s'.sessions[|s.sessions|]);
    } else if conn.cookie in s.registry {
      var sid := s.registry[conn.cookie];
      assert s'.sessions == s.sessions[sid := s'.sessions[sid]];
      RegistrySame(s, s', sid, s'.sessions[sid]);
    } else {
      assert s'.registry == s.registry && s'.sessions == s.sessions;
      assert forall c :: c in s.registry ==> Owns(s, s.registry[c], c) == Owns(s', s'.registry[c], c);
    }
  }

  lemma RegistryStep(s: Server, step: Step, maxConcurrent: nat)
    requires Enabled(s, step) && RegistryInv(s) && |s.registry| <= maxConcurrent
    ensures RegistryInv(Next(s, step, maxConcurrent))
    ensures |Next(s, step, maxConcurrent).registry| <= maxConcurrent
  {
    match step {
      case Arrive(conn) => RegistryArrival(s, conn, maxConcurrent);
      case Unregister(sid) => UnregisterOwnEntry(s, sid, maxConcurrent);
      case _ =>
        var s' := Next(s, step, maxConcurrent);
        RegistrySame(s, s', step.sid, s'.sessions[step.sid]);
    }
  }

  // Per-address counts

  lemma HandlesUpdate(s: Server, s': Server, sid: nat, ip: Ip)
    requires sid < |s.sessions| && |s'.sessions| == |s.sessions|
    requires forall i :: 0 <= i < |s.sessions| && i != sid ==> s'.sessions[i] == s.sessions[i]
    requires s'.sessions[sid].ip == s.sessions[sid].ip
    ensures HoldsHandle(s'.sessions[sid].phase) == HoldsHandle(s.sessions[sid].phase) ==> Handles(s', ip) == Handles(s, ip)
    ensures HoldsHandle(s.sessions[sid].phase) && !HoldsHandle(s'.sessions[sid].phase) ==>
              Handles(s', ip) == if ip == s.sessions[sid].ip then Handles(s, ip) - {sid} else Handles(s, ip)
  {}

  lemma HandlesOpen(s: Server, s': Server, session: Session, ip: Ip)
    requires s'.sessions == s.sessions + [session] && HoldsHandle(session.phase)
    ensures Handles(s', ip) == if ip == session.ip then Handles(s, ip) + {|s.sessions|} else Handles(s, ip)
  {}

  lemma CountOpen(s: Server, s': Server, session: Session, ip: Ip)
    requires CountInv(s, ip) && CountInv(s, session.ip) && HoldsHandle(session.phase)
    requires s'.sessions == s.sessions + [session]
    requires (s'.perIp, true) == Acquire(s.perIp, session.ip, PER_IP_SESSION_CAP)
    ensures CountInv(s', ip)
  {
    HandlesOpen(s, s', session, ip);
    assert |s.sessions| !in Handles(s, ip);
  }

  lemma CountArrival(s: Server, conn: Conn, maxConcurrent: nat, ip: Ip)
    requires CountInv(s, ip) && CountInv(s, conn.ip)
    ensures CountInv(OnArrival(s, conn, maxConcurrent), ip)
  {
    var s' := OnArrival(s, conn, maxConcurrent);
    if |s'.sessions| > |s.sessions| {
      CountOpen(s, s', s'.sessions[|s.sessions|], ip);
    } else if conn.cookie in s.registry {
      HandlesUpdate(s, s', s.registry[conn.cookie], ip);
    } else {
      assert Handles(s', ip) == Handles(s, ip);
      assert s'.perIp == s.perIp;
    }
  }

  lemma CountStep(s: Server, step: Step, maxConcurrent: nat, ip: Ip)
    requires Enabled(s, step) && (forall ip :: CountInv(s, ip))
    ensures CountInv(Next(s, step, maxConcurrent), ip)
  {
    if step.Arrive? {
      assert CountInv(s, ip) && CountInv(s, step.conn.ip);
      CountArrival(s, step.conn, maxConcurrent, ip);
    } else {
      var s' := Next(s, step, maxConcurrent);
      assert CountInv(s, ip);
      HandlesUpdate(s, s', step.sid, ip);
      if step.ReleaseIp? || step.Panic? {
        ReleaseCounts(s, s', step.sid, ip);
      }
    }
  }

  lemma ReleaseCounts(s: Server, s': Server, sid: nat, ip: Ip)
    requires sid < |s.sessions| && HoldsHandle(s.sessions[sid].phase)
    requires forall ip :: CountInv(s, ip)
    requires s'.perIp == Release(s.perIp, s.sessions[sid].ip)
    requires Handles(s', ip) == if ip == s.sessions[sid].ip then Handles(s, ip) - {sid} else Handles(s, ip)
    ensures CountInv(s', ip)
  {
    assert CountInv(s, ip) && CountInv(s, s.sessions[sid].ip);
    assert sid in Handles(s, s.sessions[sid].ip);
    if ip == s.sessions[sid].ip {
      assert |Handles(s', ip)| == |Handles(s, ip)| - 1;
    }
  }

  // Channels

  lemma WithCookieSnoc(conns: seq<Conn>, conn: Conn, c: Cookie)
    ensures WithCookie(conns + [conn], c) == WithCookie(conns, c) + if conn.cookie == c then [conn] else []
  {}

  /** A session's matching connections grow by the new arrival exactly if it has the cookie. */
  lemma MatchingArrival(s: Server, s': Server, conn: Conn, sid: nat)
    requires sid < |s.sessions| <= |s'.sessions| && s.sessions[sid].openedAt < |s.arrivals|
    requires s'.arrivals == s.arrivals + [conn]
    requires s'.sessions[sid].cookie == s.sessions[sid].cookie && s'.sessions[sid].openedAt == s.sessions[sid].openedAt
    ensures Matching(s', sid) == Matching(s, sid) + if conn.cookie == s.sessions[sid].cookie then [conn] else []
  {
    var from := s.sessions[sid].openedAt + 1;
    assert s'.arrivals[from..] == s.arrivals[from..] + [conn];
    WithCookieSnoc(s.arrivals[from..], conn, s.sessions[sid].cookie);
  }

  lemma ChannelArrival(s: Server, conn: Conn, maxConcurrent: nat, sid: nat)
    requires RegistryInv(s) && sid < |s.sessions| && ChannelInv(s, sid)
    ensures ChannelInv(OnArrival(s, conn, maxConcurrent), sid)
  {
    var s' := OnArrival(s, conn, maxConcurrent);
    MatchingArrival(s, s', conn, sid);
    var session := s.sessions[sid];
    if session.phase == Serving && conn.cookie == session.cookie {
      assert s.registry[conn.cookie] == sid;
      assert session.taken + (session.channel + [conn]) == session.taken + session.channel + [conn];
    }
  }

  lemma ChannelStep(s: Server, step: Step, maxConcurrent: nat, sid: nat)
    requires Enabled(s, step) && Inv(s, maxConcurrent)
    requires sid < |Next(s, step, maxConcurrent).sessions|
    ensures ChannelInv(Next(s, step, maxConcurrent), sid)
  {
    if sid >= |s.sessions| {
      ChannelOpen(s, step.conn, maxConcurrent, sid);
    } else if step.Arrive? {
      ChannelArrival(s, step.conn, maxConcurrent, sid);
    } else {
      assert ChannelInv(s, sid);
      ChannelKeeps(s, step, maxConcurrent, sid);
    }
  }

  /** A new session has received nothing yet. */
  lemma ChannelOpen(s: Server, conn: Conn, maxConcurrent: nat, sid: nat)
    requires |s.sessions| <= sid < |OnArrival(s, conn, maxConcurrent).sessions|
    ensures ChannelInv(OnArrival(s, conn, maxConcurrent), sid)
  {}

  lemma ChannelKeeps(s: Server, step: Step, maxConcurrent: nat, sid: nat)
    requires Enabled(s, step) && !step.Arrive? && sid < |s.sessions| && ChannelInv(s, sid)
    ensures ChannelInv(Next(s, step, maxConcurrent), sid)
  {}

  lemma InvStep(s: Server, step: Step, maxConcurrent: nat)
    requires Enabled(s, step) && Inv(s, maxConcurrent)
    ensures Inv(Next(s, step, maxConcurrent), maxConcurrent)
  {
    var s' := Next(s, step, maxConcurrent);
    RegistryStep(s, step, maxConcurrent);
    forall ip ensures CountInv(s', ip) {
      CountStep(s, step, maxConcurrent, ip);
    }
    forall sid | 0 <= sid < |s'.sessions| ensures ChannelInv(s', sid) {
      ChannelStep(s, step, maxConcurrent, sid);
    }
  }

  // ----- Admission -----

  /** A connection with a new cookie opens exactly one session if and only if the registry has room and
      its address has fewer than four live handles. Otherwise no session and no entry changes. */
  lemma AdmittedIff(s: Server, conn: Conn, maxConcurrent: nat)
    requires Inv(s, maxConcurrent) && conn.cookie !in s.registry
    ensures var s' := OnArrival(s, conn, maxConcurrent);
            if |s.registry| < maxConcurrent && |Handles(s, conn.ip)| < 4
            then
              && s'.sessions == s.sessions + [Session(conn.cookie, conn.ip, |s.arrivals|, Serving, [], [])]
              && s'.registry == s.registry[conn.cookie := |s.sessions|]
            else s'.sessions == s.sessions && s'.registry == s.registry
  {
    assert CountInv(s, conn.ip);
  }

  // ----- Whole runs -----

  /** `s` is reached from `p` by these steps. */
  ghost predicate Follows(p: Server, steps: seq<Step>, s: Server, maxConcurrent: nat) {
    if steps == [] then s == p
    else
      var last := steps[|steps| - 1];
      exists q: Server ::
        && Follows(p, steps[..|steps| - 1], q, maxConcurrent)
        && Enabled(q, last) && s == Next(q, last, maxConcurrent)
  }

  /** `s` is reached from an idle server. */
  ghost predicate Reaches(steps: seq<Step>, s: Server, maxConcurrent: nat) {
    Follows(IDLE, steps, s, maxConcurrent)
  }

  lemma IdleInv(maxConcurrent: nat)
    ensures Inv(IDLE, maxConcurrent)
  {}

  lemma {:induction false} FollowsInv(p: Server, steps: seq<Step>, s: Server, maxConcurrent: nat)
    requires Inv(p, maxConcurrent) && Follows(p, steps, s, maxConcurrent)
    ensures Inv(s, maxConcurrent)
  {
    if steps != [] {
      var init, last := steps[..|steps| - 1], steps[|steps| - 1];
      var q: Server :| Follows(p, init, q, maxConcurrent)
                       && Enabled(q, last) && s == Next(q, last, maxConcurrent);
      FollowsInv(p, init, q, maxConcurrent);
      InvStep(q, last, maxConcurrent);
    }
  }

  /** In every reachable state, whatever the order in which sessions start, take streams, return
      and panic: the registry is within capacity and its entries belong one to one to sessions;
      the counter is exact and within 1..4; and sessions only ever see their own streams. */
  lemma ReachableInv(steps: seq<Step>, s: Server, maxConcurrent: nat)
    requires Reaches(steps, s, maxConcurrent)
    ensures Inv(s, maxConcurrent)
  {
    IdleInv(maxConcurrent);
    FollowsInv(IDLE, steps, s, maxConcurrent);
  }

  // ----- Consequences -----

  /** The registry entries that sessions from `ip` hold. */
  ghost function EntriesFrom(s: Server, ip: Ip): set<Cookie> {
    set c | c in s.registry && s.sessions[s.registry[c]].ip == ip
  }

  /** The sessions from `ip` in one phase. */
  ghost function InPhaseFrom(s: Server, ip: Ip, phase: Phase): set<nat> {
    set sid | 0 <= sid < |s.sessions| && s.sessions[sid].ip == ip && s.sessions[sid].phase == phase
  }

  ghost function Holders(s: Server, ip: Ip): set<nat> {
    set sid | 0 <= sid < |s.sessions| && s.sessions[sid].ip == ip && HoldsEntry(s.sessions[sid].phase)
  }

  lemma {:induction false} OneEntryPerHolder(s: Server, entries: set<Cookie>, holders: set<nat>)
    requires RegistryInv(s)
    requires forall c :: c in entries ==> c in s.registry && s.registry[c] in holders
    requires forall sid :: sid in holders ==>
               sid < |s.sessions| && HoldsEntry(s.sessions[sid].phase) && s.sessions[sid].cookie in entries
    ensures |entries| == |holders|
  {
    if entries != {} {
      var c :| c in entries;
      var sid := s.registry[c];
      assert Owns(s, sid, c);
      forall d | d in entries - {c} ensures s.registry[d] in holders - {sid} {
        assert Owns(s, s.registry[d], d);
      }
      OneEntryPerHolder(s, entries - {c}, holders - {sid});
    }
  }

  lemma HoldersAgainstHandles(s: Server, ip: Ip)
    ensures |Holders(s, ip)| + |InPhaseFrom(s, ip, Unregistered)| == |Handles(s, ip)| + |InPhaseFrom(s, ip, Panicked)|
  {
    var both := Holders(s, ip) * Handles(s, ip);
    assert Holders(s, ip) == both + InPhaseFrom(s, ip, Panicked);
    assert Handles(s, ip) == both + InPhaseFrom(s, ip, Unregistered);
    assert both !! InPhaseFrom(s, ip, Panicked) && both !! InPhaseFrom(s, ip, Unregistered);
  }

  /** An address's registry entries against its count, exactly: threads between the two cleanups
      have a handle and no entry, panicked ones an entry and no handle. So the entries stay within
      the count if and only if no more sessions panicked than are between the cleanups, and in
      particular whenever no session panicked. */
  lemma EntriesAgainstCount(s: Server, maxConcurrent: nat, ip: Ip)
    requires Inv(s, maxConcurrent)
    ensures var count := if ip in s.perIp then s.perIp[ip] else 0;
            var panicked, between := |InPhaseFrom(s, ip, Panicked)|, |InPhaseFrom(s, ip, Unregistered)|;
            && |EntriesFrom(s, ip)| + between == count + panicked
            && (|EntriesFrom(s, ip)| <= count <==> panicked <= between)
  {
    assert CountInv(s, ip);
    forall c | c in EntriesFrom(s, ip) ensures s.registry[c] in Holders(s, ip) {
      assert Owns(s, s.registry[c], c);
    }
    OneEntryPerHolder(s, EntriesFrom(s, ip), Holders(s, ip));
    HoldersAgainstHandles(s, ip);
  }

  lemma ReachesSnoc(steps: seq<Step>, p: Server, step: Step, maxConcurrent: nat)
    requires Reaches(steps, p, maxConcurrent) && Enabled(p, step)
    ensures Reaches(steps + [step], Next(p, step, maxConcurrent), maxConcurrent)
  {
    var all := steps + [step];
    assert all[..|all| - 1] == steps && all[|all| - 1] == step;
    assert Follows(IDLE, all[..|all| - 1], p, maxConcurrent);
  }

  /** A panic breaks the bound: an entry for an address that has no live handle at all. */
  lemma PanicLeaksEntry() returns (steps: seq<Step>, s: Server)
    ensures Reaches(steps, s, 2)
    ensures |EntriesFrom(s, 7)| == 1 && 7 !in s.perIp
  {
    var conn := Conn(0, [1], 7);
    assert Reaches([], IDLE, 2);
    ReachesSnoc([], IDLE, Arrive(conn), 2);
    var s1 := Next(IDLE, Arrive(conn), 2);
    ReachesSnoc([] + [Arrive(conn)], s1, Panic(0), 2);
    s := Next(s1, Panic(0), 2);
    steps := [] + [Arrive(conn)] + [Panic(0)];
    assert EntriesFrom(s, 7) == {[1]};
  }

  ghost function Crashed(s: Server): set<nat> {
    set sid | 0 <= sid < |s.sessions| && s.sessions[sid].phase == Panicked
  }

  /** A panicked session stays as it is, entry included, for good. */
  lemma {:induction false} PanicsStay(p: Server, steps: seq<Step>, s: Server, maxConcurrent: nat)
    requires Inv(p, maxConcurrent) && Follows(p, steps, s, maxConcurrent)
    ensures Crashed(p) <= Crashed(s)
    ensures forall sid :: sid in Crashed(p) ==>
              && s.sessions[sid].cookie == p.sessions[sid].cookie
              && s.sessions[sid].cookie in s.registry && s.registry[s.sessions[sid].cookie] == sid
  {
    FollowsInv(p, steps, s, maxConcurrent);
    if steps != [] {
      var init, last := steps[..|steps| - 1], steps[|steps| - 1];
      var q: Server :| Follows(p, init, q, maxConcurrent)
                       && Enabled(q, last) && s == Next(q, last, maxConcurrent);
      PanicsStay(p, init, q, maxConcurrent);
      forall sid | sid in Crashed(p)
        ensures InPhase(s, sid, Panicked) && s.sessions[sid].cookie == p.sessions[sid].cookie
      {
        assert sid in Crashed(q);
        PanicStays(q, last, maxConcurrent, sid);
      }
    }
    forall sid | sid in Crashed(s)
      ensures s.sessions[sid].cookie in s.registry && s.registry[s.sessions[sid].cookie] == sid
    {
      assert HoldsEntry(s.sessions[sid].phase);
    }
  }

  lemma PanicStays(s: Server, step: Step, maxConcurrent: nat, sid: nat)
    requires Enabled(s, step) && InPhase(s, sid, Panicked)
    ensures var s' := Next(s, step, maxConcurrent);
            InPhase(s', sid, Panicked) && s'.sessions[sid].cookie == s.sessions[sid].cookie
  {
    if step.Arrive? {
      ArrivalKeepsPhase(s, step.conn, maxConcurrent, sid);
    } else {
      assert Next(s, step, maxConcurrent).sessions
             == s.sessions[step.sid := Next(s, step, maxConcurrent).sessions[step.sid]];
    }
  }

  lemma ArrivalKeepsPhase(s: Server, conn: Conn, maxConcurrent: nat, sid: nat)
    requires sid < |s.sessions|
    ensures var s' := OnArrival(s, conn, maxConcurrent);
            && sid < |s'.sessions|
            && s'.sessions[sid].phase == s.sessions[sid].phase && s'.sessions[sid].cookie == s.sessions[sid].cookie
  {}

  /** Each panicked session takes up one place in the registry. */
  lemma PanicsTakePlaces(s: Server)
    requires RegistryInv(s)
    ensures |Crashed(s)| <= |s.registry|
  {
    var entries := set c | c in s.registry && s.registry[c] in Crashed(s);
    OneEntryPerHolder(s, entries, Crashed(s));
    SubsetSize(entries, s.registry.Keys);
  }

  lemma {:induction false} SubsetSize<T>(a: set<T>, b: set<T>)
    requires a <= b
    ensures |a| <= |b|
  {
    if a != {} {
      var c :| c in a;
      SubsetSize(a - {c}, b - {c});
    }
  }

  /** Once as many sessions have panicked as may run at a time, no session is ever opened again. */
  lemma PanicsFillTheServer(p: Server, steps: seq<Step>, s: Server, maxConcurrent: nat, conn: Conn)
    requires Inv(p, maxConcurrent) && Follows(p, steps, s, maxConcurrent) && |Crashed(p)| >= maxConcurrent
    ensures |OnArrival(s, conn, maxConcurrent).sessions| == |s.sessions|
    ensures OnArrival(s, conn, maxConcurrent).registry == s.registry
  {
    FollowsInv(p, steps, s, maxConcurrent);
    PanicsStay(p, steps, s, maxConcurrent);
    SubsetSize(Crashed(p), Crashed(s));
    PanicsTakePlaces(s);
  }

  lemma {:induction false} CookiesMatch(conns: seq<Conn>, c: Cookie)
    ensures forall i :: 0 <= i < |WithCookie(conns, c)| ==> WithCookie(conns, c)[i].cookie == c
  {
    if conns != [] {
      CookiesMatch(conns[..|conns| - 1], c);
    }
  }

  /** Isolation: every stream a session has been given carries the session's cookie, and the first
      `n` streams it takes are the first `n` connections with that cookie after its own. A session that no
      longer serves is given nothing. */
  lemma SessionsAreIsolated(s: Server, maxConcurrent: nat, sid: nat, n: nat)
    requires Inv(s, maxConcurrent) && sid < |s.sessions| && n <= |s.sessions[sid].taken|
    ensures forall i :: 0 <= i < |s.sessions[sid].taken| ==> s.sessions[sid].taken[i].cookie == s.sessions[sid].cookie
    ensures forall i :: 0 <= i < |s.sessions[sid].channel| ==> s.sessions[sid].channel[i].cookie == s.sessions[sid].cookie
    ensures s.sessions[sid].phase != Serving ==> s.sessions[sid].channel == []
    ensures s.sessions[sid].openedAt < |s.arrivals|
    ensures s.sessions[sid].taken[..n] <= Matching(s, sid)
  {
    assert ChannelInv(s, sid);
    var session := s.sessions[sid];
    var all := Matching(s, sid);
    CookiesMatch(s.arrivals[session.openedAt + 1..], session.cookie);
    forall i | 0 <= i < |session.taken| ensures session.taken[i].cookie == session.cookie {
      assert session.taken[i] == all[i];
    }
    if session.phase == Serving {
      forall i | 0 <= i < |session.channel| ensures session.channel[i].cookie == session.cookie {
        assert (session.taken + session.channel)[|session.taken| + i] == all[|session.taken| + i];
      }
    }
  }

  // ----- The imperative forms -----

  /** The state the accept loop and the session threads share. */
  class Listener {
    const maxConcurrent: nat
    const perIp: PerIpCounter
    var registry: map<Cookie, nat>
    var sessions: seq<Session>
    var arrivals: seq<Conn>

    constructor (maxConcurrent: nat)
      ensures this.maxConcurrent == maxConcurrent && fresh(perIp) && Valid() && State() == IDLE
    {
      this.maxConcurrent := maxConcurrent;
      perIp := new PerIpCounter();
      registry := map[];
      sessions := [];
      arrivals := [];
    }

    ghost predicate Valid()
      reads this
    {
      forall c :: c in registry ==> registry[c] < |sessions|
    }

    function State(): Server
      requires Valid()
      reads this, perIp
    {
      ServerState(registry, perIp.counts, sessions, arrivals)
    }

    /** One turn of the accept loop; the result says whether the peer was sent AccessDenied. */
    method OnConnection(conn: Conn) returns (denied: bool)
      requires Valid()
      modifies this, perIp
      ensures Valid() && State() == Next(old(State()), Arrive(conn), maxConcurrent)
      ensures denied <==>
                && conn.cookie !in old(registry)
                && (|old(registry)| >= maxConcurrent
                    || (conn.ip in old(perIp.counts) && old(perIp.counts)[conn.ip] >= 4))
      ensures Inv(old(State()), maxConcurrent) ==>
                (denied <==>
                 && conn.cookie !in old(registry)
                 && (|old(registry)| >= maxConcurrent || |Handles(old(State()), conn.ip)| >= 4))
    {
      assert CountInv(State(), conn.ip) || !Inv(State(), maxConcurrent);
      arrivals := arrivals + [conn];
      if conn.cookie in registry {
        var sid := registry[conn.cookie];
        if sessions[sid].phase == Serving {
          sessions := sessions[sid := sessions[sid].(channel := sessions[sid].channel + [conn])];
        }
        return false;
      }
      if |registry| >= maxConcurrent {
        return true;
      }
      var acquired := perIp.TryAcquire(conn.ip, PER_IP_SESSION_CAP);
      if !acquired {
        return true;
      }
      registry := registry[conn.cookie := |sessions|];
      sessions := sessions + [Session(conn.cookie, conn.ip, |arrivals| - 1, Serving, [], [])];
      return false;
    }

    /** The thread's receiver is dropped when its session function returns. */
    method OnReturn(sid: nat)
      requires Valid() && InPhase(State(), sid, Serving)
      modifies this
      ensures Valid() && State() == Next(old(State()), Return(sid), maxConcurrent)
    {
      sessions := sessions[sid := sessions[sid].(phase := Returned, channel := [])];
    }

    method OnUnregister(sid: nat)
      requires Valid() && InPhase(State(), sid, Returned)
      modifies this
      ensures Valid() && State() == Next(old(State()), Unregister(sid), maxConcurrent)
    {
      registry := registry - {sessions[sid].cookie};
      sessions := sessions[sid := sessions[sid].(phase := Unregistered)];
    }

    method OnRelease(sid: nat)
      requires Valid() && InPhase(State(), sid, Unregistered)
      modifies this, perIp
      ensures Valid() && State() == Next(old(State()), ReleaseIp(sid), maxConcurrent)
    {
      perIp.DropHandle(sessions[sid].ip);
      sessions := sessions[sid := sessions[sid].(phase := Gone)];
    }

    /** A serving session takes the oldest stream off its channel. */
    method OnTake(sid: nat) returns (stream: Conn)
      requires Valid() && Enabled(State(), Take(sid))
      modifies this
      ensures Valid() && State() == Next(old(State()), Take(sid), maxConcurrent)
      ensures stream == old(sessions[sid].channel[0])
    {
      var session := sessions[sid];
      stream := session.channel[0];
      sessions := sessions[sid := session.(taken := session.taken + [stream], channel := session.channel[1..])];
    }

    /** A panic unwinds past the registry cleanup and drops the receiver and the handle. */
    method OnPanic(sid: nat)
      requires Valid() && InPhase(State(), sid, Serving)
      modifies this, perIp
      ensures Valid() && State() == Next(old(State()), Panic(sid), maxConcurrent)
    {
      perIp.DropHandle(sessions[sid].ip);
      sessions := sessions[sid := sessions[sid].(phase := Panicked, channel := [])];
    }

    method Perform(step: Step)
      requires Valid() && Enabled(State(), step)
      modifies this, perIp
      ensures Valid() && State() == Next(old(State()), step, maxConcurrent)
    {
      match step {
        case Arrive(conn) => var _ := OnConnection(conn);
        case Take(sid) => var _ := OnTake(sid);
        case Return(sid) => OnReturn(sid);
        case Unregister(sid) => OnUnregister(sid);
        case ReleaseIp(sid) => OnRelease(sid);
        case Panic(sid) => OnPanic(sid);
      }
    }

    /** The session is being served, by a server in a consistent state. */
    ghost predicate Serves(sid: nat)
      reads this, perIp
    {
      Valid() && Inv(State(), maxConcurrent) && InPhase(State(), sid, Serving)
    }

    /** One receive on a session's channel. While it waits, the other threads take the steps in
        `meanwhile` as far as they can. It times out if the channel is still empty after them. */
    method Receive(sid: nat, meanwhile: seq<Step>) returns (stream: Option<Conn>)
      requires Serves(sid)
      modifies this, perIp
      ensures Serves(sid)
      ensures sessions[sid].taken == old(sessions[sid].taken) + if stream.Some? then [stream.value] else []
      ensures stream.None? ==> sessions[sid].channel == []
    {
      var i := 0;
      while i < |meanwhile| && sessions[sid].channel == []
        invariant Serves(sid)
        invariant sessions[sid].taken == old(sessions[sid].taken)
      {
        if Foreign(meanwhile[i], sid) && Enabled(State(), meanwhile[i]) {
          ForeignKeeps(State(), meanwhile[i], maxConcurrent, sid);
          InvStep(State(), meanwhile[i], maxConcurrent);
          Perform(meanwhile[i]);
        }
        i := i + 1;
      }
      if sessions[sid].channel == [] {
        return None;
      }
      InvStep(State(), Take(sid), maxConcurrent);
      var taken := OnTake(sid);
      return Some(taken);
    }

    /** `accept_streams_from_channel`: `n` receives, failing at the first that times out. The streams it
        returns are the next `n` connections that arrived with the session's cookie, in order. */
    method AcceptStreamsFromChannel(sid: nat, n: nat, meanwhile: nat -> seq<Step>)
      returns (r: Result<seq<Conn>, IoError>)
      requires Serves(sid)
      modifies this, perIp
      ensures Serves(sid)
      ensures r.Ok? ==> |r.value| == n && sessions[sid].taken == old(sessions[sid].taken) + r.value
      ensures OnlyItsOwn(State(), sid)
      ensures r.Err? ==> sessions[sid].channel == [] && |sessions[sid].taken| < |old(sessions[sid].taken)| + n
    {
      var out: seq<Conn> := [];
      ghost var before := sessions[sid].taken;
      for k := 0 to n
        invariant Serves(sid) && |out| == k && sessions[sid].taken == before + out
      {
        var stream := Receive(sid, meanwhile(k));
        if stream.None? {
          TookItsOwn(State(), maxConcurrent, sid);
          return Err(SocketError);
        }
        assert before + out + [stream.value] == before + (out + [stream.value]);
        out := out + [stream.value];
      }
      TookItsOwn(State(), maxConcurrent, sid);
      return Ok(out);
    }
  }

  /** What a session has taken are the first connections with its cookie after its own. */
  ghost predicate OnlyItsOwn(s: Server, sid: nat) {
    && sid < |s.sessions| && s.sessions[sid].openedAt < |s.arrivals|
    && s.sessions[sid].taken <= Matching(s, sid)
  }

  lemma TookItsOwn(s: Server, maxConcurrent: nat, sid: nat)
    requires Inv(s, maxConcurrent) && sid < |s.sessions|
    ensures OnlyItsOwn(s, sid)
  {
    assert ChannelInv(s, sid);
  }

  /** A step that is not the session's own. */
  predicate Foreign(step: Step, sid: nat) {
    step.Arrive? || step.sid != sid
  }

  /** A serving session takes its own streams: nobody else does. */
  lemma ForeignKeeps(s: Server, step: Step, maxConcurrent: nat, sid: nat)
    requires Enabled(s, step) && Foreign(step, sid) && InPhase(s, sid, Serving)
    ensures var s' := Next(s, step, maxConcurrent);
            InPhase(s', sid, Serving) && s'.sessions[sid].taken == s.sessions[sid].taken
  {}
}
