/** The replay cache: digests of accepted tokens, evicted once their time is over. */
module NonceCache {
  import opened Common

  type Digest = seq<Byte>

  class Cache {
    const ttl: nat
    var seen: map<Digest, Time>

    constructor (ttl: nat)
      ensures this.ttl == ttl && seen == map[]
    {
      this.ttl := ttl;
      seen := map[];
    }

    method CheckAndRecord(digest: Digest, now: Time) returns (accepted: bool)
      modifies this
      ensures (seen, accepted) == Check(old(seen), ttl, Call(digest, now))
    {
      seen := Live(seen, now);
      if digest in seen {
        return false;
      }
      seen := seen[digest := now + ttl];
      return true;
    }
  }

  datatype Call = Call(digest: Digest, at: Time)

  /** `retain`: the entries whose deadline is still ahead. */
  function Live(seen: map<Digest, Time>, now: Time): map<Digest, Time> {
    map d | d in seen && seen[d] > now :: seen[d]
  }

  function Check(seen: map<Digest, Time>, ttl: nat, c: Call): (map<Digest, Time>, bool) {
    var live := Live(seen, c.at);
    if c.digest in live then (live, false) else (live[c.digest := c.at + ttl], true)
  }

  /** A cache after a whole history of calls, with the answer to each. */
  function Answers(calls: seq<Call>, ttl: nat): (r: (map<Digest, Time>, seq<bool>))
    ensures |r.1| == |calls|
  {
    if calls == [] then (map[], [])
    else
      var (seen, answers) := Answers(calls[..|calls| - 1], ttl);
      var (seen', ok) := Check(seen, ttl, calls[|calls| - 1]);
      (seen', answers + [ok])
  }

  predicate Monotone(calls: seq<Call>) {
    forall i, j :: 0 <= i <= j < |calls| ==> calls[i].at <= calls[j].at
  }

  /** Call `j` was accepted, for the same digest as `c`, less than `ttl` before it. */
  predicate Blocks(calls: seq<Call>, answers: seq<bool>, ttl: nat, j: int, c: Call) {
    0 <= j < |calls| && j < |answers| && answers[j] && calls[j].digest == c.digest && c.at < calls[j].at + ttl
  }

  /** Answers that follow the full history: a call is refused exactly when an accepted call
      blocks it. */
  ghost predicate FollowsHistory(calls: seq<Call>, answers: seq<bool>, ttl: nat) {
    && |answers| == |calls|
    && forall i :: 0 <= i < |calls| ==> (answers[i] <==> Unblocked(calls, answers, ttl, i, calls[i]))
  }

  /** None of the first `i` calls blocks `c`. */
  ghost predicate Unblocked(calls: seq<Call>, answers: seq<bool>, ttl: nat, i: nat, c: Call) {
    forall j :: 0 <= j < i ==> !Blocks(calls, answers, ttl, j, c)
  }

  lemma UnblockedPrefix(calls: seq<Call>, answers: seq<bool>, next: Call, ok: bool, ttl: nat, i: nat, c: Call)
    requires i <= |calls| == |answers|
    ensures Unblocked(calls + [next], answers + [ok], ttl, i, c) <==> Unblocked(calls, answers, ttl, i, c)
  {
    forall j | 0 <= j < i
      ensures Blocks(calls + [next], answers + [ok], ttl, j, c) <==> Blocks(calls, answers, ttl, j, c)
    {}
  }

  /** The map holds a digest exactly for the accepted calls that are still running, except that a
      zero `ttl` leaves the newest acceptance in place until the next call. */
  ghost predicate HoldsRunning(calls: seq<Call>, ttl: nat, seen: map<Digest, Time>, answers: seq<bool>)
    requires |answers| == |calls|
  {
    && (forall j :: 0 <= j < |calls| ==> RunningIsHeld(calls, ttl, seen, answers, j))
    && (forall d :: d in seen ==> HeldIsRunning(calls, ttl, seen, answers, d))
  }

  ghost predicate RunningIsHeld(calls: seq<Call>, ttl: nat, seen: map<Digest, Time>, answers: seq<bool>, j: nat)
    requires j < |answers| == |calls|
  {
    answers[j] && calls[j].at + ttl > calls[|calls| - 1].at ==>
      calls[j].digest in seen && seen[calls[j].digest] == calls[j].at + ttl
  }

  ghost predicate HeldIsRunning(calls: seq<Call>, ttl: nat, seen: map<Digest, Time>, answers: seq<bool>, d: Digest)
    requires |answers| == |calls| && d in seen
  {
    exists j: nat :: Holds(calls, ttl, seen, answers, d, j)
  }

  ghost predicate Holds(calls: seq<Call>, ttl: nat, seen: map<Digest, Time>, answers: seq<bool>, d: Digest, j: nat)
    requires |answers| == |calls| && d in seen
  {
    && j < |calls| && answers[j] && calls[j].digest == d && seen[d] == calls[j].at + ttl
    && (seen[d] > calls[|calls| - 1].at || (ttl == 0 && j == |calls| - 1))
  }

  lemma CheckFollows(calls: seq<Call>, c: Call, ttl: nat, seen: map<Digest, Time>, answers: seq<bool>)
    requires |answers| == |calls| && Monotone(calls + [c])
    requires HoldsRunning(calls, ttl, seen, answers)
    ensures Check(seen, ttl, c).1 <==> Unblocked(calls, answers, ttl, |calls|, c)
  {
    LastIsBefore(calls, c);
    if c.digest in seen && seen[c.digest] > c.at {
      assert HeldIsRunning(calls, ttl, seen, answers, c.digest);
      var j: nat :| Holds(calls, ttl, seen, answers, c.digest, j);
      assert Blocks(calls, answers, ttl, j, c);
    }
    forall j | 0 <= j < |calls| && Blocks(calls, answers, ttl, j, c) ensures !Check(seen, ttl, c).1 {
      assert RunningIsHeld(calls, ttl, seen, answers, j);
    }
  }

  lemma LastIsBefore(calls: seq<Call>, c: Call)
    requires Monotone(calls + [c])
    ensures calls != [] ==> calls[|calls| - 1].at <= c.at
  {
    if calls != [] {
      assert (calls + [c])[|calls| - 1].at <= (calls + [c])[|calls|].at;
    }
  }

  lemma HeldStep(calls: seq<Call>, c: Call, ttl: nat, seen: map<Digest, Time>, answers: seq<bool>, d: Digest)
    requires |answers| == |calls| && HoldsRunning(calls, ttl, seen, answers)
    requires d in Check(seen, ttl, c).0
    ensures HeldIsRunning(calls + [c], ttl, Check(seen, ttl, c).0, answers + [Check(seen, ttl, c).1], d)
  {
    var (seen', ok) := Check(seen, ttl, c);
    if d == c.digest && ok {
      assert Holds(calls + [c], ttl, seen', answers + [ok], d, |calls|);
    } else {
      assert HeldIsRunning(calls, ttl, seen, answers, d);
      var j: nat :| Holds(calls, ttl, seen, answers, d, j);
      assert Holds(calls + [c], ttl, seen', answers + [ok], d, j);
    }
  }

  lemma RunningStep(calls: seq<Call>, c: Call, ttl: nat, seen: map<Digest, Time>, answers: seq<bool>, j: nat)
    requires |answers| == |calls| && Monotone(calls + [c]) && HoldsRunning(calls, ttl, seen, answers)
    requires j <= |calls|
    ensures RunningIsHeld(calls + [c], ttl, Check(seen, ttl, c).0, answers + [Check(seen, ttl, c).1], j)
  {
    LastIsBefore(calls, c);
    if j < |calls| {
      assert RunningIsHeld(calls, ttl, seen, answers, j);
    }
  }

  lemma HoldsStep(calls: seq<Call>, c: Call, ttl: nat, seen: map<Digest, Time>, answers: seq<bool>)
    requires |answers| == |calls| && Monotone(calls + [c])
    requires HoldsRunning(calls, ttl, seen, answers)
    ensures var (seen', ok) := Check(seen, ttl, c);
            HoldsRunning(calls + [c], ttl, seen', answers + [ok])
  {
    var (seen', ok) := Check(seen, ttl, c);
    forall d | d in seen' ensures HeldIsRunning(calls + [c], ttl, seen', answers + [ok], d) {
      HeldStep(calls, c, ttl, seen, answers, d);
    }
    forall j | 0 <= j < |calls| + 1 ensures RunningIsHeld(calls + [c], ttl, seen', answers + [ok], j) {
      RunningStep(calls, c, ttl, seen, answers, j);
    }
  }

  /** The evicting cache answers as the full history would, and holds only running acceptances. */
  lemma {:induction false} CacheAgreesWithHistory(calls: seq<Call>, ttl: nat)
    requires Monotone(calls)
    ensures FollowsHistory(calls, Answers(calls, ttl).1, ttl)
    ensures HoldsRunning(calls, ttl, Answers(calls, ttl).0, Answers(calls, ttl).1)
  {
    if calls != [] {
      var init, c := calls[..|calls| - 1], calls[|calls| - 1];
      assert calls == init + [c];
      CacheAgreesWithHistory(init, ttl);
      var (seen, answers) := Answers(init, ttl);
      CheckFollows(init, c, ttl, seen, answers);
      HoldsStep(init, c, ttl, seen, answers);
      var ok := Check(seen, ttl, c).1;
      forall i | 0 <= i < |calls|
        ensures (answers + [ok])[i] <==> Unblocked(init + [c], answers + [ok], ttl, i, calls[i])
      {
        UnblockedPrefix(init, answers, c, ok, ttl, i, calls[i]);
        if i < |init| {
          assert answers[i] <==> Unblocked(init, answers, ttl, i, init[i]);
        }
      }
    }
  }

  /** Two acceptances of one digest are at least `ttl` apart. */
  lemma AcceptancesAreSpaced(calls: seq<Call>, ttl: nat, i: nat, j: nat)
    requires Monotone(calls) && i < j < |calls| && calls[i].digest == calls[j].digest
    requires Answers(calls, ttl).1[i] && Answers(calls, ttl).1[j]
    ensures calls[j].at >= calls[i].at + ttl
  {
    CacheAgreesWithHistory(calls, ttl);
    assert !Blocks(calls, Answers(calls, ttl).1, ttl, i, calls[j]);
  }
}
