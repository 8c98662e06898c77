/** Interval rows: the rolling accumulator that emits a row when a delivery crosses a boundary. */
module Interval {
  import opened Common
  import opened Receipts

  /** A row covering `[start, end)` nanoseconds after the stream's first delivery. */
  datatype Snapshot = Snapshot(streamId: nat, start: nat, end: nat, bytes: nat)

  /** The reporter's mutable fields, as a value. */
  datatype Reporter = Reporter(origin: Option<Time>, boundary: Option<Time>, pending: nat)

  const FRESH: Reporter := Reporter(None, None, 0)

  class IntervalReporter {
    const streamId: nat
    const interval: nat
    var origin: Option<Time>
    var nextBoundary: Option<Time>
    var bytesInInterval: nat

    constructor (streamId: nat, interval: nat)
      ensures this.streamId == streamId && this.interval == interval && State() == FRESH
    {
      this.streamId := streamId;
      this.interval := interval;
      origin := None;
      nextBoundary := None;
      bytesInInterval := 0;
    }

    function State(): Reporter
      reads this
    {
      Reporter(origin, nextBoundary, bytesInInterval)
    }

    ghost predicate Valid()
      reads this
    {
      Consistent(State(), interval)
    }

    method OnBytes(n: nat, now: Time) returns (snap: Option<Snapshot>)
      requires Valid()
      modifies this
      ensures Valid()
      ensures (State(), snap) == OnBytesStep(old(State()), streamId, interval, Delivery(n, now))
    {
      if origin.None? {
        origin := Some(now);
        nextBoundary := Some(now + interval);
      }
      bytesInInterval := bytesInInterval + n;
      var boundary := nextBoundary.value;
      if now >= boundary {
        snap := Some(Snapshot(
                       streamId,
                       Since(boundary - interval, origin.value),
                       Since(boundary, origin.value),
                       bytesInInterval));
        bytesInInterval := 0;
        nextBoundary := Some(boundary + interval);
        return;
      }
      snap := None;
    }

    method Flush(now: Time) returns (snap: Option<Snapshot>)
      requires Valid()
      modifies this
      ensures Valid()
      ensures (State(), snap) == FlushStep(old(State()), streamId, interval, now)
    {
      if origin.None? {
        return None;
      }
      if bytesInInterval == 0 && (nextBoundary.None? || now < nextBoundary.value - interval) {
        return None;
      }
      var boundary := if nextBoundary.Some? then nextBoundary.value else now;
      var start := Since(boundary - interval, origin.value);
      var sinceOrigin := Since(now, origin.value);
      snap := Some(Snapshot(streamId, start, if sinceOrigin >= start then sinceOrigin else start, bytesInInterval));
      bytesInInterval := 0;
    }
  }

  predicate Consistent(r: Reporter, interval: nat) {
    && (r.origin.Some? <==> r.boundary.Some?)
    && (r.origin.Some? ==> r.boundary.value >= r.origin.value + interval)
    && (r.origin.None? ==> r.pending == 0)
  }

  function OnBytesStep(r: Reporter, id: nat, interval: nat, d: Delivery): (Reporter, Option<Snapshot>)
    requires Consistent(r, interval)
  {
    var origin := if r.origin.Some? then r.origin.value else d.at;
    var boundary := if r.origin.Some? then r.boundary.value else d.at + interval;
    if d.at >= boundary then
      (Reporter(Some(origin), Some(boundary + interval), 0),
       Some(Snapshot(id, boundary - interval - origin, boundary - origin, r.pending + d.n)))
    else
      (Reporter(Some(origin), Some(boundary), r.pending + d.n), None)
  }

  function FlushStep(r: Reporter, id: nat, interval: nat, now: Time): (Reporter, Option<Snapshot>)
    requires Consistent(r, interval)
  {
    if r.origin.None? || (r.pending == 0 && now < r.boundary.value - interval) then (r, None)
    else
      var start := r.boundary.value - interval - r.origin.value;
      var end := Since(now, r.origin.value);
      (r.(pending := 0), Some(Snapshot(id, start, if end >= start then end else start, r.pending)))
  }

  /** A reporter fed a whole run of deliveries, with the rows it has emitted. */
  function Report(ds: seq<Delivery>, id: nat, interval: nat): (res: (Reporter, seq<Snapshot>))
    ensures Consistent(res.0, interval)
  {
    if ds == [] then (FRESH, [])
    else
      var (r, rows) := Report(ds[..|ds| - 1], id, interval);
      var (r', snap) := OnBytesStep(r, id, interval, ds[|ds| - 1]);
      (r', if snap.Some? then rows + [snap.value] else rows)
  }

  /** The rows a flushing loop prints: the emitted rows, then the remainder if it holds bytes. */
  function Printed(ds: seq<Delivery>, id: nat, interval: nat): seq<Snapshot> {
    var (r, rows) := Report(ds, id, interval);
    if ds == [] then rows
    else
      var snap := FlushStep(r, id, interval, ds[|ds| - 1].at).1;
      if snap.Some? && snap.value.bytes > 0 then rows + [snap.value] else rows
  }

  function RowBytes(rows: seq<Snapshot>): nat {
    Sum(seq(|rows|, i requires 0 <= i < |rows| => rows[i].bytes))
  }

  lemma RowBytesSnoc(rows: seq<Snapshot>, row: Snapshot)
    ensures RowBytes(rows + [row]) == RowBytes(rows) + row.bytes
  {
    var s := seq(|rows|, i requires 0 <= i < |rows| => rows[i].bytes);
    var rows' := rows + [row];
    assert seq(|rows'|, i requires 0 <= i < |rows'| => rows'[i].bytes) == s + [row.bytes];
    SumConcat(s, [row.bytes]);
    assert Sum([row.bytes]) == row.bytes;
  }

  lemma {:induction false} EmittedPlusPending(ds: seq<Delivery>, id: nat, interval: nat)
    ensures RowBytes(Report(ds, id, interval).1) + Report(ds, id, interval).0.pending == Total(ds)
    ensures Report(ds, id, interval).0.origin.Some? <==> ds != []
  {
    if ds != [] {
      var init, d := ds[..|ds| - 1], ds[|ds| - 1];
      assert ds == init + [d];
      EmittedPlusPending(init, id, interval);
      TotalSnoc(init, d);
      var (r, rows) := Report(init, id, interval);
      var snap := OnBytesStep(r, id, interval, d).1;
      if snap.Some? {
        RowBytesSnoc(rows, snap.value);
      }
    }
  }

  /** Conservation: whatever the timing of the deliveries, the printed rows hold every byte once. */
  lemma RowsConserveBytes(ds: seq<Delivery>, id: nat, interval: nat)
    ensures RowBytes(Printed(ds, id, interval)) == Total(ds)
  {
    EmittedPlusPending(ds, id, interval);
    var (r, rows) := Report(ds, id, interval);
    if ds != [] {
      var snap := FlushStep(r, id, interval, ds[|ds| - 1].at).1;
      if snap.Some? {
        RowBytesSnoc(rows, snap.value);
      }
    }
  }

  /** The offset of the `k`-th boundary from the first delivery. */
  function Edge(k: nat, interval: nat): nat {
    if k == 0 then 0 else Edge(k - 1, interval) + interval
  }

  lemma {:induction false} EdgeIsMultiple(k: nat, interval: nat)
    ensures Edge(k, interval) == k * interval
  {
    if k > 0 {
      EdgeIsMultiple(k - 1, interval);
    }
  }

  predicate Increasing(cuts: seq<nat>, n: nat) {
    && |cuts| > 0 && cuts[0] == 0
    && (forall i, j :: 0 <= i < j < |cuts| ==> cuts[i] < cuts[j])
    && (forall k :: 0 <= k < |cuts| ==> cuts[k] <= n)
  }

  /** `cuts` splits `ds` into consecutive rows: row `k` is `ds[cuts[k]..cuts[k + 1]]`, its last
      delivery is the first one at or past the row's end, and it opens at or past the row's start.
      The deliveries after the last cut have not reached the next row's end. */
  ghost predicate RowCuts(ds: seq<Delivery>, interval: nat, cuts: seq<nat>) {
    && Increasing(cuts, |ds|)
    && (forall k :: 0 <= k < |cuts| - 1 ==> RowTimes(ds, interval, cuts, k))
    && (forall j :: cuts[|cuts| - 1] <= j < |ds| ==>
          ds[0].at + Edge(|cuts| - 1, interval) <= ds[j].at < ds[0].at + Edge(|cuts|, interval))
  }

  ghost predicate RowTimes(ds: seq<Delivery>, interval: nat, cuts: seq<nat>, k: nat)
    requires Increasing(cuts, |ds|) && k + 1 < |cuts|
  {
    && (forall j :: cuts[k] <= j < cuts[k + 1] ==> ds[0].at + Edge(k, interval) <= ds[j].at)
    && (forall j :: cuts[k] <= j < cuts[k + 1] - 1 ==> ds[j].at < ds[0].at + Edge(k + 1, interval))
    && ds[0].at + Edge(k + 1, interval) <= ds[cuts[k + 1] - 1].at
  }

  ghost function Row(ds: seq<Delivery>, id: nat, interval: nat, cuts: seq<nat>, k: nat): Snapshot
    requires Increasing(cuts, |ds|) && k + 1 < |cuts|
  {
    Snapshot(id, Edge(k, interval), Edge(k + 1, interval), Total(ds[cuts[k]..cuts[k + 1]]))
  }

  /** The emitted rows are the ones `cuts` describes. */
  ghost predicate RowsMatch(ds: seq<Delivery>, id: nat, interval: nat, cuts: seq<nat>, rows: seq<Snapshot>)
    requires Increasing(cuts, |ds|)
  {
    && |rows| == |cuts| - 1
    && (forall k :: 0 <= k < |rows| ==> rows[k] == Row(ds, id, interval, cuts, k))
  }

  /** The reporter holds the deliveries after the last cut and waits for the next edge. */
  ghost predicate StateMatches(ds: seq<Delivery>, interval: nat, cuts: seq<nat>, r: Reporter)
    requires Increasing(cuts, |ds|)
  {
    && r.pending == Total(ds[cuts[|cuts| - 1]..])
    && (ds != [] ==> r.origin == Some(ds[0].at) && r.boundary == Some(ds[0].at + Edge(|cuts|, interval)))
    && (ds == [] ==> r == FRESH && cuts == [0])
  }

  /** The delivery `d` reaches the end of the current row. */
  predicate Closes(ds: seq<Delivery>, d: Delivery, interval: nat, rows: nat) {
    d.at >= (ds + [d])[0].at + Edge(rows, interval)
  }

  /** A further delivery leaves the completed rows as they are. */
  lemma RowsKept(ds: seq<Delivery>, d: Delivery, interval: nat, cuts: seq<nat>, cuts': seq<nat>)
    requires RowCuts(ds, interval, cuts) && Increasing(cuts', |ds| + 1) && cuts <= cuts'
    ensures forall k :: 0 <= k < |cuts| - 1 ==> RowTimes(ds + [d], interval, cuts', k)
  {
    var ds' := ds + [d];
    assert forall j :: 0 <= j < |ds| ==> ds'[j] == ds[j];
    forall k | 0 <= k < |cuts| - 1 ensures RowTimes(ds', interval, cuts', k) {
      assert RowTimes(ds, interval, cuts, k);
      assert cuts'[k] == cuts[k] && cuts'[k + 1] == cuts[k + 1] <= |ds|;
    }
  }

  /** A delivery that is no earlier than those before it has reached the current row. */
  lemma RowReached(ds: seq<Delivery>, d: Delivery, interval: nat, cuts: seq<nat>)
    requires RowCuts(ds, interval, cuts) && forall j :: 0 <= j < |ds| ==> ds[j].at <= d.at
    ensures (ds + [d])[0].at + Edge(|cuts| - 1, interval) <= d.at
  {
    var m := |cuts| - 1;
    if m > 0 {
      assert RowTimes(ds, interval, cuts, m - 1);
      assert ds[cuts[m] - 1].at <= d.at;
    }
  }

  lemma CutsStay(ds: seq<Delivery>, d: Delivery, interval: nat, cuts: seq<nat>)
    requires RowCuts(ds, interval, cuts) && forall j :: 0 <= j < |ds| ==> ds[j].at <= d.at
    requires !Closes(ds, d, interval, |cuts|)
    ensures RowCuts(ds + [d], interval, cuts)
  {
    RowsKept(ds, d, interval, cuts, cuts);
    RowReached(ds, d, interval, cuts);
    assert forall j :: 0 <= j < |ds| ==> (ds + [d])[j] == ds[j];
  }

  lemma CutsGrow(ds: seq<Delivery>, d: Delivery, interval: nat, cuts: seq<nat>)
    requires RowCuts(ds, interval, cuts) && forall j :: 0 <= j < |ds| ==> ds[j].at <= d.at
    requires Closes(ds, d, interval, |cuts|)
    ensures RowCuts(ds + [d], interval, cuts + [|ds| + 1])
  {
    var ds', cuts', m := ds + [d], cuts + [|ds| + 1], |cuts| - 1;
    RowsKept(ds, d, interval, cuts, cuts');
    RowReached(ds, d, interval, cuts);
    assert forall j :: 0 <= j < |ds| ==> ds'[j] == ds[j];
    assert RowTimes(ds', interval, cuts', m);
  }

  lemma TailSnoc(ds: seq<Delivery>, d: Delivery, c: nat)
    requires c <= |ds|
    ensures (ds + [d])[c..] == (ds + [d])[c..|ds| + 1] == ds[c..] + [d]
    ensures Total((ds + [d])[c..]) == Total(ds[c..]) + d.n
  {
    assert (ds + [d])[c..] == ds[c..] + [d];
    TotalSnoc(ds[c..], d);
  }

  lemma RowsExtend(ds: seq<Delivery>, d: Delivery, id: nat, interval: nat, cuts: seq<nat>, rows: seq<Snapshot>)
    requires Increasing(cuts, |ds|) && RowsMatch(ds, id, interval, cuts, rows)
    ensures RowsMatch(ds + [d], id, interval, cuts, rows)
    ensures Increasing(cuts + [|ds| + 1], |ds| + 1)
    ensures var m := |cuts| - 1;
            RowsMatch(ds + [d], id, interval, cuts + [|ds| + 1],
                      rows + [Snapshot(id, Edge(m, interval), Edge(m + 1, interval), Total(ds[cuts[m]..]) + d.n)])
  {
    TailSnoc(ds, d, cuts[|cuts| - 1]);
    assert forall k :: 0 <= k < |rows| ==> (ds + [d])[cuts[k]..cuts[k + 1]] == ds[cuts[k]..cuts[k + 1]];
  }

  /** A delivery that does not close the row is added to it. */
  lemma StateStays(ds: seq<Delivery>, d: Delivery, id: nat, interval: nat, cuts: seq<nat>, r: Reporter)
    requires Increasing(cuts, |ds|) && Consistent(r, interval) && StateMatches(ds, interval, cuts, r)
    requires !Closes(ds, d, interval, |cuts|)
    ensures var (r', snap) := OnBytesStep(r, id, interval, d);
            StateMatches(ds + [d], interval, cuts, r') && snap == None
  {
    TailSnoc(ds, d, cuts[|cuts| - 1]);
    assert Total((ds + [d])[cuts[|cuts| - 1]..]) == r.pending + d.n;
    assert (ds + [d])[0] == if ds == [] then d else ds[0];
    if ds == [] {
      assert Edge(1, interval) == interval;
    }
  }

  /** A delivery that closes the row is its last, and the next row starts empty. */
  lemma StateExtend(ds: seq<Delivery>, d: Delivery, id: nat, interval: nat, cuts: seq<nat>, r: Reporter)
    requires Increasing(cuts, |ds|) && Consistent(r, interval) && StateMatches(ds, interval, cuts, r)
    requires Closes(ds, d, interval, |cuts|)
    ensures var m := |cuts| - 1;
            var (r', snap) := OnBytesStep(r, id, interval, d);
            && Increasing(cuts + [|ds| + 1], |ds| + 1)
            && StateMatches(ds + [d], interval, cuts + [|ds| + 1], r')
            && snap == Some(Snapshot(id, Edge(m, interval), Edge(m + 1, interval), Total(ds[cuts[m]..]) + d.n))
  {
    TailSnoc(ds, d, cuts[|cuts| - 1]);
    assert (ds + [d])[|ds| + 1..] == [];
  }

  /** Row `k` covers the `k`-th interval since the first delivery. */
  ghost predicate Labelled(rows: seq<Snapshot>, interval: nat) {
    forall k :: 0 <= k < |rows| ==> rows[k].start == k * interval && rows[k].end == (k + 1) * interval
  }

  lemma RowsLabelled(ds: seq<Delivery>, id: nat, interval: nat, cuts: seq<nat>, rows: seq<Snapshot>)
    requires Increasing(cuts, |ds|) && RowsMatch(ds, id, interval, cuts, rows)
    ensures Labelled(rows, interval)
  {
    forall k | 0 <= k < |rows| ensures rows[k].start == k * interval && rows[k].end == (k + 1) * interval {
      EdgeIsMultiple(k, interval);
      EdgeIsMultiple(k + 1, interval);
      assert rows[k] == Row(ds, id, interval, cuts, k);
    }
  }

  lemma {:induction false} RowsCut(ds: seq<Delivery>, id: nat, interval: nat) returns (cuts: seq<nat>)
    requires Monotone(ds)
    ensures RowCuts(ds, interval, cuts)
    ensures RowsMatch(ds, id, interval, cuts, Report(ds, id, interval).1)
    ensures StateMatches(ds, interval, cuts, Report(ds, id, interval).0)
  {
    if ds == [] {
      cuts := [0];
    } else {
      var init, d := ds[..|ds| - 1], ds[|ds| - 1];
      MonotoneSplits(ds);
      cuts := RowsCut(init, id, interval);
      cuts := OneMoreDelivery(init, d, id, interval, cuts);
    }
  }

  lemma MonotoneSplits(ds: seq<Delivery>)
    requires Monotone(ds) && ds != []
    ensures var init, d := ds[..|ds| - 1], ds[|ds| - 1];
            ds == init + [d] && Monotone(init) && forall j :: 0 <= j < |init| ==> init[j].at <= d.at
  {}

  /** The emitted rows, exactly: row `k` is labelled `[k * interval, (k + 1) * interval)`, holds the
      deliveries since the previous row, all of them at or after the row's start and all but the
      closing one before its end. */
  lemma RowsCharacterised(ds: seq<Delivery>, id: nat, interval: nat) returns (cuts: seq<nat>)
    requires Monotone(ds)
    ensures RowCuts(ds, interval, cuts)
    ensures RowsMatch(ds, id, interval, cuts, Report(ds, id, interval).1)
    ensures StateMatches(ds, interval, cuts, Report(ds, id, interval).0)
    ensures Labelled(Report(ds, id, interval).1, interval)
  {
    cuts := RowsCut(ds, id, interval);
    RowsLabelled(ds, id, interval, cuts, Report(ds, id, interval).1);
  }

  lemma OneMoreDelivery(init: seq<Delivery>, d: Delivery, id: nat, interval: nat, cuts: seq<nat>)
    returns (cuts': seq<nat>)
    requires RowCuts(init, interval, cuts) && forall j :: 0 <= j < |init| ==> init[j].at <= d.at
    requires RowsMatch(init, id, interval, cuts, Report(init, id, interval).1)
    requires StateMatches(init, interval, cuts, Report(init, id, interval).0)
    ensures RowCuts(init + [d], interval, cuts')
    ensures RowsMatch(init + [d], id, interval, cuts', Report(init + [d], id, interval).1)
    ensures StateMatches(init + [d], interval, cuts', Report(init + [d], id, interval).0)
  {
    var (r, rows) := Report(init, id, interval);
    assert (init + [d])[..|init|] == init;
    RowsExtend(init, d, id, interval, cuts, rows);
    if Closes(init, d, interval, |cuts|) {
      CutsGrow(init, d, interval, cuts);
      StateExtend(init, d, id, interval, cuts, r);
      cuts' := cuts + [|init| + 1];
    } else {
      CutsStay(init, d, interval, cuts);
      StateStays(init, d, id, interval, cuts, r);
      cuts' := cuts;
    }
  }

  /** What a flushing loop prints: those rows, then one for the deliveries after the last of them, if
      they hold bytes. It starts where the last row ended and ends at the last delivery. */
  lemma PrintedCharacterised(ds: seq<Delivery>, id: nat, interval: nat) returns (cuts: seq<nat>)
    requires Monotone(ds)
    ensures RowCuts(ds, interval, cuts)
    ensures RowsMatch(ds, id, interval, cuts, Report(ds, id, interval).1)
    ensures var rows, m := Report(ds, id, interval).1, |cuts| - 1;
            && Labelled(rows, interval)
            && Printed(ds, id, interval) ==
               if ds != [] && Total(ds[cuts[m]..]) > 0
               then rows + [Snapshot(id, m * interval, Since(ds[|ds| - 1].at, ds[0].at), Total(ds[cuts[m]..]))]
               else rows
  {
    cuts := RowsCharacterised(ds, id, interval);
    if ds != [] {
      TailReached(ds, interval, cuts);
      FlushRow(ds, id, interval, cuts, Report(ds, id, interval).0);
      EdgeIsMultiple(|cuts| - 1, interval);
    }
  }

  /** If bytes are left after the last cut, the run has reached the row they belong to. */
  lemma TailReached(ds: seq<Delivery>, interval: nat, cuts: seq<nat>)
    requires RowCuts(ds, interval, cuts) && ds != []
    ensures Total(ds[cuts[|cuts| - 1]..]) > 0 ==> ds[|ds| - 1].at >= ds[0].at + Edge(|cuts| - 1, interval)
  {
    if cuts[|cuts| - 1] == |ds| {
      assert ds[cuts[|cuts| - 1]..] == [];
    }
  }

  lemma FlushRow(ds: seq<Delivery>, id: nat, interval: nat, cuts: seq<nat>, r: Reporter)
    requires Increasing(cuts, |ds|) && Consistent(r, interval) && StateMatches(ds, interval, cuts, r) && ds != []
    ensures var m, last := |cuts| - 1, ds[|ds| - 1].at;
            var snap := FlushStep(r, id, interval, last).1;
            if r.pending > 0
            then last >= ds[0].at + Edge(m, interval) ==>
                   snap == Some(Snapshot(id, Edge(m, interval), Since(last, ds[0].at), r.pending))
            else snap.Some? ==> snap.value.bytes == 0
  {}

  /** Flushing at any time returns the bytes since the last row, from the end of that row on; it returns
      nothing if nothing was delivered, or if there are no such bytes and the row has not begun. */
  lemma FlushAt(ds: seq<Delivery>, id: nat, interval: nat, now: Time) returns (cuts: seq<nat>)
    requires Monotone(ds)
    ensures RowCuts(ds, interval, cuts)
    ensures var start, rest := (|cuts| - 1) * interval, Total(ds[cuts[|cuts| - 1]..]);
            FlushStep(Report(ds, id, interval).0, id, interval, now).1 ==
            if ds == [] || (rest == 0 && now < ds[0].at + start) then None
            else Some(Snapshot(id, start, if now >= ds[0].at + start then now - ds[0].at else start, rest))
  {
    cuts := RowsCharacterised(ds, id, interval);
    EdgeIsMultiple(|cuts| - 1, interval);
  }

  /** No other way of cutting the run into rows meets the description. */
  lemma {:induction false} RowCutsUnique(ds: seq<Delivery>, interval: nat, a: seq<nat>, b: seq<nat>, k: nat)
    requires Monotone(ds) && RowCuts(ds, interval, a) && RowCuts(ds, interval, b)
    requires k < |a|
    ensures k < |b| && a[k] == b[k]
    decreases k
  {
    if k > 0 {
      RowCutsUnique(ds, interval, a, b, k - 1);
      assert RowTimes(ds, interval, a, k - 1);
      assert k < |b|;
      assert RowTimes(ds, interval, b, k - 1);
    }
  }
}
