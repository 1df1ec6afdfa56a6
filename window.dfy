/**
 * Time-window arithmetic of the consolidation engine: the cutoffs, the
 * counting scan getWindowSize, and the two rolling-window decisions (what an
 * arrival does, what a sweep does) on one group's arrival history.
 *
 * Times are milliseconds since the epoch.
 */
module Window {
  import opened Wrappers
  import opened JavaInt
  import opened Schedule

  /** getCutoffStart: `minutes` minutes before `date`. */
  function CutoffStart(date: int, minutes: int): int {
    date - minutes * MS_PER_MINUTE
  }

  /** getCutoffEnd: `minutes` minutes after `date`. */
  function CutoffEnd(date: int, minutes: int): int {
    date + minutes * MS_PER_MINUTE
  }

  /** Arrival times in the order they were recorded. */
  predicate Sorted(list: seq<int>) {
    forall i, j :: 0 <= i < j < |list| ==> list[i] <= list[j]
  }

  /** Inside `[start, end]`; an absent bound does not limit. */
  predicate InRange(start: Option<int>, end: Option<int>, d: int) {
    (start.None? || start.value <= d) && (end.None? || d <= end.value)
  }

  /** The number of entries of `s` inside `[start, end]`. */
  function CountInRange(start: Option<int>, end: Option<int>, s: seq<int>): (n: nat)
    ensures n <= |s|
    decreases |s|
  {
    if s == [] then 0
    else CountInRange(start, end, s[..|s| - 1]) + (if InRange(start, end, s[|s| - 1]) then 1 else 0)
  }

  /**
   * How far getWindowSize scans: up to the first entry after `end`, or the
   * whole list.
   */
  function ScanLength(end: Option<int>, list: seq<int>): (k: nat)
    ensures k <= |list|
    ensures forall j :: 0 <= j < k ==> end.None? || list[j] <= end.value
    ensures k < |list| ==> end.Some? && list[k] > end.value
    decreases |list|
  {
    if list == [] then 0
    else if end.Some? && list[0] > end.value then 0
    else 1 + ScanLength(end, list[1..])
  }

  /** What getWindowSize counts: the in-range entries before the scan stops. */
  function WindowSize(start: Option<int>, end: Option<int>, list: seq<int>): (n: nat)
    ensures n <= ScanLength(end, list)
  {
    CountInRange(start, end, list[..ScanLength(end, list)])
  }

  /**
   * getWindowSize: counts the entries not before `start` until the first
   * entry after `end`, where it stops.
   */
  method GetWindowSize(start: Option<int>, end: Option<int>, list: seq<int>) returns (count: nat)
    ensures count == WindowSize(start, end, list)
  {
    count := 0;
    var i := 0;
    while i < |list|
      invariant 0 <= i <= ScanLength(end, list)
      invariant count == CountInRange(start, end, list[..i])
    {
      var date := list[i];
      if end.Some? && date > end.value {
        break;
      } else if start.None? || date >= start.value {
        count := count + 1;
      }
      assert list[..i + 1][..i] == list[..i];
      i := i + 1;
    }
  }

  lemma {:induction false} CountAppend(start: Option<int>, end: Option<int>, a: seq<int>, b: seq<int>)
    ensures CountInRange(start, end, a + b) == CountInRange(start, end, a) + CountInRange(start, end, b)
    decreases |b|
  {
    if b == [] {
      assert a + b == a;
    } else {
      CountAppend(start, end, a, b[..|b| - 1]);
      assert (a + b)[..|a + b| - 1] == a + b[..|b| - 1];
    }
  }

  lemma {:induction false} CountNone(start: Option<int>, end: Option<int>, s: seq<int>)
    requires forall j :: 0 <= j < |s| ==> !InRange(start, end, s[j])
    ensures CountInRange(start, end, s) == 0
    decreases |s|
  {
    if s != [] {
      CountNone(start, end, s[..|s| - 1]);
    }
  }

  lemma {:induction false} CountAll(start: Option<int>, end: Option<int>, s: seq<int>)
    requires forall j :: 0 <= j < |s| ==> InRange(start, end, s[j])
    ensures CountInRange(start, end, s) == |s|
    decreases |s|
  {
    if s != [] {
      CountAll(start, end, s[..|s| - 1]);
    }
  }

  /**
   * On an ascending list nothing after the first entry past `end` is inside
   * the window, so the scan counts every entry in `[start, end]`.
   */
  lemma WindowSizeSorted(start: Option<int>, end: Option<int>, list: seq<int>)
    requires Sorted(list)
    ensures WindowSize(start, end, list) == CountInRange(start, end, list)
  {
    var k := ScanLength(end, list);
    assert list == list[..k] + list[k..];
    CountAppend(start, end, list[..k], list[k..]);
    CountNone(start, end, list[k..]);
  }

  /**
   * Without a lower bound the scan counts exactly the entries it passes, so
   * `getWindowSize(null, end, list)` is where the first entry after `end` sits.
   */
  lemma RemovableIsScanLength(end: int, list: seq<int>)
    ensures WindowSize(None, Some(end), list) == ScanLength(Some(end), list)
  {
    CountAll(None, Some(end), list[..ScanLength(Some(end), list)]);
  }

  // ---------------------------------------------------------------------------
  // Rolling-window arrival: markActive, consolidating, consolidateWindow
  // ---------------------------------------------------------------------------

  /** The new history, the new consolidation marker, and whether the arrival is absorbed. */
  datatype Arrival = Arrival(history: seq<int>, marker: Option<int>, absorbed: bool)

  /**
   * An arrival at `now` for a rolling-window group: `now` is appended to the
   * history; a group with limit 0 never consolidates; a group already
   * consolidating absorbs it; otherwise it starts consolidating at `now` when
   * the trailing window `[now - minutes, now]` holds more than `limit` entries.
   */
  function RollingArrival(limit: int, minutes: int, history: seq<int>, marker: Option<int>, now: int): Arrival {
    var list := history + [now];
    if limit == 0 then Arrival(list, marker, false)
    else if marker.Some? then Arrival(list, marker, true)
    else if WindowSize(Some(CutoffStart(now, minutes)), Some(now), list) > limit then Arrival(list, Some(now), true)
    else Arrival(list, marker, false)
  }

  /** Appending a time no earlier than every recorded one keeps the history in order. */
  lemma AppendSorted(history: seq<int>, now: int)
    requires Sorted(history) && (forall j :: 0 <= j < |history| ==> history[j] <= now)
    ensures Sorted(history + [now])
  {
    var list := history + [now];
    forall i, j | 0 <= i < j < |list|
      ensures list[i] <= list[j]
    {
      if j < |history| {
        assert list[i] == history[i] && list[j] == history[j];
      } else {
        assert list[i] == history[i];
      }
    }
  }

  /**
   * For a history recorded in time order, an arrival is absorbed exactly when
   * the group was consolidating or the trailing window holds more than `limit`
   * entries (limit 0 never absorbs); only a new consolidation sets the marker,
   * to the arrival time.
   */
  lemma RollingArrivalDecision(limit: int, minutes: int, history: seq<int>, marker: Option<int>, now: int)
    requires Sorted(history) && (forall j :: 0 <= j < |history| ==> history[j] <= now)
    ensures var a := RollingArrival(limit, minutes, history, marker, now);
      && a.history == history + [now]
      && Sorted(a.history)
      && (a.absorbed <==>
            limit != 0 && (marker.Some? || CountInRange(Some(CutoffStart(now, minutes)), Some(now), history + [now]) > limit))
      && a.marker == (if limit != 0 && marker.None? && a.absorbed then Some(now) else marker)
  {
    var list := history + [now];
    var lo := Some(CutoffStart(now, minutes));
    AppendSorted(history, now);
    WindowSizeSorted(lo, Some(now), list);
    assert WindowSize(lo, Some(now), list) == CountInRange(lo, Some(now), list);
  }

  /** A group with limit 0 forwards every arrival and keeps its marker. */
  lemma LimitZeroNeverConsolidates(minutes: int, history: seq<int>, marker: Option<int>, now: int)
    ensures var a := RollingArrival(0, minutes, history, marker, now);
      !a.absorbed && a.marker == marker && a.history == history + [now]
  {
  }

  // ---------------------------------------------------------------------------
  // Rolling-window sweep: sendConsolidated
  // ---------------------------------------------------------------------------

  /**
   * The new history, the new marker, and the count of the consolidated
   * notification if one is sent (its start is the old marker).
   */
  datatype Sweep = Sweep(history: seq<int>, marker: Option<int>, digest: Option<nat>)

  /**
   * The sweep of a group consolidating since `start`: nothing happens until
   * `start` is before `now - minutes`; then the window `[start, start + minutes]`
   * is counted, a non-zero count is sent and the history up to the window's
   * end is dropped, and consolidation stops when the count is below `limit`,
   * otherwise continues from the window's end.
   */
  function RollingSweep(limit: int, minutes: int, history: seq<int>, start: int, now: int): Sweep {
    if !(start < CutoffStart(now, minutes)) then Sweep(history, Some(start), None)
    else
      var end := CutoffEnd(start, minutes);
      var count := WindowSize(Some(start), Some(end), history);
      var removable := WindowSize(None, Some(end), history);
      Sweep(if count != 0 then history[removable..] else history,
            if count < limit then None else Some(end),
            if count != 0 then Some(count) else None)
  }

  /** Until the window starting at the marker has closed, the sweep changes nothing. */
  lemma RollingSweepWaits(limit: int, minutes: int, history: seq<int>, start: int, now: int)
    requires start >= CutoffStart(now, minutes)
    ensures RollingSweep(limit, minutes, history, start, now) == Sweep(history, Some(start), None)
  {
  }

  /**
   * Once it acts on a history recorded in time order, the sweep sends the
   * number of entries in `[start, start + minutes]` iff there are any, and
   * either stops consolidating (count below limit) or moves the marker to the
   * window's end.
   */
  lemma RollingSweepActs(limit: int, minutes: int, history: seq<int>, start: int, now: int)
    requires Sorted(history)
    requires start < CutoffStart(now, minutes)
    ensures var count := CountInRange(Some(start), Some(CutoffEnd(start, minutes)), history);
      var w := RollingSweep(limit, minutes, history, start, now);
      && (w.digest.Some? <==> count != 0)
      && (w.digest.Some? ==> w.digest.value == count)
      && (w.marker.None? <==> count < limit)
      && (w.marker.Some? ==> w.marker.value == CutoffEnd(start, minutes))
  {
    WindowSizeSorted(Some(start), Some(CutoffEnd(start, minutes)), history);
  }

  /**
   * When the sweep sends, it drops a prefix of a history recorded in time
   * order and keeps exactly the entries after the window's end; otherwise it
   * keeps the history as it is.
   */
  lemma RollingSweepTrims(limit: int, minutes: int, history: seq<int>, start: int, now: int)
    requires Sorted(history)
    requires start < CutoffStart(now, minutes)
    ensures var end := CutoffEnd(start, minutes);
      var w := RollingSweep(limit, minutes, history, start, now);
      && (w.digest.Some? ==> (forall d :: d in w.history <==> d in history && d > end))
      && (w.digest.Some? ==> exists k :: 0 <= k <= |history| && w.history == history[k..])
      && (w.digest.None? ==> w.history == history)
      && Sorted(w.history)
  {
    var end := CutoffEnd(start, minutes);
    RemovableIsScanLength(end, history);
    var k := ScanLength(Some(end), history);
    forall d | d in history[k..]
      ensures d > end
    {
      var j :| 0 <= j < |history[k..]| && history[k..][j] == d;
      assert history[k] <= history[k + j];
    }
    forall d | d in history && d > end
      ensures d in history[k..]
    {
      var j :| 0 <= j < |history| && history[j] == d;
      assert k <= j;
      assert history[k..][j - k] == d;
    }
  }

  /** A positive window moves the consolidation marker strictly forward. */
  lemma WindowAdvances(start: int, minutes: int)
    requires minutes > 0
    ensures CutoffEnd(start, minutes) > start
    ensures CutoffStart(CutoffEnd(start, minutes), minutes) == start
  {
  }

  /**
   * A burst on a group with limit 3 and a 15-minute window: arrivals at
   * minutes 0, 5 and 10 are forwarded, the fourth at minute 12 starts a
   * consolidation marked at minute 12. The window [12, 27] has not closed
   * at minute 27; at minute 28 the sweep sends a consolidation of the one
   * trap in it, drops it from the history and stops consolidating.
   */
  lemma BurstScenario()
    ensures var m := MS_PER_MINUTE;
      var a1 := RollingArrival(3, 15, [], None, 0);
      var a2 := RollingArrival(3, 15, a1.history, a1.marker, 5 * m);
      var a3 := RollingArrival(3, 15, a2.history, a2.marker, 10 * m);
      var a4 := RollingArrival(3, 15, a3.history, a3.marker, 12 * m);
      && !a1.absorbed && !a2.absorbed && !a3.absorbed
      && a4.absorbed && a4.marker == Some(12 * m)
      && a4.history == [0, 5 * m, 10 * m, 12 * m]
      && RollingSweep(3, 15, a4.history, 12 * m, 27 * m) == Sweep(a4.history, Some(12 * m), None)
      && RollingSweep(3, 15, a4.history, 12 * m, 28 * m) == Sweep([], None, Some(1))
  {
    var m := MS_PER_MINUTE;
    var h := [0, 5 * m, 10 * m, 12 * m];
    CountAll(Some(-15 * m), Some(0), h[..1]);
    CountAll(Some(-10 * m), Some(5 * m), h[..2]);
    CountAll(Some(-5 * m), Some(10 * m), h[..3]);
    CountAll(Some(-3 * m), Some(12 * m), h);
    assert h[..4] == h;
    CountAll(None, Some(27 * m), h);
    CountNone(Some(12 * m), Some(27 * m), h[..3]);
    CountAll(Some(12 * m), Some(27 * m), h[3..]);
    assert h == h[..3] + h[3..];
    CountAppend(Some(12 * m), Some(27 * m), h[..3], h[3..]);
    var a1 := RollingArrival(3, 15, [], None, 0);
    assert a1.history == h[..1];
    assert !a1.absorbed;
    var a2 := RollingArrival(3, 15, a1.history, a1.marker, 5 * m);
    assert a2.history == h[..2];
    assert !a2.absorbed;
    var a3 := RollingArrival(3, 15, a2.history, a2.marker, 10 * m);
    assert a3.history == h[..3];
    assert !a3.absorbed;
    var a4 := RollingArrival(3, 15, a3.history, a3.marker, 12 * m);
    assert a4.history == h;
    assert a4.absorbed && a4.marker == Some(12 * m);
    assert RollingSweep(3, 15, h, 12 * m, 27 * m) == Sweep(h, Some(12 * m), None);
    assert RollingSweep(3, 15, h, 12 * m, 28 * m) == Sweep([], None, Some(1));
  }

  // ---------------------------------------------------------------------------
  // Schedule-mode rate limit
  // ---------------------------------------------------------------------------

  /** `(int)((now.getTime() - lastSentTime.getTime()) / 60000L)`. */
  function DiffMinutes(now: int, last: int): int {
    ToInt(DivTrunc(now - last, MS_PER_MINUTE))
  }

  /**
   * When the clock has not gone back and fewer than 2^31 minutes have
   * passed, the difference is the number of whole minutes elapsed, and it
   * reaches `minutes` exactly when that many minutes have elapsed.
   */
  lemma DiffMinutesWhole(now: int, last: int, minutes: int)
    requires last <= now && now - last < (INT_MAX + 1) * MS_PER_MINUTE
    ensures DiffMinutes(now, last) == (now - last) / MS_PER_MINUTE
    ensures DiffMinutes(now, last) >= minutes <==> now - last >= minutes * MS_PER_MINUTE
  {
    var q := (now - last) / MS_PER_MINUTE;
    assert 0 <= q <= INT_MAX;
    assert q * MS_PER_MINUTE <= now - last < (q + 1) * MS_PER_MINUTE;
  }
}
