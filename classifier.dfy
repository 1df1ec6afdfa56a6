/**
 * The router and consolidation engine: ignore-groups are checked first, then
 * the first matching accept-group handles the trap, either in rolling-window
 * mode (forward, or start/continue consolidating) or in schedule mode
 * (accumulate and send a rate-limited digest). A periodic sweep flushes what
 * is due.
 *
 * The per-group maps `active` (arrival history) and `consolidating` (the
 * consolidation marker) are keyed by group name, which is what identifies a
 * group.
 */
module Classifier {
  import opened Wrappers
  import opened Snmp
  import opened Schedule
  import opened Window
  import opened Group
  import JavaInt

  /** One accepted group's share of the engine's state: its own fields, its history and its marker. */
  datatype Slice = Slice(group: GroupState, history: Option<seq<int>>, marker: Option<int>)

  /** What processPdu does with a trap. */
  datatype Route = Ignored(index: nat) | Accepted(index: nat) | Unmatched

  /** A rolling-window group that is consolidating always has a history to consolidate. */
  predicate SliceValid(g: TrapGroup, sl: Slice) {
    g.StateValid(sl.group) && (!g.HasSchedule() && sl.marker.Some? ==> sl.history.Some?)
  }

  /** The first group from index `k` on that matches the trap, or -1. */
  function FirstMatch(groups: seq<TrapGroup>, k: nat, pdu: Pdu, sender: Address, dns: string -> Option<Address>): (r: int)
    requires k <= |groups|
    ensures r == -1 || k <= r < |groups|
    ensures r >= 0 ==> groups[r].MatchesTrap(pdu, sender, dns)
    ensures r >= 0 ==> forall j :: k <= j < r ==> !groups[j].MatchesTrap(pdu, sender, dns)
    ensures r == -1 ==> forall j :: k <= j < |groups| ==> !groups[j].MatchesTrap(pdu, sender, dns)
    decreases |groups| - k
  {
    if k == |groups| then -1
    else if groups[k].MatchesTrap(pdu, sender, dns) then k
    else FirstMatch(groups, k + 1, pdu, sender, dns)
  }

  /** Ignore-groups win; otherwise the first matching accept-group; otherwise nobody. */
  function RouteOf(ignore: seq<TrapGroup>, accept: seq<TrapGroup>, pdu: Pdu, sender: Address,
                   dns: string -> Option<Address>): Route
  {
    var i := FirstMatch(ignore, 0, pdu, sender, dns);
    if i >= 0 then Ignored(i)
    else
      var a := FirstMatch(accept, 0, pdu, sender, dns);
      if a >= 0 then Accepted(a) else Unmatched
  }

  /**
   * An accepted trap for a scheduled group: the marker is set if absent, the
   * trap is saved, and once the limit is reached a digest goes out if nothing
   * was sent before or at least `minutes` whole minutes have passed since the
   * last send; the digest starts at the marker when nothing was sent before,
   * else at the last send, and the marker is dropped.
   */
  function ScheduledArrival(g: TrapGroup, sl: Slice, pdu: Pdu, sender: Address, now: int): Slice
    requires g.StateValid(sl.group)
  {
    var marker := if sl.marker.None? then Some(now) else sl.marker;
    var s := g.Saved(sl.group, pdu, sender);
    var last := s.lastSentTime;
    if g.LimitReached(s) && (last.None? || DiffMinutes(now, last.value) >= g.minutes) then
      Slice(g.Digested(s, if last.None? then marker else last, now), sl.history, None)
    else
      Slice(s, sl.history, marker)
  }

  /** An accepted trap for a rolling-window group: recorded, then forwarded unless absorbed. */
  function RollingArrivalSlice(g: TrapGroup, sl: Slice, pdu: Pdu, sender: Address, now: int): Slice {
    var a := RollingArrival(g.limit, g.minutes, sl.history.GetOr([]), sl.marker, now);
    Slice(if a.absorbed then sl.group else g.Forwarded(sl.group, pdu, sender, now), Some(a.history), a.marker)
  }

  function Arrive(g: TrapGroup, sl: Slice, pdu: Pdu, sender: Address, now: int): Slice
    requires g.StateValid(sl.group)
  {
    if g.HasSchedule() then ScheduledArrival(g, sl, pdu, sender, now)
    else RollingArrivalSlice(g, sl, pdu, sender, now)
  }

  /**
   * sendConsolidated for a consolidating rolling-window group: the window
   * sweep decides what is sent, what history is kept and where the marker
   * goes.
   */
  function RollingSwept(g: TrapGroup, sl: Slice, now: int): Slice
    requires sl.marker.Some? && sl.history.Some?
  {
    var start := sl.marker.value;
    var w := RollingSweep(g.limit, g.minutes, sl.history.value, start, now);
    Slice(if w.digest.Some? then g.Consolidated(sl.group, start, w.digest.value, now) else sl.group,
          Some(w.history), w.marker)
  }

  /**
   * The sweep of one group at `now`, `today` being the local midnight the
   * schedule is laid on. A scheduled group on schedule flushes its pending
   * marker as a digest, drops it and records the slot; a consolidating
   * rolling group runs its window sweep; every other group is left alone.
   */
  function Swept(g: TrapGroup, sl: Slice, now: int, today: int): Slice
    requires SliceValid(g, sl)
  {
    if g.HasSchedule() then
      if g.OnScheduleAt(sl.group, now - today) then
        var s := if sl.marker.Some? then g.Digested(sl.group, sl.marker, now) else sl.group;
        Slice(g.Marked(s, now - today), sl.history, None)
      else sl
    else if sl.marker.Some? then RollingSwept(g, sl, now)
    else sl
  }

  // ---------------------------------------------------------------------------
  // Properties of one group's arrival and sweep
  // ---------------------------------------------------------------------------

  /**
   * Schedule mode, rate limit: once a digest has gone out at `last`, an
   * arrival less than `minutes` minutes later never sends another one; it is
   * saved, counted and leaves a marker.
   */
  lemma ScheduledRateLimit(g: TrapGroup, sl: Slice, pdu: Pdu, sender: Address, now: int)
    requires g.HasSchedule() && g.StateValid(sl.group) && IsIntMinutes(g.minutes)
    requires sl.group.lastSentTime.Some?
    requires sl.group.lastSentTime.value <= now < CutoffEnd(sl.group.lastSentTime.value, g.minutes)
    ensures var r := Arrive(g, sl, pdu, sender, now);
      && r.group == g.Saved(sl.group, pdu, sender)
      && r.marker == Some(sl.marker.GetOr(now))
  {
    var last := sl.group.lastSentTime.value;
    DiffMinutesWhole(now, last, g.minutes);
  }

  /** A minute count that fits the engine's `int`, so whole-minute differences below it are exact. */
  predicate IsIntMinutes(minutes: int) {
    0 <= minutes <= JavaInt.INT_MAX
  }

  /**
   * Schedule mode, first digest: when nothing was ever sent, the arrival
   * that brings the count to the limit sends a digest starting at the
   * marker (this arrival's time if none was pending), reporting this trap
   * and the new count, and resets the group.
   */
  lemma ScheduledFirstDigest(g: TrapGroup, sl: Slice, pdu: Pdu, sender: Address, now: int)
    requires g.HasSchedule() && g.StateValid(sl.group)
    requires sl.group.lastSentTime.None? && 0 <= sl.group.numberOfTraps < JavaInt.INT_MAX
    requires sl.group.numberOfTraps + 1 >= g.limit
    ensures var r := Arrive(g, sl, pdu, sender, now);
      var start := sl.marker.GetOr(now);
      && r.marker.None?
      && r.group.numberOfTraps == 0 && r.group.mostRecentTrap.IsEmpty()
      && r.group.lastSentTime == Some(now)
      && r.group.sent == sl.group.sent + Sends(g.forwarders,
           g.VarMap(pdu, sender)["count" := JavaInt.IntToString(sl.group.numberOfTraps + 1)]
             ["start_date" := g.dateFormat(start)])
  {
  }

  /**
   * Schedule mode, the digest decision: for a count with room below the int
   * limit and a last send no later than now, the arrival sends a digest (and
   * drops the marker) exactly when the saved count reaches the limit and
   * nothing was sent before or `minutes` whole minutes have passed since.
   * A digest resets the group and goes once to every forwarder; otherwise
   * the trap is only saved.
   */
  lemma ScheduledDigestDecision(g: TrapGroup, sl: Slice, pdu: Pdu, sender: Address, now: int)
    requires g.HasSchedule() && g.StateValid(sl.group) && IsIntMinutes(g.minutes)
    requires 0 <= sl.group.numberOfTraps < JavaInt.INT_MAX
    requires sl.group.lastSentTime.Some? ==> IsRecentSend(sl.group.lastSentTime.value, now)
    ensures var r := Arrive(g, sl, pdu, sender, now);
      var last := sl.group.lastSentTime;
      && (r.marker.None? <==>
            sl.group.numberOfTraps + 1 >= g.limit && (last.None? || now >= CutoffEnd(last.value, g.minutes)))
      && (r.marker.None? ==>
            && r.group.numberOfTraps == 0 && r.group.mostRecentTrap.IsEmpty()
            && r.group.lastSentTime == Some(now)
            && |r.group.sent| == |sl.group.sent| + |g.forwarders|)
      && (r.marker.Some? ==> r.group == g.Saved(sl.group, pdu, sender))
  {
    if sl.group.lastSentTime.Some? {
      DiffMinutesWhole(now, sl.group.lastSentTime.value, g.minutes);
    }
  }

  /** A send at `last` whose distance to `now` is a non-negative number of minutes that fits a Java int. */
  predicate IsRecentSend(last: int, now: int) {
    last <= now && now - last < (JavaInt.INT_MAX + 1) * MS_PER_MINUTE
  }

  /**
   * Schedule mode, digest after the wait: once `minutes` whole minutes have
   * passed since the last send, the arrival that reaches the limit sends a
   * digest starting at the last send, reporting this trap and the new count,
   * and resets the group and the marker.
   */
  lemma ScheduledDigestAfterWait(g: TrapGroup, sl: Slice, pdu: Pdu, sender: Address, now: int)
    requires g.HasSchedule() && g.StateValid(sl.group) && IsIntMinutes(g.minutes)
    requires sl.group.lastSentTime.Some? && IsRecentSend(sl.group.lastSentTime.value, now)
    requires now >= CutoffEnd(sl.group.lastSentTime.value, g.minutes)
    requires 0 <= sl.group.numberOfTraps < JavaInt.INT_MAX && sl.group.numberOfTraps + 1 >= g.limit
    ensures var r := Arrive(g, sl, pdu, sender, now);
      && r.marker.None?
      && r.group.numberOfTraps == 0 && r.group.mostRecentTrap.IsEmpty()
      && r.group.lastSentTime == Some(now)
      && r.group.sent == sl.group.sent + Sends(g.forwarders,
           g.VarMap(pdu, sender)["count" := JavaInt.IntToString(sl.group.numberOfTraps + 1)]
             ["start_date" := g.dateFormat(sl.group.lastSentTime.value)])
  {
    DiffMinutesWhole(now, sl.group.lastSentTime.value, g.minutes);
  }

  /**
   * Schedule mode, below the limit: the arrival is saved and counted, sends
   * nothing, and sets the marker to now only if none was pending.
   */
  lemma ScheduledBelowLimit(g: TrapGroup, sl: Slice, pdu: Pdu, sender: Address, now: int)
    requires g.HasSchedule() && g.StateValid(sl.group)
    requires 0 <= sl.group.numberOfTraps < JavaInt.INT_MAX && sl.group.numberOfTraps + 1 < g.limit
    ensures var r := Arrive(g, sl, pdu, sender, now);
      && r.group == g.Saved(sl.group, pdu, sender)
      && r.group.numberOfTraps == sl.group.numberOfTraps + 1
      && r.group.sent == sl.group.sent && r.group.lastSentTime == sl.group.lastSentTime
      && r.history == sl.history
      && r.marker == Some(sl.marker.GetOr(now))
  {
  }

  /**
   * Rolling mode: for a history recorded in time order, the arrival is
   * appended to the history and it is forwarded exactly when it is not
   * absorbed, i.e. unless the limit is non-zero and the group is already
   * consolidating or the window `[now - minutes, now]` then holds more than
   * `limit` arrivals; only a new consolidation moves the marker, to `now`.
   */
  lemma RollingArrivalForwards(g: TrapGroup, sl: Slice, pdu: Pdu, sender: Address, now: int)
    requires !g.HasSchedule() && g.StateValid(sl.group)
    requires var h := sl.history.GetOr([]); Sorted(h) && forall j :: 0 <= j < |h| ==> h[j] <= now
    ensures var h := sl.history.GetOr([]);
      var r := Arrive(g, sl, pdu, sender, now);
      var absorbed := g.limit != 0 &&
        (sl.marker.Some? || CountInRange(Some(CutoffStart(now, g.minutes)), Some(now), h + [now]) > g.limit);
      && r.history == Some(h + [now])
      && (absorbed ==> r.group == sl.group)
      && (!absorbed ==> r.group == g.Forwarded(sl.group, pdu, sender, now))
      && r.marker == (if absorbed && sl.marker.None? then Some(now) else sl.marker)
  {
    RollingArrivalDecision(g.limit, g.minutes, sl.history.GetOr([]), sl.marker, now);
  }

  /**
   * Sweeping a scheduled group twice at the same time of day changes nothing
   * the second time: the first sweep records the slot in effect.
   */
  lemma ScheduledSweepIdempotent(g: TrapGroup, sl: Slice, now: int, today: int)
    requires g.HasSchedule() && SliceValid(g, sl) && 0 <= now - today < MS_PER_DAY
    ensures SliceValid(g, Swept(g, sl, now, today))
    ensures Swept(g, Swept(g, sl, now, today), now, today) == Swept(g, sl, now, today)
  {
    var s := if sl.marker.Some? then g.Digested(sl.group, sl.marker, now) else sl.group;
    g.MarkedNotOnSchedule(s, now - today);
  }

  /**
   * Schedule sweep: when the group is on schedule any pending marker is
   * flushed as a digest from the marker (whatever the count) and dropped,
   * and the slot in effect is recorded; otherwise nothing changes.
   */
  lemma ScheduledSweepFlushes(g: TrapGroup, sl: Slice, now: int, today: int)
    requires g.HasSchedule() && SliceValid(g, sl)
    ensures var r := Swept(g, sl, now, today);
      if g.OnScheduleAt(sl.group, now - today) then
        && r.marker.None?
        && r.group.indexOfLastProcessedSchedule == ClosestSchedule(g.schedules, now - today)
        && (sl.marker.Some? && !sl.group.mostRecentTrap.IsEmpty() ==>
              r.group.numberOfTraps == 0 && r.group.lastSentTime == Some(now)
              && r.group.sent == sl.group.sent + Sends(g.forwarders, g.DigestVars(sl.group, sl.marker.value)))
        && (sl.marker.None? || sl.group.mostRecentTrap.IsEmpty() ==>
              r.group == sl.group.(indexOfLastProcessedSchedule := ClosestSchedule(g.schedules, now - today)))
      else r == sl
  {
  }

  /**
   * Rolling sweep: a group not consolidating, or whose window has not
   * closed yet, is left alone.
   */
  lemma RollingSweepIdle(g: TrapGroup, sl: Slice, now: int, today: int)
    requires !g.HasSchedule() && SliceValid(g, sl)
    requires sl.marker.None? || sl.marker.value >= CutoffStart(now, g.minutes)
    ensures Swept(g, sl, now, today) == sl
  {
    if sl.marker.Some? {
      RollingSweepWaits(g.limit, g.minutes, sl.history.value, sl.marker.value, now);
    }
  }

  /**
   * Rolling sweep of a closed window `[start, end]` over a history recorded
   * in time order: a consolidation of the traps in the window is sent iff
   * there are any, the history then keeps only the traps after `end`, and
   * consolidation stops when fewer than `limit` traps fell in the window,
   * else continues from `end`, strictly later than `start`.
   */
  lemma RollingSweepFlushes(g: TrapGroup, sl: Slice, now: int, today: int)
    requires !g.HasSchedule() && SliceValid(g, sl) && g.minutes > 0
    requires sl.marker.Some? && sl.marker.value < CutoffStart(now, g.minutes)
    requires Sorted(sl.history.value)
    ensures var start := sl.marker.value;
      var end := CutoffEnd(start, g.minutes);
      var h := sl.history.value;
      var count := CountInRange(Some(start), Some(end), h);
      var r := Swept(g, sl, now, today);
      && (count != 0 ==> r.group == g.Consolidated(sl.group, start, count, now))
      && (count == 0 ==> r.group == sl.group && r.history == sl.history)
      && r.history.Some? && (forall d :: d in r.history.value <==> d in h && (count == 0 || d > end))
      && (r.marker.None? <==> count < g.limit)
      && (r.marker.Some? ==> r.marker.value == end && end > start)
  {
    var start := sl.marker.value;
    RollingSweepActs(g.limit, g.minutes, sl.history.value, start, now);
    RollingSweepTrims(g.limit, g.minutes, sl.history.value, start, now);
    WindowAdvances(start, g.minutes);
  }

  class TrapClassifier {
    const accept: seq<TrapGroup>
    const ignore: seq<TrapGroup>
    /** Arrival times of each rolling-window group's traps not yet consolidated away. */
    var active: map<string, seq<int>>
    /** When each consolidating group's current window (or digest period) started. */
    var consolidating: map<string, int>

    function SliceOf(g: TrapGroup): Slice
      reads this, g
    {
      Slice(g.State(), Get(active, g.name), Get(consolidating, g.name))
    }

    /** Accept-groups have distinct names, and each group and its slice are well formed. */
    predicate Valid()
      reads this, accept
    {
      && (forall i, j :: 0 <= i < j < |accept| ==> accept[i].name != accept[j].name)
      && (forall i :: 0 <= i < |accept| ==> accept[i].Valid() && SliceValid(accept[i], SliceOf(accept[i])))
    }

    /** The map entries of every name other than `name` are as before. */
    twostate predicate OthersUnchanged(name: string)
      reads this
    {
      forall k :: k != name ==> Get(active, k) == old(Get(active, k)) && Get(consolidating, k) == old(Get(consolidating, k))
    }

    constructor(accept: seq<TrapGroup>, ignore: seq<TrapGroup>)
      requires forall i, j :: 0 <= i < j < |accept| ==> accept[i].name != accept[j].name
      requires forall i :: 0 <= i < |accept| ==> accept[i].Valid()
      ensures Valid()
      ensures this.accept == accept && this.ignore == ignore
      ensures active == map[] && consolidating == map[]
    {
      this.accept := accept;
      this.ignore := ignore;
      active := map[];
      consolidating := map[];
    }

    /** markActive: appends `now` to the group's history, creating it if needed. */
    method MarkActive(g: TrapGroup, now: int) returns (latest: int)
      modifies this
      ensures latest == now
      ensures active == old(active)[g.name := Get(old(active), g.name).GetOr([]) + [now]]
      ensures consolidating == old(consolidating)
    {
      var list := if g.name in active then active[g.name] else [];
      active := active[g.name := list + [now]];
      latest := now;
    }

    /** consolidateWindow: does the trailing window ending at `windowEnd` hold more than `limit` traps? */
    method ConsolidateWindow(windowEnd: int, g: TrapGroup) returns (r: bool)
      requires g.name in active
      ensures r <==> WindowSize(Some(CutoffStart(windowEnd, g.minutes)), Some(windowEnd), active[g.name]) > g.limit
    {
      var list := active[g.name];
      var cutoff := CutoffStart(windowEnd, g.minutes);
      var windowSize := GetWindowSize(Some(cutoff), Some(windowEnd), list);
      return windowSize > g.limit;
    }

    /** consolidating: records the arrival and decides whether it is absorbed. */
    method Consolidating(g: TrapGroup, now: int) returns (r: bool)
      modifies this
      ensures var a := RollingArrival(g.limit, g.minutes, Get(old(active), g.name).GetOr([]),
                                      Get(old(consolidating), g.name), now);
        && r == a.absorbed
        && Get(active, g.name) == Some(a.history)
        && Get(consolidating, g.name) == a.marker
      ensures OthersUnchanged(g.name)
    {
      var latest := MarkActive(g, now);
      if g.limit == 0 {
        return false;
      }
      if g.name in consolidating {
        return true;
      }
      r := ConsolidateWindow(latest, g);
      if r {
        consolidating := consolidating[g.name := latest];
      }
    }

    /** The schedule-mode branch of processPdu. */
    method AcceptScheduled(g: TrapGroup, pdu: Pdu, sender: Address, now: int)
      requires g.Valid() && g.HasSchedule()
      modifies this, g
      ensures g.Valid()
      ensures SliceOf(g) == ScheduledArrival(g, old(SliceOf(g)), pdu, sender, now)
      ensures OthersUnchanged(g.name)
    {
      if g.name !in consolidating {
        consolidating := consolidating[g.name := now];
      }
      g.SavePdu(pdu, sender);
      var diffMinutes := -1;
      var lastSentTime := g.lastSentTime;
      if lastSentTime.Some? {
        diffMinutes := DiffMinutes(now, lastSentTime.value);
      }
      if g.LimitReached(g.State()) {
        if lastSentTime.None? || diffMinutes >= g.minutes {
          g.SendDigest(if lastSentTime.None? then Get(consolidating, g.name) else lastSentTime, now);
          if g.name in consolidating {
            consolidating := consolidating - {g.name};
          }
        }
      }
    }

    /** The rolling-window branch of processPdu. */
    method AcceptRolling(g: TrapGroup, pdu: Pdu, sender: Address, now: int)
      requires g.Valid() && !g.HasSchedule()
      modifies this, g
      ensures g.Valid()
      ensures SliceOf(g) == RollingArrivalSlice(g, old(SliceOf(g)), pdu, sender, now)
      ensures OthersUnchanged(g.name)
    {
      var c := Consolidating(g, now);
      if !c {
        g.Forward(pdu, sender, now);
      }
    }

    /** sendConsolidated for one rolling-window group. */
    method SendConsolidatedFor(g: TrapGroup, now: int)
      requires g.Valid() && SliceValid(g, SliceOf(g)) && !g.HasSchedule() && g.name in consolidating
      modifies this, g
      ensures g.Valid()
      ensures SliceOf(g) == RollingSwept(g, old(SliceOf(g)), now)
      ensures OthersUnchanged(g.name)
    {
      var start := consolidating[g.name];
      var cutoff := CutoffStart(now, g.minutes);
      if start < cutoff {
        var list := active[g.name];
        var end := CutoffEnd(start, g.minutes);
        var count := GetWindowSize(Some(start), Some(end), list);
        if count != 0 {
          g.SendConsolidated(start, count, now);
          var removable := GetWindowSize(None, Some(end), list);
          active := active[g.name := list[removable..]];
        }
        if count < g.limit {
          consolidating := consolidating - {g.name};
        } else {
          consolidating := consolidating[g.name := end];
        }
      }
    }

    /** Changing one accepted group and its own map entries leaves every other accepted group's slice alone. */
    twostate lemma OtherSlicesUnchanged(i: nat)
      requires old(Valid()) && i < |accept|
      requires OthersUnchanged(accept[i].name)
      requires forall j :: 0 <= j < |accept| && j != i ==> unchanged(accept[j])
      ensures forall j :: 0 <= j < |accept| && j != i ==> SliceOf(accept[j]) == old(SliceOf(accept[j]))
    {
    }

    /**
     * What processPdu promises: the trap is marked processed iff some group
     * matches it; only an accept-group that gets the trap changes, as its
     * arrival rule says; an ignored or unmatched trap changes nothing.
     */
    twostate predicate Handled(pdu: Pdu, sender: Address, now: int, dns: string -> Option<Address>, processed: bool)
      reads this, accept
    {
      var r := RouteOf(ignore, accept, pdu, sender, dns);
      && old(Valid())
      && (processed <==> !r.Unmatched?)
      && (r.Accepted? ==> SliceOf(accept[r.index]) == Arrive(accept[r.index], old(SliceOf(accept[r.index])), pdu, sender, now))
      && (forall j :: 0 <= j < |accept| && !(r.Accepted? && r.index == j) ==> SliceOf(accept[j]) == old(SliceOf(accept[j])))
    }

    /**
     * processPdu: the first matching ignore-group swallows the trap; else the
     * first matching accept-group handles it; the result says whether the
     * trap was marked processed.
     */
    method ProcessPdu(pdu: Pdu, sender: Address, now: int, dns: string -> Option<Address>) returns (processed: bool)
      requires Valid()
      modifies this, accept
      ensures Valid()
      ensures Handled(pdu, sender, now, dns, processed)
    {
      var i := 0;
      while i < |ignore|
        invariant 0 <= i <= |ignore|
        invariant forall j :: 0 <= j < i ==> !ignore[j].MatchesTrap(pdu, sender, dns)
        invariant unchanged(this) && forall j :: 0 <= j < |accept| ==> unchanged(accept[j])
      {
        var m := ignore[i].Matches(pdu, sender, dns);
        if m {
          return true;
        }
        i := i + 1;
      }
      i := 0;
      while i < |accept|
        invariant 0 <= i <= |accept|
        invariant forall j :: 0 <= j < i ==> !accept[j].MatchesTrap(pdu, sender, dns)
        invariant unchanged(this) && forall j :: 0 <= j < |accept| ==> unchanged(accept[j])
      {
        var group := accept[i];
        var m := group.Matches(pdu, sender, dns);
        if m {
          if group.HasSchedule() {
            AcceptScheduled(group, pdu, sender, now);
          } else {
            AcceptRolling(group, pdu, sender, now);
          }
          OtherSlicesUnchanged(i);
          return true;
        }
        i := i + 1;
      }
      return false;
    }

    /** One step of sendAllConsolidated's loop. */
    method SweepGroup(g: TrapGroup, now: int, today: int)
      requires g.Valid() && SliceValid(g, SliceOf(g))
      modifies this, g
      ensures g.Valid() && SliceValid(g, SliceOf(g))
      ensures SliceOf(g) == Swept(g, old(SliceOf(g)), now, today)
      ensures OthersUnchanged(g.name)
    {
      if g.HasSchedule() {
        var on := g.OnSchedule(now, today);
        if on {
          if g.name in consolidating {
            var start := consolidating[g.name];
            g.SendDigest(Some(start), now);
            consolidating := consolidating - {g.name};
          }
          g.MarkScheduleProcessed(now, today);
        }
      } else if g.name in consolidating {
        SendConsolidatedFor(g, now);
      }
    }

    /** sendAllConsolidated: sweeps every accept-group in order. */
    method SendAllConsolidated(now: int, today: int)
      requires Valid()
      modifies this, accept
      ensures Valid()
      ensures forall j :: 0 <= j < |accept| ==> SliceOf(accept[j]) == Swept(accept[j], old(SliceOf(accept[j])), now, today)
    {
      var i := 0;
      while i < |accept|
        invariant 0 <= i <= |accept|
        invariant Valid()
        invariant forall j :: 0 <= j < i ==> SliceOf(accept[j]) == Swept(accept[j], old(SliceOf(accept[j])), now, today)
        invariant forall j :: i <= j < |accept| ==> SliceOf(accept[j]) == old(SliceOf(accept[j]))
      {
        label Before:
        SweepGroup(accept[i], now, today);
        OtherSlicesUnchanged@Before(i);
        i := i + 1;
      }
    }
  }
}
