/**
 * The daily schedule of a TrapGroup: parsing the comma-separated `HH:MM`
 * list (populateSchedules) and finding the slot in effect at a given time of
 * day (findIndexOfClosestSchedule).
 *
 * Times of day are milliseconds after the local midnight of the calendar day
 * on which findIndexOfClosestSchedule builds its slot times.
 */
module Schedule {
  import opened Wrappers
  import opened JavaInt

  const MS_PER_MINUTE: int := 60000
  const MS_PER_HOUR: int := 3600000
  const MS_PER_DAY: int := 86400000

  /** One schedule item: the HH and MM of an `HH:MM` string. */
  datatype Slot = Slot(hour: nat, minute: nat)

  /** What the `\d{2}:\d{2}` pattern admits. */
  predicate TwoDigits(s: Slot) {
    s.hour < 100 && s.minute < 100
  }

  /** A slot that names a time of day without Calendar roll-over. */
  predicate WithinDay(s: Slot) {
    s.hour < 24 && s.minute < 60
  }

  /**
   * The order `Collections.sort` puts `HH:MM` strings in: digit by digit, that
   * is hour first, then minute.
   */
  predicate Before(a: Slot, b: Slot) {
    a.hour < b.hour || (a.hour == b.hour && a.minute < b.minute)
  }

  predicate NotAfter(a: Slot, b: Slot) {
    Before(a, b) || a == b
  }

  /** Sorted and duplicate-free. */
  predicate Ascending(s: seq<Slot>) {
    forall i, j :: 0 <= i < j < |s| ==> Before(s[i], s[j])
  }

  predicate NonDescending(s: seq<Slot>) {
    forall i, j :: 0 <= i < j < |s| ==> NotAfter(s[i], s[j])
  }

  predicate Distinct(s: seq<Slot>) {
    forall i, j :: 0 <= i < j < |s| ==> s[i] != s[j]
  }

  // ---------------------------------------------------------------------------
  // Parsing one item: ^\s*(\d{2}:\d{2})\s*$
  // ---------------------------------------------------------------------------

  /** Java's `\s`: space, tab, newline, vertical tab, form feed, carriage return. */
  predicate IsRegexSpace(c: char) {
    c == ' ' || '\t' <= c <= '\r'
  }

  predicate AllSpace(s: string) {
    forall i :: 0 <= i < |s| ==> IsRegexSpace(s[i])
  }

  predicate IsDigit(c: char) {
    '0' <= c <= '9'
  }

  function DigitValue(c: char): nat
    requires IsDigit(c)
  {
    c as int - '0' as int
  }

  /** The `HH:MM` text of a slot. */
  function Format(s: Slot): string
    requires TwoDigits(s)
  {
    [DigitChar(s.hour / 10), DigitChar(s.hour % 10), ':', DigitChar(s.minute / 10), DigitChar(s.minute % 10)]
  }

  function TrimLeft(s: string): string
    decreases |s|
  {
    if |s| > 0 && IsRegexSpace(s[0]) then TrimLeft(s[1..]) else s
  }

  function TrimRight(s: string): string
    decreases |s|
  {
    if |s| > 0 && IsRegexSpace(s[|s| - 1]) then TrimRight(s[..|s| - 1]) else s
  }

  /** Group 1 of the pattern, read as `Integer.parseInt` of its two halves. */
  function ParseCore(s: string): Option<Slot> {
    if |s| == 5 && IsDigit(s[0]) && IsDigit(s[1]) && s[2] == ':' && IsDigit(s[3]) && IsDigit(s[4])
    then Some(Slot(DigitValue(s[0]) * 10 + DigitValue(s[1]), DigitValue(s[3]) * 10 + DigitValue(s[4])))
    else None
  }

  /**
   * The slot an item of the schedule list denotes, or None when the item does
   * not match `^\s*(\d{2}:\d{2})\s*$`. A match is the slot's own text with
   * whitespace around it.
   */
  function ParseSlot(item: string): (r: Option<Slot>)
    ensures r.Some? ==> TwoDigits(r.value)
    ensures r.Some? ==> exists pre, post :: AllSpace(pre) && AllSpace(post) && item == pre + Format(r.value) + post
  {
    var core := TrimRight(TrimLeft(item));
    var r := ParseCore(core);
    if r.Some? then
      TrimLeftSplit(item);
      TrimRightSplit(TrimLeft(item));
      ParseCoreFormat(core);
      var pre := item[..|item| - |TrimLeft(item)|];
      var post := TrimLeft(item)[|core|..];
      assert item == pre + Format(r.value) + post;
      r
    else
      r
  }

  lemma {:induction false} TrimLeftSplit(s: string)
    ensures |TrimLeft(s)| <= |s|
    ensures s == s[..|s| - |TrimLeft(s)|] + TrimLeft(s)
    ensures AllSpace(s[..|s| - |TrimLeft(s)|])
    decreases |s|
  {
    if |s| > 0 && IsRegexSpace(s[0]) {
      TrimLeftSplit(s[1..]);
      var k := |s| - |TrimLeft(s)|;
      assert s[..k] == [s[0]] + s[1..][..k - 1];
    }
  }

  lemma {:induction false} TrimRightSplit(s: string)
    ensures |TrimRight(s)| <= |s|
    ensures s == TrimRight(s) + s[|TrimRight(s)|..]
    ensures AllSpace(s[|TrimRight(s)|..])
    decreases |s|
  {
    if |s| > 0 && IsRegexSpace(s[|s| - 1]) {
      var t := s[..|s| - 1];
      TrimRightSplit(t);
      var k := |TrimRight(s)|;
      assert s[k..] == t[k..] + [s[|s| - 1]];
    }
  }

  lemma ParseCoreFormat(core: string)
    requires ParseCore(core).Some?
    ensures TwoDigits(ParseCore(core).value)
    ensures Format(ParseCore(core).value) == core
  {
  }

  /** The converse of ParseSlot's contract: a slot's text, padded with whitespace, parses to that slot. */
  lemma {:induction false} ParseSlotFormat(pre: string, s: Slot, post: string)
    requires TwoDigits(s) && AllSpace(pre) && AllSpace(post)
    ensures ParseSlot(pre + Format(s) + post) == Some(s)
  {
    var f := Format(s);
    TrimLeftPadded(pre, f + post);
    assert pre + f + post == pre + (f + post);
    TrimRightPadded(f, post);
    assert ParseCore(f) == Some(s);
  }

  lemma {:induction false} TrimLeftPadded(pre: string, rest: string)
    requires AllSpace(pre) && |rest| > 0 && !IsRegexSpace(rest[0])
    ensures TrimLeft(pre + rest) == rest
    decreases |pre|
  {
    if pre == [] {
      assert pre + rest == rest;
    } else {
      assert (pre + rest)[1..] == pre[1..] + rest;
      TrimLeftPadded(pre[1..], rest);
    }
  }

  lemma {:induction false} TrimRightPadded(body: string, post: string)
    requires AllSpace(post) && |body| > 0 && !IsRegexSpace(body[|body| - 1])
    ensures TrimRight(body + post) == body
    decreases |post|
  {
    if post == [] {
      assert body + post == body;
    } else {
      var shorter := post[..|post| - 1];
      assert (body + post)[..|body + post| - 1] == body + shorter;
      TrimRightPadded(body, shorter);
    }
  }

  // ---------------------------------------------------------------------------
  // Splitting the configured string: String.split(",")
  // ---------------------------------------------------------------------------

  /** The pieces between commas, including empty ones. */
  function Pieces(s: string): (r: seq<string>)
    ensures |r| >= 1
    ensures forall i :: 0 <= i < |r| ==> ',' !in r[i]
    decreases |s|
  {
    if |s| == 0 then [""]
    else
      var rest := Pieces(s[1..]);
      if s[0] == ',' then [""] + rest else [[s[0]] + rest[0]] + rest[1..]
  }

  /** Puts the comma separators back. */
  function JoinWithCommas(items: seq<string>): string
    requires |items| >= 1
    decreases |items|
  {
    if |items| == 1 then items[0] else items[0] + "," + JoinWithCommas(items[1..])
  }

  /** Splitting loses nothing but the commas. */
  lemma {:induction false} PiecesJoin(s: string)
    ensures JoinWithCommas(Pieces(s)) == s
    decreases |s|
  {
    if |s| > 0 {
      PiecesJoin(s[1..]);
      var rest := Pieces(s[1..]);
      if s[0] == ',' {
        assert s == [s[0]] + s[1..];
      } else {
        var r := Pieces(s);
        assert r[0] == [s[0]] + rest[0];
        if |rest| == 1 {
          assert s == [s[0]] + s[1..];
        } else {
          assert r[1..] == rest[1..];
          assert JoinWithCommas(rest) == rest[0] + "," + JoinWithCommas(rest[1..]);
          assert s == [s[0]] + s[1..];
        }
      }
    }
  }

  function DropTrailingEmpty(items: seq<string>): seq<string>
    decreases |items|
  {
    if |items| > 0 && items[|items| - 1] == "" then DropTrailingEmpty(items[..|items| - 1]) else items
  }

  /**
   * `String.split(",")`: a string without a comma is its own single item;
   * otherwise the pieces, with trailing empty ones removed.
   */
  function Split(s: string): seq<string> {
    if ',' in s then DropTrailingEmpty(Pieces(s)) else [s]
  }

  /** `scheduleStr.trim().length() == 0`: trim removes every char up to U+0020. */
  predicate IsBlank(s: string) {
    forall i :: 0 <= i < |s| ==> s[i] <= ' '
  }

  // ---------------------------------------------------------------------------
  // Sorting (Collections.sort)
  // ---------------------------------------------------------------------------

  function Insert(x: Slot, s: seq<Slot>): (r: seq<Slot>)
    decreases |s|
  {
    if s == [] then [x]
    else if NotAfter(x, s[0]) then [x] + s
    else [s[0]] + Insert(x, s[1..])
  }

  lemma {:induction false} InsertElements(x: Slot, s: seq<Slot>)
    ensures multiset(Insert(x, s)) == multiset(s) + multiset{x}
    decreases |s|
  {
    if s != [] && !NotAfter(x, s[0]) {
      InsertElements(x, s[1..]);
      assert s == [s[0]] + s[1..];
    }
  }

  lemma {:induction false} InsertSorted(x: Slot, s: seq<Slot>)
    requires NonDescending(s)
    ensures NonDescending(Insert(x, s))
    ensures x !in s && Ascending(s) ==> Ascending(Insert(x, s))
    decreases |s|
  {
    if s != [] && !NotAfter(x, s[0]) {
      InsertSorted(x, s[1..]);
      InsertElements(x, s[1..]);
      var tail := Insert(x, s[1..]);
      forall k | 0 <= k < |tail|
        ensures tail[k] == x || tail[k] in s[1..]
      {
        assert tail[k] in multiset(tail);
      }
    }
  }

  /** Insertion sort in the order of the `HH:MM` strings. */
  function Sort(s: seq<Slot>): (r: seq<Slot>)
    ensures NonDescending(r)
    ensures multiset(r) == multiset(s)
    ensures Distinct(s) ==> Ascending(r)
    decreases |s|
  {
    if s == [] then []
    else
      var init := s[..|s| - 1];
      var sorted := Sort(init);
      assert s == init + [s[|s| - 1]];
      assert Distinct(s) ==> Distinct(init);
      assert Distinct(s) ==> s[|s| - 1] !in init;
      assert s[|s| - 1] in sorted <==> s[|s| - 1] in multiset(sorted);
      InsertSorted(s[|s| - 1], sorted);
      InsertElements(s[|s| - 1], sorted);
      Insert(s[|s| - 1], sorted)
  }

  // ---------------------------------------------------------------------------
  // populateSchedules
  // ---------------------------------------------------------------------------

  /** Some item of the list parses to `s`. */
  predicate Listed(items: seq<string>, s: Slot) {
    exists k :: 0 <= k < |items| && ParseSlot(items[k]) == Some(s)
  }

  /**
   * Builds the schedule from the `schedule` property: every comma-separated
   * item matching `\s*\d{2}:\d{2}\s*` contributes its trimmed `HH:MM` once,
   * malformed items are skipped, and the result is sorted.
   */
  method PopulateSchedules(scheduleStr: Option<string>) returns (schedules: seq<Slot>)
    ensures Ascending(schedules)
    ensures forall s :: s in schedules ==> TwoDigits(s)
    ensures scheduleStr.None? || IsBlank(scheduleStr.value) ==> schedules == []
    ensures scheduleStr.Some? && !IsBlank(scheduleStr.value) ==>
      forall s :: s in schedules <==> Listed(Split(scheduleStr.value), s)
  {
    schedules := [];
    if scheduleStr.None? || IsBlank(scheduleStr.value) {
      return;
    }
    var items := Split(scheduleStr.value);
    for k := 0 to |items|
      invariant Distinct(schedules)
      invariant forall s :: s in schedules ==> TwoDigits(s)
      invariant forall s :: s in schedules <==> Listed(items[..k], s)
    {
      var m := ParseSlot(items[k]);
      if m.Some? {
        if m.value !in schedules {
          schedules := schedules + [m.value];
        }
      }
      forall s
        ensures Listed(items[..k + 1], s) <==> Listed(items[..k], s) || m == Some(s)
      {
        if Listed(items[..k + 1], s) {
          var j :| 0 <= j < k + 1 && ParseSlot(items[..k + 1][j]) == Some(s);
          if j < k {
            assert items[..k][j] == items[..k + 1][j];
          }
        }
        if Listed(items[..k], s) {
          var j :| 0 <= j < k && ParseSlot(items[..k][j]) == Some(s);
          assert items[..k + 1][j] == items[..k][j];
        }
        if m == Some(s) {
          assert items[..k + 1][k] == items[k];
        }
      }
    }
    assert items[..|items|] == items;
    var unsorted := schedules;
    schedules := Sort(schedules);
    forall s | s in schedules
      ensures s in unsorted
    {
      assert s in multiset(schedules);
    }
    forall s | s in unsorted
      ensures s in schedules
    {
      assert s in multiset(unsorted);
    }
  }

  // ---------------------------------------------------------------------------
  // findIndexOfClosestSchedule
  // ---------------------------------------------------------------------------

  /** The time of day a slot stands for: HH hours and MM minutes after midnight. */
  function SlotTime(s: Slot): int {
    (s.hour * 60 + s.minute) * MS_PER_MINUTE
  }

  /** `from` for slot i. */
  function From(slots: seq<Slot>, i: nat): int
    requires i < |slots|
  {
    SlotTime(slots[i])
  }

  /** `to` for slot i: the next slot, or the next midnight for the last one. */
  function To(slots: seq<Slot>, i: nat): int
    requires i < |slots|
  {
    if i < |slots| - 1 then SlotTime(slots[i + 1]) else MS_PER_DAY
  }

  /** The loop's test: `(now.after(from) && now.before(to)) || now == from`. */
  predicate Hit(slots: seq<Slot>, t: int, i: nat)
    requires i < |slots|
  {
    (From(slots, i) < t && t < To(slots, i)) || t == From(slots, i)
  }

  /** The first slot from `i` on whose test succeeds, or -1. */
  function FirstHit(slots: seq<Slot>, t: int, i: nat): (r: int)
    requires i <= |slots|
    ensures r == -1 || (i <= r < |slots| && Hit(slots, t, r))
    ensures r != -1 ==> forall j :: i <= j < r ==> !Hit(slots, t, j)
    ensures r == -1 ==> forall j :: i <= j < |slots| ==> !Hit(slots, t, j)
    decreases |slots| - i
  {
    if i == |slots| then -1
    else if Hit(slots, t, i) then i
    else FirstHit(slots, t, i + 1)
  }

  /**
   * The slot in effect at time of day `t`: -1 without a schedule, the last
   * slot before the first slot of the day, else the first slot whose test
   * succeeds.
   */
  function ClosestSchedule(slots: seq<Slot>, t: int): int {
    if |slots| == 0 then -1
    else if t < SlotTime(slots[0]) then |slots| - 1
    else FirstHit(slots, t, 0)
  }

  /** The loop of findIndexOfClosestSchedule with its two early exits. */
  method FindIndexOfClosestSchedule(schedules: seq<Slot>, now: int) returns (indexOfClosestSchedule: int)
    ensures indexOfClosestSchedule == ClosestSchedule(schedules, now)
  {
    indexOfClosestSchedule := -1;
    if |schedules| == 0 {
      return;
    }
    var index := 0;
    while index < |schedules|
      invariant 0 <= index <= |schedules|
      invariant index > 0 ==> now >= SlotTime(schedules[0])
      invariant forall j :: 0 <= j < index ==> !Hit(schedules, now, j)
      invariant indexOfClosestSchedule == -1
    {
      var from := SlotTime(schedules[index]);
      if index == 0 && now < from {
        indexOfClosestSchedule := |schedules| - 1;
        break;
      }
      var to := if index < |schedules| - 1 then SlotTime(schedules[index + 1]) else MS_PER_DAY;
      assert from == From(schedules, index) && to == To(schedules, index);
      if (from < now && now < to) || now == from {
        indexOfClosestSchedule := index;
        assert Hit(schedules, now, index);
        var r := FirstHit(schedules, now, 0);
        assert r != -1;
        assert !(r < index) && !(r > index);
        break;
      }
      assert !Hit(schedules, now, index);
      index := index + 1;
    }
    if indexOfClosestSchedule == -1 {
      assert forall j :: 0 <= j < |schedules| ==> !Hit(schedules, now, j);
      assert FirstHit(schedules, now, 0) == -1;
    }
  }

  /**
   * From a slot at or before `t`, some later slot's test succeeds, whatever
   * the order of the slots: the slot times climb from at most `t` to the next
   * midnight, which is after `t`.
   */
  lemma {:induction false} FirstHitFound(slots: seq<Slot>, t: int, i: nat)
    requires i < |slots| && From(slots, i) <= t < MS_PER_DAY
    ensures i <= FirstHit(slots, t, i) < |slots|
    decreases |slots| - i
  {
    if !Hit(slots, t, i) {
      FirstHitFound(slots, t, i + 1);
    }
  }

  /**
   * For any time of the same day, the index is -1 exactly when no schedule
   * is configured, and otherwise a valid index; one slot always gives 0.
   */
  lemma ClosestScheduleRange(slots: seq<Slot>, t: int)
    requires t < MS_PER_DAY
    ensures ClosestSchedule(slots, t) == -1 <==> |slots| == 0
    ensures |slots| > 0 ==> 0 <= ClosestSchedule(slots, t) < |slots|
    ensures |slots| == 1 ==> ClosestSchedule(slots, t) == 0
  {
    if |slots| > 0 && t >= SlotTime(slots[0]) {
      FirstHitFound(slots, t, 0);
    }
  }

  /**
   * Slot i owns `[slot[i], slot[i+1])`, the last slot runs to midnight, and
   * the time before the first slot belongs to the last one.
   */
  predicate Owns(slots: seq<Slot>, t: int, i: nat)
    requires i < |slots|
  {
    (t < From(slots, 0) && i == |slots| - 1) || (From(slots, i) <= t < To(slots, i))
  }

  lemma SlotTimeMonotone(a: Slot, b: Slot)
    requires WithinDay(a) && WithinDay(b) && Before(a, b)
    ensures SlotTime(a) < SlotTime(b) < MS_PER_DAY
  {
  }

  /**
   * For an ascending schedule of real times of day, the index returned is the
   * slot that owns `t`, and no other slot owns it.
   */
  lemma ClosestScheduleOwner(slots: seq<Slot>, t: int, i: nat)
    requires Ascending(slots) && forall s :: s in slots ==> WithinDay(s)
    requires 0 <= t < MS_PER_DAY && i < |slots|
    ensures ClosestSchedule(slots, t) == i <==> Owns(slots, t, i)
  {
    var n := |slots|;
    assert forall j, k :: 0 <= j < k < n ==> From(slots, j) < From(slots, k) by {
      forall j, k | 0 <= j < k < n ensures From(slots, j) < From(slots, k) {
        SlotTimeMonotone(slots[j], slots[k]);
      }
    }
    assert forall j :: 0 <= j < n ==> From(slots, j) < To(slots, j) by {
      forall j | 0 <= j < n ensures From(slots, j) < To(slots, j) {
        if j < n - 1 {
          SlotTimeMonotone(slots[j], slots[j + 1]);
        } else {
          assert WithinDay(slots[j]);
        }
      }
    }
    ClosestScheduleRange(slots, t);
    var r := ClosestSchedule(slots, t);
    assert Owns(slots, t, r);
    forall j | 0 <= j < n && j != r
      ensures !Owns(slots, t, j)
    {
      if t < From(slots, 0) {
        assert From(slots, 0) <= From(slots, j);
      } else if j < r {
        assert To(slots, j) <= From(slots, r) by {
          if j + 1 < r {
            assert From(slots, j + 1) < From(slots, r);
          }
        }
      } else {
        assert To(slots, r) <= From(slots, j) by {
          if r + 1 < j {
            assert From(slots, r + 1) < From(slots, j);
          }
        }
      }
    }
  }

  /** The expectations for the one-, two- and three-slot schedules of the unit tests. */
  lemma TestScheduleExpectations(t: int)
    requires 0 <= t < MS_PER_DAY
    ensures ClosestSchedule([Slot(12, 1)], t) == 0
    ensures var two := [Slot(6, 0), Slot(12, 0)];
      (t < 6 * MS_PER_HOUR ==> ClosestSchedule(two, t) == 1) &&
      (6 * MS_PER_HOUR <= t < 12 * MS_PER_HOUR ==> ClosestSchedule(two, t) == 0) &&
      (12 * MS_PER_HOUR <= t ==> ClosestSchedule(two, t) == 1)
    ensures var three := [Slot(6, 0), Slot(12, 0), Slot(18, 0)];
      (t < 6 * MS_PER_HOUR ==> ClosestSchedule(three, t) == 2) &&
      (6 * MS_PER_HOUR <= t < 12 * MS_PER_HOUR ==> ClosestSchedule(three, t) == 0) &&
      (12 * MS_PER_HOUR <= t < 18 * MS_PER_HOUR ==> ClosestSchedule(three, t) == 1) &&
      (18 * MS_PER_HOUR <= t ==> ClosestSchedule(three, t) == 2)
  {
    ClosestScheduleRange([Slot(12, 1)], t);
    var two := [Slot(6, 0), Slot(12, 0)];
    var three := [Slot(6, 0), Slot(12, 0), Slot(18, 0)];
    var r2 := ClosestSchedule(two, t);
    ClosestScheduleRange(two, t);
    ClosestScheduleOwner(two, t, r2);
    var r3 := ClosestSchedule(three, t);
    ClosestScheduleRange(three, t);
    ClosestScheduleOwner(three, t, r3);
  }
}
