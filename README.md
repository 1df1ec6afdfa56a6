# Trapper consolidation engine

A Dafny model of the core of *trapper*, an SNMP trap relay. These three classes are modelled:

- **TrapGroup** is one configured group of traps. It holds:
  - match criteria: sender addresses with `%` wildcards, a variable OID with a regular expression, and a body search;
  - forwarders;
  - an optional list of `HH:MM` schedule slots;
  - the rate-limit state: the last saved trap, a trap counter, the last send time and the last processed slot.
- **TrapClassifier** routes each incoming trap:
  - the first matching ignore-group swallows it;
  - otherwise the first matching accept-group handles it.
- **SecondaryTrapClassifier** defers to a primary trapper while that trapper's health probe answers 200, and classifies traps itself otherwise.

An accept-group consolidates its traps in one of two modes:

- **Schedule mode** (the group has slots):
  - traps are counted;
  - a digest of the most recent trap goes out once the limit is reached, but no sooner than `minutes` after the previous send;
  - a periodic sweep flushes pending digests when the group comes *on schedule*. That is, the slot in effect now differs from the last processed one.
- **Rolling-window mode** (no slots):
  - each trap is forwarded at once, unless more than `limit` traps fell within the last `minutes` minutes, or the group is already consolidating;
  - while consolidating, the sweep sends one consolidated notification per closed window of `minutes` minutes;
  - consolidation stops when a window holds fewer than `limit` traps.

## How the model is organised

- `wrappers.dfy`: `Option` and map helpers.
- `java_int.dfy`:
  - 32-bit `int` wrap-around (`AtomicInteger.incrementAndGet`);
  - the narrowing cast;
  - division that truncates toward zero;
  - `Integer.toString`.
- `snmp.dfy`: PDUs as sequences of variable bindings, and sender addresses.
- `schedule.dfy`:
  - parsing of the `schedule` setting into sorted slots;
  - the choice of the slot in effect at a time of day.
- `window.dfy`:
  - counting the arrival times inside a window;
  - the rolling-window decisions on arrival and at the sweep, as pure functions;
  - the schedule-mode minute difference.
- `trap_group.dfy`:
  - the `TrapGroup` class;
  - its state as a `GroupState` value;
  - one step function per state-changing method.
  - Each method ensures `State() == Step(old(State()), …)`.
- `classifier.dfy`:
  - the `TrapClassifier` class, whose `active` and `consolidating` maps are keyed by group name;
  - the per-group `Slice` of the state (group state, arrival history, marker), with its arrival (`Arrive`) and sweep (`Swept`) functions.
  - Its methods are proved against those functions.
- `secondary.dfy`: the probe throttle, and `SecondaryTrapClassifier`, which wraps a `TrapClassifier`.

### Time

- Time is an integer number of milliseconds.
- Each operation reads the clock once, and that reading is its `now` parameter.
- Schedule slots are compared with the time of day `now - today`. Here `today` is the local midnight of the calendar day of `now`.

### Outside effects

- Regular expressions, DNS lookups and date formatting are uninterpreted functions.
- The HTTP probe of the primary is a `ProbeOutcome` parameter.
- Sends to forwarders are appended to the group's `sent` log as `Notification` values.

## Model

| member | source | states |
|---|---|---|
| Group.TrapGroup.constructor | src/main/java/com/resolvity/trapper/TrapGroup.java:49-116 | minutes and limit default to 15 and 3; the criteria and forwarders are as configured; the slots are the parsed schedule, sorted; no trap is saved, the count is 0, nothing was sent and no slot has been processed |
| Group.GetBody | src/main/java/com/resolvity/trapper/TrapGroup.java:168-181 | the body is each non-Null binding's text followed by a newline, in binding order |
| Group.BodyAppend | src/main/java/com/resolvity/trapper/TrapGroup.java:168-181 | the body of two PDUs one after the other is their bodies concatenated |
| Group.TrapGroup.GetVarMap | src/main/java/com/resolvity/trapper/TrapGroup.java:189-228 | the loop builds exactly the declarative variable map |
| Group.TrapGroup.VarMapKeys | src/main/java/com/resolvity/trapper/TrapGroup.java:183-228 | the map holds name, body, remainder and the sender's host name; any other key is present iff a non-Null binding is stored under that OID or its rename, and then holds the value of the last such binding |
| Group.BindingsKeys | src/main/java/com/resolvity/trapper/TrapGroup.java:195-219 | a key is among the binding entries iff some non-Null binding has that OID or is renamed to it |
| Group.BindingsValue | src/main/java/com/resolvity/trapper/TrapGroup.java:195-219 | the value under a binding key is that of the last non-Null binding stored under it, so a later binding overwrites an earlier one |
| Group.TrapGroup.VarMapValue | src/main/java/com/resolvity/trapper/TrapGroup.java:183-228 | a key other than the four fixed ones holds the value of the last non-Null binding stored under it |
| Group.RemainderWithoutRename | src/main/java/com/resolvity/trapper/TrapGroup.java:195-219 | with no renames, the remainder equals the body |
| Group.TrapGroup.Matches | src/main/java/com/resolvity/trapper/TrapGroup.java:235-251 | the trap matches iff the sender, the variable and the find criteria all match |
| Group.TrapGroup.MatchesWithoutCriteria | src/main/java/com/resolvity/trapper/TrapGroup.java:235-251 | a group with no senders, no variable OID and no find pattern matches every trap |
| Group.TrapGroup.MatchesSender | src/main/java/com/resolvity/trapper/TrapGroup.java:306-321 | with no senders configured everything matches; otherwise the sender must match one entry, by prefix wildcard or by resolved address |
| Group.TrapGroup.WildcardMatches | src/main/java/com/resolvity/trapper/TrapGroup.java:373-393 | an entry with `%` matches exactly the addresses that start with the text before the `%` |
| Group.TrapGroup.MatchesFind | src/main/java/com/resolvity/trapper/TrapGroup.java:327-336 | with no find pattern everything matches; otherwise the pattern must occur in the body |
| Group.TrapGroup.MatchesVar | src/main/java/com/resolvity/trapper/TrapGroup.java:342-366 | the loop decides exactly the declarative variable criterion |
| Group.TrapGroup.VarMatchesAt | src/main/java/com/resolvity/trapper/TrapGroup.java:342-366 | only the first binding with the OID is examined; the trap matches iff there is no regex or that binding's text matches it |
| Group.TrapGroup.VarMatchesFirstOnly | src/main/java/com/resolvity/trapper/TrapGroup.java:342-366 | bindings after the first one with the OID never change the outcome |
| Group.TrapGroup.VarMatchesNeedsOid | src/main/java/com/resolvity/trapper/TrapGroup.java:342-366 | a trap without the configured OID never matches |
| Group.TrapGroup.Forward | src/main/java/com/resolvity/trapper/TrapGroup.java:258-276 | the new state is the forwarding step of the old one |
| Group.TrapGroup.ForwardSendsToAll | src/main/java/com/resolvity/trapper/TrapGroup.java:258-276 | each forwarder gets the trap's variable map once, in order; the send time becomes now iff there is a forwarder (and is otherwise kept); the count, saved trap and slot are kept |
| Group.Sends | src/main/java/com/resolvity/trapper/TrapGroup.java:258-270 | one send per forwarder, in forwarder order, each with the same variables |
| Group.TrapGroup.SendConsolidated | src/main/java/com/resolvity/trapper/TrapGroup.java:282-300 | the new state is the consolidation step: one consolidated notification per forwarder, and the send time moves to now iff there is a forwarder |
| Group.Consolidations | src/main/java/com/resolvity/trapper/TrapGroup.java:282-300 | one consolidated notification per forwarder, in order, carrying the group, start and count |
| Group.TrapGroup.SavePdu | src/main/java/com/resolvity/trapper/TrapGroup.java:565-570 | the trap becomes the most recent one and the counter goes up with Java int wrap-around |
| Group.TrapGroup.SavesReachLimit | src/main/java/com/resolvity/trapper/TrapGroup.java:602-605 | n saves raise the count by n, remember the last trap and send nothing; limitReached then holds iff the raised count is at least `limit` |
| Group.TrapGroup.DigestRestartsCount | src/main/java/com/resolvity/trapper/TrapGroup.java:572-605 | after a digest, limitReached holds again iff at least `limit` traps have been saved since |
| Group.TrapGroup.SendDigest | src/main/java/com/resolvity/trapper/TrapGroup.java:572-600 | the new state is the digest step of the old one |
| Group.TrapGroup.DigestSendsSavedTrap | src/main/java/com/resolvity/trapper/TrapGroup.java:572-600 | without a saved trap or a start nothing changes; otherwise every forwarder gets the saved trap's variables plus `count` and `start_date`, and the saved trap, count and send time are reset |
| Group.TrapGroup.SaveThenDigest | src/main/java/com/resolvity/trapper/TrapGroup.java:565-600 | a digest right after saving a trap reports that trap and the incremented count, then clears the count |
| Group.TrapGroup.StepsPreserveValid | src/main/java/com/resolvity/trapper/TrapGroup.java:565-709 | every step keeps the saved trap's PDU and sender both present or both absent, and keeps the counter inside the Java int range |
| Group.TrapGroup.MarkScheduleProcessed | src/main/java/com/resolvity/trapper/TrapGroup.java:536-547 | the slot in effect at the time of day becomes the last processed one |
| Group.TrapGroup.MarkedNotOnSchedule | src/main/java/com/resolvity/trapper/TrapGroup.java:536-563 | right after marking, the group is not on schedule at that same time |
| Group.TrapGroup.OnSchedule | src/main/java/com/resolvity/trapper/TrapGroup.java:554-563 | on schedule iff no slot was ever processed or the slot in effect differs from the last processed one |
| Group.TrapGroup.HasScheduleFindsSlot | src/main/java/com/resolvity/trapper/TrapGroup.java:449-452 | hasSchedule holds iff findIndexOfClosestSchedule finds a slot, at any time of day |
| Group.TrapGroup.OnScheduleAgain | src/main/java/com/resolvity/trapper/TrapGroup.java:477-563 | once marked at t, the group is on schedule at t2 iff t2 lies outside the window of the slot in effect at t |
| Group.TrapGroup.SingleSlotNeverAgain | src/main/java/com/resolvity/trapper/TrapGroup.java:536-563 | with one slot, a marked group stays off schedule for the whole day |
| Group.TrapGroup.TwoSlotDay | src/main/java/com/resolvity/trapper/TrapGroup.java:477-563 | slots 08:00 and 16:00, last processed 16:00: at 07:00 the group is off schedule; at 08:01 it is on; once marked there it is off at 15:59 and on again at 16:00 |
| Group.TrapGroup.OnScheduleExpectations | src/test/java/com/resolvity/trapper/TestTrapGroup.java:163-264 | slots 06:00, 12:00 and 18:00: for each last-processed slot, exactly when the group is on schedule (18:00 runs on to 06:00) |
| Schedule.ParseSlot | src/main/java/com/resolvity/trapper/TrapGroup.java:621-632 | a parsed slot has two-digit hours and minutes, and the item was exactly that `HH:MM` with surrounding white space |
| Schedule.ParseSlotFormat | src/main/java/com/resolvity/trapper/TrapGroup.java:621-632 | any `HH:MM`, padded with white space, parses back to its slot |
| Schedule.PiecesJoin | src/main/java/com/resolvity/trapper/TrapGroup.java:624-626 | splitting at commas and joining the pieces with commas gives back the setting |
| Schedule.Sort | src/main/java/com/resolvity/trapper/TrapGroup.java:649-649 | the result is in order, is a permutation of the input, and is strictly ascending when the input has no duplicates |
| Schedule.PopulateSchedules | src/main/java/com/resolvity/trapper/TrapGroup.java:614-650 | an absent or blank setting gives no slots; otherwise a slot is kept iff some item parses to it, and the result is strictly ascending with two-digit fields |
| Schedule.FirstHit | src/main/java/com/resolvity/trapper/TrapGroup.java:491-527 | the first slot at or after i whose window contains the time, or -1 if there is none |
| Schedule.FindIndexOfClosestSchedule | src/main/java/com/resolvity/trapper/TrapGroup.java:477-530 | the loop with its early return computes the slot in effect |
| Schedule.ClosestScheduleRange | src/main/java/com/resolvity/trapper/TrapGroup.java:477-530 | the result is -1 iff there are no slots, is otherwise a valid index, and is 0 for a single slot |
| Schedule.ClosestScheduleOwner | src/main/java/com/resolvity/trapper/TrapGroup.java:477-530 | for ascending slots, the index returned is the one slot whose window contains the time (the last window wraps past midnight) |
| Schedule.FirstHitFound | src/main/java/com/resolvity/trapper/TrapGroup.java:491-527 | once the time is at or after slot i's start, some slot from i on contains it |
| Schedule.TestScheduleExpectations | src/test/java/com/resolvity/trapper/TestTrapGroup.java:18-161 | the expected slot indices for one, two and three slots at every time of day |
| Classifier.FirstMatch | src/main/java/com/resolvity/trapper/TrapClassifier.java:61-77 | the first group from k on that matches the trap, or -1 when none does |
| Classifier.TrapClassifier.constructor | src/main/java/com/resolvity/trapper/TrapClassifier.java:43-53 | keeps the two group lists; nothing is active or consolidating |
| Classifier.TrapClassifier.ProcessPdu | src/main/java/com/resolvity/trapper/TrapClassifier.java:56-142 | processed iff some group matches; only the first matching accept-group (when no ignore-group matches) changes, as its arrival rule says; all other groups keep their slices |
| Classifier.TrapClassifier.AcceptScheduled | src/main/java/com/resolvity/trapper/TrapClassifier.java:83-129 | the group's slice becomes the schedule-mode arrival step of the old slice; other groups are unchanged |
| Classifier.ScheduledRateLimit | src/main/java/com/resolvity/trapper/TrapClassifier.java:93-127 | within `minutes` of the last send, an arrival is saved and counted, leaves a marker and sends nothing |
| Classifier.ScheduledFirstDigest | src/main/java/com/resolvity/trapper/TrapClassifier.java:83-127 | when nothing was ever sent, the arrival that reaches the limit sends a digest. The digest starts at the marker (or now), carries this trap and the new count, and resets the group and the marker |
| Classifier.ScheduledDigestDecision | src/main/java/com/resolvity/trapper/TrapClassifier.java:83-127 | a digest is sent, and the marker dropped, iff the saved count reaches the limit and either nothing was sent before or at least `minutes` whole minutes have passed since the last send; a digest resets the count and the saved trap, sets the send time to now and adds one send per forwarder, and otherwise the trap is only saved and counted |
| Classifier.ScheduledDigestAfterWait | src/main/java/com/resolvity/trapper/TrapClassifier.java:97-122 | after the wait, the arrival that reaches the limit sends a digest starting at the last send, with this trap and the new count, and resets the group and the marker |
| Classifier.ScheduledBelowLimit | src/main/java/com/resolvity/trapper/TrapClassifier.java:86-110 | below the limit, the arrival is saved and counted, nothing is sent, and the marker is set to now only if none was pending |
| Classifier.TrapClassifier.AcceptRolling | src/main/java/com/resolvity/trapper/TrapClassifier.java:130-136 | the group's slice becomes the rolling arrival step of the old slice; other groups are unchanged |
| Classifier.RollingArrivalForwards | src/main/java/com/resolvity/trapper/TrapClassifier.java:130-136 | the arrival joins the history. It is forwarded unless the limit is non-zero and either the group is consolidating or the window ending now holds more than `limit` arrivals. Only a new consolidation sets the marker, to now |
| Classifier.TrapClassifier.Consolidating | src/main/java/com/resolvity/trapper/TrapClassifier.java:242-275 | records the arrival and answers the rolling-window decision for the old history and marker |
| Window.RollingArrivalDecision | src/main/java/com/resolvity/trapper/TrapClassifier.java:242-275 | for a history in time order: it stays in order with now appended, and the trap is absorbed iff limit ≠ 0 and (already consolidating or the window holds more than limit) |
| Window.LimitZeroNeverConsolidates | src/main/java/com/resolvity/trapper/TrapClassifier.java:244-252 | with limit 0 every arrival is forwarded and the marker never changes |
| Classifier.TrapClassifier.ConsolidateWindow | src/main/java/com/resolvity/trapper/TrapClassifier.java:282-300 | true iff the window of `minutes` ending at windowEnd holds more than `limit` arrivals |
| Classifier.TrapClassifier.MarkActive | src/main/java/com/resolvity/trapper/TrapClassifier.java:354-364 | appends now to the group's history (creating it if absent), returns now, and changes nothing else |
| Window.GetWindowSize | src/main/java/com/resolvity/trapper/TrapClassifier.java:334-349 | the loop, which stops at the first date after the end, counts exactly the dates of the scanned prefix that fall in the window |
| Window.WindowSizeSorted | src/main/java/com/resolvity/trapper/TrapClassifier.java:334-349 | on a list in time order, the early stop loses nothing: the size is the count of all dates in the window |
| Window.RemovableIsScanLength | src/main/java/com/resolvity/trapper/TrapClassifier.java:210-217 | with no start, the window size is the length of the prefix up to the end date, which is what the sweep removes |
| Window.CountAppend | src/main/java/com/resolvity/trapper/TrapClassifier.java:334-349 | counting is additive over concatenation |
| Classifier.TrapClassifier.SendConsolidatedFor | src/main/java/com/resolvity/trapper/TrapClassifier.java:183-231 | the group's slice becomes the rolling sweep step of the old slice; other groups are unchanged |
| Window.RollingSweepWaits | src/main/java/com/resolvity/trapper/TrapClassifier.java:183-189 | before the window started at the marker has closed, the sweep changes nothing |
| Window.RollingSweepActs | src/main/java/com/resolvity/trapper/TrapClassifier.java:183-231 | for a closed window: a notification is sent iff it holds traps, carrying their count; consolidation stops iff the count is below the limit, else the marker moves to the window's end |
| Window.RollingSweepTrims | src/main/java/com/resolvity/trapper/TrapClassifier.java:203-218 | after a send, the history keeps exactly the dates after the window's end; otherwise it is kept whole |
| Window.WindowAdvances | src/main/java/com/resolvity/trapper/TrapClassifier.java:307-326 | for positive minutes the window's end is after its start, and the window before that end starts at the start |
| Classifier.RollingSweepIdle | src/main/java/com/resolvity/trapper/TrapClassifier.java:168-189 | a rolling group that is not consolidating, or whose window is still open, is left alone |
| Classifier.RollingSweepFlushes | src/main/java/com/resolvity/trapper/TrapClassifier.java:183-231 | the rolling sweep of a closed window at the group level: it sends the count iff non-zero, keeps only later traps, and stops or moves the marker strictly forward |
| Window.BurstScenario | src/main/java/com/resolvity/trapper/TrapClassifier.java:183-275 | arrivals at minutes 0, 5, 10 and 12 with limit 3 and 15 minutes: the fourth starts consolidation. The window is still open at minute 27; at minute 28 one trap is consolidated and consolidation stops |
| Classifier.TrapClassifier.SweepGroup | src/main/java/com/resolvity/trapper/TrapClassifier.java:147-176 | one group's slice becomes its sweep step; other groups are unchanged |
| Classifier.TrapClassifier.SendAllConsolidated | src/main/java/com/resolvity/trapper/TrapClassifier.java:147-176 | every accept-group's slice becomes its sweep step of the old slice |
| Classifier.ScheduledSweepFlushes | src/main/java/com/resolvity/trapper/TrapClassifier.java:151-166 | on schedule, a pending digest is sent from the marker, the marker is dropped and the slot in effect is recorded; off schedule nothing changes |
| Classifier.ScheduledSweepIdempotent | src/main/java/com/resolvity/trapper/TrapClassifier.java:151-166 | the sweep keeps the slice valid, and a second sweep at the same time of day changes nothing |
| Window.DiffMinutesWhole | src/main/java/com/resolvity/trapper/TrapClassifier.java:97-114 | for a difference that fits a Java int of minutes, the truncated minute count is at least m iff at least m whole minutes have passed |
| Secondary.SecondaryTrapClassifier.constructor | src/main/java/com/resolvity/trapper/SecondaryTrapClassifier.java:21-37 | the probe interval is 0, the cached verdict is false and there has been no check |
| Secondary.SecondaryTrapClassifier.UsePrimary | src/main/java/com/resolvity/trapper/SecondaryTrapClassifier.java:60-72 | the cached verdict is refreshed from the probe when there was no check, or the last one is older than the interval; the result is the verdict |
| Secondary.ThrottleCaches | src/main/java/com/resolvity/trapper/SecondaryTrapClassifier.java:60-93 | a due probe sets the verdict to "answered 200" at now; a later call within the interval keeps it whatever the primary answers |
| Secondary.ThrottleWithoutDelay | src/main/java/com/resolvity/trapper/SecondaryTrapClassifier.java:60-72 | with interval 0 a probe is due iff there was none or the last one was strictly earlier |
| Secondary.FailoverScenario | src/main/java/com/resolvity/trapper/SecondaryTrapClassifier.java:74-93 | a 503 or an I/O failure leaves traps to this classifier; a 200 hands them to the primary |
| Secondary.SecondaryTrapClassifier.ProcessPdu | src/main/java/com/resolvity/trapper/SecondaryTrapClassifier.java:41-55 | while the primary is alive, the trap is processed and the inner classifier is unchanged; otherwise the inner classifier handles it |
| JavaInt.IncrementAndGet | src/main/java/com/resolvity/trapper/TrapGroup.java:565-570 | adds one, wrapping from the largest Java int to the smallest |
| JavaInt.DivTrunc | src/main/java/com/resolvity/trapper/TrapClassifier.java:106-106 | the remainder `a - q*b` has the sign of the dividend and is smaller than the divisor, i.e. the quotient truncates toward zero as Java's long division does |
| JavaInt.DivTruncOdd | src/main/java/com/resolvity/trapper/TrapClassifier.java:106-106 | truncating division is symmetric around zero and agrees with floor division on non-negative dividends |

## Left out

- The `Consolidator` thread and Java `synchronized`: operations are modelled as atomic steps, one after another. Interleaving is not modelled.
- `TrapGroup.setSchedules` and `setIndexOfLastProcessedSchedule` (TrapGroup.java:457-470): setters that exist only for the unit tests. The model's lemmas take the state as a parameter instead.
- `loadForwarders` and reading the properties file: a group is constructed from its settings already read. `TrapForwarder` delivery is not modelled; each send is recorded in the group's `sent` log.
- Logging, `toString`, `getLimit`/`getMinutes`/`getName` and the other getters. `hashCode`/`equals` are captured only in that the classifier's maps are keyed by group name.
- Regular expressions (`Pattern`), DNS lookups (`InetAddress.getByName`) and `SimpleDateFormat` are uninterpreted functions. Their internals are not modelled.
- The HTTP request to the primary is an input (`ProbeOutcome`). Timeouts and connection handling are not modelled.
- `java.util.Calendar` is reduced to a time of day in milliseconds:
  - the lenient roll-over of an hour ≥ 24 or a minute ≥ 60 in a schedule entry is not modelled (such entries are outside the lemmas that need `WithinDay`);
  - days that are not 24 hours long (daylight saving changes) are not modelled.
- Each operation reads the clock once, as its `now`. The source reads it again in places, which can differ by a few milliseconds.
- The `NullPointerException` path of a sweep of a rolling-window group with a marker but no history is excluded by the model's validity predicate (`SliceValid`).
- Accept-groups with the same name are excluded (the `TrapClassifier` constructor's precondition and `Valid`). Listing a name twice in the accept list gives two equal groups (`TrapGroup.equals` compares names) that share one `active` and one `consolidating` entry. Routing always stops at the first copy, yet `sendAllConsolidated` sweeps the shared entry again for the second copy, which never receives traps. That repeated sweep is not modelled.
- `TrapCatcher`, `TrapperAlive`, `TrapLogger`, `ClassifierFactory`, `TrapForwarder` and `TestSendTraps` are not part of this model.
- Window.RollingArrivalDecision: stated for histories kept in time order (`Sorted`), which holds while the wall clock does not go backwards, since `markActive` appends the current time. With an unordered history the early stop of `getWindowSize` can count fewer dates, and that case is not described.
- Window.RollingSweepActs: stated for time-ordered histories, under the same clock assumption as Window.RollingArrivalDecision.
- Window.RollingSweepTrims: stated for time-ordered histories, under the same clock assumption as Window.RollingArrivalDecision.
- Classifier.RollingSweepFlushes: stated for time-ordered histories, under the same clock assumption as Window.RollingArrivalDecision.
- Classifier.ScheduledRateLimit: stated for non-negative `minutes` that fit a Java int and for a clock that has not gone backwards since the last send.
- Classifier.ScheduledDigestDecision: stated for a last send no later than now and less than 2^31 minutes ago, where the cast of the minute difference to `int` is exact. Beyond that the cast wraps, and that case is not described.
- Classifier.ScheduledDigestAfterWait: stated under the same bound on the time since the last send as Classifier.ScheduledDigestDecision.
