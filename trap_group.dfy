/**
 * A trap group: the criteria that decide whether a trap belongs to it, how a
 * trap becomes a map of named variables, and the per-group state the
 * scheduled digest mode keeps (the most recent trap, the trap counter, the
 * time of the last send and the last schedule slot processed).
 *
 * What forwarders deliver is recorded, in order, in the group's outbox
 * `sent`; the delivery itself happens outside the engine.
 */
module Group {
  import opened Wrappers
  import opened JavaInt
  import opened Snmp
  import opened Schedule

  const DEFAULT_MINUTES: int := 15
  const DEFAULT_LIMIT: int := 3

  /** The most recent trap of a scheduled group; both parts are absent after a digest. */
  datatype DataHolder = DataHolder(pdu: Option<Pdu>, sender: Option<Address>) {
    predicate IsEmpty() {
      pdu.None? && sender.None?
    }

    /** The two parts are always set and cleared together. */
    predicate Consistent() {
      pdu.Some? <==> sender.Some?
    }
  }

  const EMPTY_HOLDER: DataHolder := DataHolder(None, None)

  /** What one forwarder is asked to deliver. */
  datatype Notification =
    | Send(forwarder: string, vars: map<string, string>)
    | SendConsolidated(forwarder: string, group: string, start: int, count: int)

  /** The fields of a group that change after construction. */
  datatype GroupState = GroupState(
    indexOfLastProcessedSchedule: int,
    mostRecentTrap: DataHolder,
    numberOfTraps: int,
    lastSentTime: Option<int>,
    sent: seq<Notification>)

  // ---------------------------------------------------------------------------
  // Rendering a trap (getBody, getVarMap)
  // ---------------------------------------------------------------------------

  /** A binding's line of the body: its value and a newline, nothing for a Null value. */
  function Line(b: VariableBinding): string {
    if b.variable.Null? then "" else b.variable.text + "\n"
  }

  /** getBody: the values of the non-Null bindings, one per line, in order. */
  function Body(pdu: Pdu): string
    decreases |pdu|
  {
    if pdu == [] then "" else Body(pdu[..|pdu| - 1]) + Line(pdu[|pdu| - 1])
  }

  /** The lines of the non-Null bindings that `rename` does not rename. */
  function Remainder(rename: map<Oid, string>, pdu: Pdu): string
    decreases |pdu|
  {
    if pdu == [] then ""
    else
      var b := pdu[|pdu| - 1];
      Remainder(rename, pdu[..|pdu| - 1]) + (if b.oid in rename then "" else Line(b))
  }

  /**
   * The entries getVarMap puts for the bindings: every non-Null value under
   * its OID and, if the OID is renamed, under the new name too; a later
   * binding overwrites an earlier one with the same key.
   */
  function Bindings(rename: map<Oid, string>, pdu: Pdu): map<string, string>
    decreases |pdu|
  {
    if pdu == [] then map[]
    else
      var m := Bindings(rename, pdu[..|pdu| - 1]);
      var b := pdu[|pdu| - 1];
      if b.variable.Null? then m
      else if b.oid in rename then m[b.oid := b.variable.text][rename[b.oid] := b.variable.text]
      else m[b.oid := b.variable.text]
  }

  /** Binding `i` of `pdu` is non-Null and stored under `k`: its OID, or the OID's new name. */
  predicate StoredAt(rename: map<Oid, string>, pdu: Pdu, i: int, k: string) {
    0 <= i < |pdu| && !pdu[i].variable.Null? &&
      (pdu[i].oid == k || (pdu[i].oid in rename && rename[pdu[i].oid] == k))
  }

  /** The index of the last non-Null binding stored under `k`, or -1 if there is none. */
  function LastStored(rename: map<Oid, string>, pdu: Pdu, k: string): (r: int)
    ensures -1 <= r < |pdu|
    ensures r >= 0 ==> StoredAt(rename, pdu, r, k)
    ensures forall j :: r < j < |pdu| ==> !StoredAt(rename, pdu, j, k)
    decreases |pdu|
  {
    if pdu == [] then -1
    else if StoredAt(rename, pdu, |pdu| - 1, k) then |pdu| - 1
    else
      StoredAtInit(rename, pdu, k);
      LastStored(rename, pdu[..|pdu| - 1], k)
  }

  /** Dropping the last binding keeps where the others are stored. */
  lemma StoredAtInit(rename: map<Oid, string>, pdu: Pdu, k: string)
    requires pdu != []
    ensures forall j :: 0 <= j < |pdu| - 1 ==> (StoredAt(rename, pdu[..|pdu| - 1], j, k) <==> StoredAt(rename, pdu, j, k))
  {
    forall j | 0 <= j < |pdu| - 1
      ensures StoredAt(rename, pdu[..|pdu| - 1], j, k) <==> StoredAt(rename, pdu, j, k)
    {
      assert pdu[..|pdu| - 1][j] == pdu[j];
    }
  }

  /** A key some non-Null binding of `pdu` is stored under. */
  predicate KeyOf(rename: map<Oid, string>, pdu: Pdu, k: string) {
    exists i :: 0 <= i < |pdu| && StoredAt(rename, pdu, i, k)
  }

  /** getBody loops over the bindings. */
  method GetBody(pdu: Pdu) returns (body: string)
    ensures body == Body(pdu)
  {
    body := "";
    var i := 0;
    while i < |pdu|
      invariant 0 <= i <= |pdu|
      invariant body == Body(pdu[..i])
    {
      var bind := pdu[i];
      if !bind.variable.Null? {
        body := body + bind.variable.text + "\n";
      }
      assert pdu[..i + 1][..i] == pdu[..i];
      i := i + 1;
    }
    assert pdu[..i] == pdu;
  }

  /** Appending one binding appends its line to the body. */
  lemma BodySnoc(p: Pdu, x: VariableBinding)
    ensures Body(p + [x]) == Body(p) + Line(x)
  {
    assert (p + [x])[..|p|] == p;
  }

  /** A non-empty `b` is its init and its last binding, also after a prefix `a`. */
  lemma SplitLast(a: Pdu, b: Pdu)
    requires b != []
    ensures b == b[..|b| - 1] + [b[|b| - 1]]
    ensures a + b == (a + b[..|b| - 1]) + [b[|b| - 1]]
  {
  }

  /** The body of two PDUs one after the other is the two bodies one after the other. */
  lemma {:induction false} BodyAppend(a: Pdu, b: Pdu)
    ensures Body(a + b) == Body(a) + Body(b)
    decreases |b|
  {
    if b == [] {
      assert a + b == a;
    } else {
      var init, x := b[..|b| - 1], b[|b| - 1];
      SplitLast(a, b);
      BodyAppend(a, init);
      BodySnoc(a + init, x);
      BodySnoc(init, x);
      StringAssoc(Body(a), Body(init), Line(x));
    }
  }

  lemma StringAssoc(p: string, q: string, r: string)
    ensures (p + q) + r == p + (q + r)
  {
  }

  /** Without renaming, the remainder is the whole body. */
  lemma {:induction false} RemainderWithoutRename(pdu: Pdu)
    ensures Remainder(map[], pdu) == Body(pdu)
    decreases |pdu|
  {
    if pdu != [] {
      RemainderWithoutRename(pdu[..|pdu| - 1]);
    }
  }

  /**
   * The keys of the binding entries are exactly the OIDs of the non-Null
   * bindings and the new names of the renamed ones.
   */
  lemma {:induction false} BindingsKeys(rename: map<Oid, string>, pdu: Pdu, k: string)
    ensures k in Bindings(rename, pdu) <==> KeyOf(rename, pdu, k)
    decreases |pdu|
  {
    if pdu != [] {
      var init := pdu[..|pdu| - 1];
      BindingsKeys(rename, init, k);
      if KeyOf(rename, init, k) {
        var i :| 0 <= i < |init| && StoredAt(rename, init, i, k);
        assert pdu[i] == init[i];
        assert StoredAt(rename, pdu, i, k);
      }
      if StoredAt(rename, pdu, |pdu| - 1, k) {
        assert KeyOf(rename, pdu, k);
      }
      if KeyOf(rename, pdu, k) {
        var i :| 0 <= i < |pdu| && StoredAt(rename, pdu, i, k);
        if i < |pdu| - 1 {
          assert init[i] == pdu[i];
          assert StoredAt(rename, init, i, k);
        }
      }
    }
  }

  /**
   * The value under a binding key is that of the last non-Null binding
   * stored under it: a later binding overwrites an earlier one.
   */
  lemma {:induction false} BindingsValue(rename: map<Oid, string>, pdu: Pdu, k: string, i: int)
    requires StoredAt(rename, pdu, i, k)
    requires forall j :: i < j < |pdu| ==> !StoredAt(rename, pdu, j, k)
    ensures k in Bindings(rename, pdu) && Bindings(rename, pdu)[k] == pdu[i].variable.text
    decreases |pdu|
  {
    var init := pdu[..|pdu| - 1];
    if i < |pdu| - 1 {
      assert !StoredAt(rename, pdu, |pdu| - 1, k);
      assert init[i] == pdu[i];
      forall j | i < j < |init|
        ensures !StoredAt(rename, init, j, k)
      {
        assert init[j] == pdu[j];
        assert !StoredAt(rename, pdu, j, k);
      }
      BindingsValue(rename, init, k, i);
    }
  }

  /** The messages to every forwarder, in order, asking it to send `vars`. */
  function Sends(forwarders: seq<string>, vars: map<string, string>): (r: seq<Notification>)
    ensures |r| == |forwarders|
    ensures forall i :: 0 <= i < |r| ==> r[i] == Send(forwarders[i], vars)
    decreases |forwarders|
  {
    if forwarders == [] then []
    else Sends(forwarders[..|forwarders| - 1], vars) + [Send(forwarders[|forwarders| - 1], vars)]
  }

  /** The messages to every forwarder, in order, asking it to send a consolidation. */
  function Consolidations(forwarders: seq<string>, group: string, start: int, count: int): (r: seq<Notification>)
    ensures |r| == |forwarders|
    ensures forall i :: 0 <= i < |r| ==> r[i] == SendConsolidated(forwarders[i], group, start, count)
    decreases |forwarders|
  {
    if forwarders == [] then []
    else
      var last := SendConsolidated(forwarders[|forwarders| - 1], group, start, count);
      Consolidations(forwarders[..|forwarders| - 1], group, start, count) + [last]
  }

  /** A group as configured, with its mutable state. */
  class TrapGroup {
    const name: string
    const minutes: int
    const limit: int
    const varOid: Option<Oid>
    /** `var.regex`: does the pattern match a whole value? */
    const varMatch: Option<string -> bool>
    /** `find`: does the pattern occur somewhere in a body? */
    const bodyFind: Option<string -> bool>
    const senders: seq<string>
    const rename: map<Oid, string>
    /** The names of the group's forwarders, in configuration order. */
    const forwarders: seq<string>
    const schedules: seq<Slot>
    /** `SimpleDateFormat("MM-dd HH:mm").format`. */
    const dateFormat: int -> string

    var indexOfLastProcessedSchedule: int
    var mostRecentTrap: DataHolder
    var numberOfTraps: int
    var lastSentTime: Option<int>
    var sent: seq<Notification>

    function State(): GroupState
      reads this
    {
      GroupState(indexOfLastProcessedSchedule, mostRecentTrap, numberOfTraps, lastSentTime, sent)
    }

    /** The schedule is sorted `HH:MM` slots without repeats. */
    predicate ConfigValid() {
      Ascending(schedules) && forall s :: s in schedules ==> TwoDigits(s)
    }

    /**
     * The counter is a Java int, the processed slot is -1 or a slot of the
     * schedule, and the most recent trap is set or cleared as a whole.
     */
    predicate StateValid(s: GroupState) {
      && IsInt(s.numberOfTraps)
      && -1 <= s.indexOfLastProcessedSchedule < |schedules|
      && s.mostRecentTrap.Consistent()
    }

    predicate Valid()
      reads this
    {
      ConfigValid() && StateValid(State())
    }

    /**
     * Reads the group's settings (`minutes` and `limit` default to 15 and 3)
     * and builds its schedule from the `schedule` setting.
     */
    constructor(name: string, minutesSetting: Option<int>, limitSetting: Option<int>,
                senders: seq<string>, forwarders: seq<string>,
                varOid: Option<Oid>, varMatch: Option<string -> bool>, bodyFind: Option<string -> bool>,
                scheduleSetting: Option<string>, rename: map<Oid, string>, dateFormat: int -> string)
      ensures Valid()
      ensures this.name == name && this.senders == senders && this.forwarders == forwarders
      ensures this.minutes == minutesSetting.GetOr(DEFAULT_MINUTES)
      ensures this.limit == limitSetting.GetOr(DEFAULT_LIMIT)
      ensures this.varOid == varOid && this.varMatch == varMatch && this.bodyFind == bodyFind
      ensures this.rename == rename && this.dateFormat == dateFormat
      ensures scheduleSetting.None? || IsBlank(scheduleSetting.value) ==> schedules == []
      ensures scheduleSetting.Some? && !IsBlank(scheduleSetting.value) ==>
        forall s :: s in schedules <==> Listed(Split(scheduleSetting.value), s)
      ensures State() == GroupState(-1, EMPTY_HOLDER, 0, None, [])
    {
      this.name := name;
      this.minutes := minutesSetting.GetOr(DEFAULT_MINUTES);
      this.limit := limitSetting.GetOr(DEFAULT_LIMIT);
      this.senders := senders;
      this.forwarders := forwarders;
      this.varOid := varOid;
      this.varMatch := varMatch;
      this.bodyFind := bodyFind;
      this.rename := rename;
      this.dateFormat := dateFormat;
      var slots := PopulateSchedules(scheduleSetting);
      this.schedules := slots;
      indexOfLastProcessedSchedule := -1;
      mostRecentTrap := EMPTY_HOLDER;
      numberOfTraps := 0;
      lastSentTime := None;
      sent := [];
    }

    predicate HasSchedule() {
      |schedules| > 0
    }

    // -------------------------------------------------------------------------
    // Matching
    // -------------------------------------------------------------------------

    /**
     * matchesAdr: a sender entry containing '%' matches every address whose
     * text starts with the part before the first '%'; any other entry is
     * resolved and must be the same address.
     */
    predicate AdrMatches(inet: Address, host: string, dns: string -> Option<Address>) {
      if '%' in host then host[..IndexOf(host, '%')] <= inet.hostAddress
      else dns(host).Some? && SameHost(inet, dns(host).value)
    }

    /** No senders configured, or one of them matches. */
    predicate SenderMatches(sender: Address, dns: string -> Option<Address>) {
      |senders| == 0 || exists i :: 0 <= i < |senders| && AdrMatches(sender, senders[i], dns)
    }

    /**
     * No variable criterion, or the first binding carrying `varOid` exists
     * and its value matches `var.regex` entirely (when one is set).
     */
    predicate VarMatches(pdu: Pdu) {
      varOid.None? ||
      exists i :: 0 <= i < |pdu| && pdu[i].oid == varOid.value
        && (forall j :: 0 <= j < i ==> pdu[j].oid != varOid.value)
        && (varMatch.None? || varMatch.value(pdu[i].variable.text))
    }

    /** No `find` pattern, or it occurs in the body. */
    predicate FindMatches(pdu: Pdu) {
      bodyFind.None? || bodyFind.value(Body(pdu))
    }

    /** All three criteria hold. */
    predicate MatchesTrap(pdu: Pdu, sender: Address, dns: string -> Option<Address>) {
      SenderMatches(sender, dns) && VarMatches(pdu) && FindMatches(pdu)
    }

    /** matchesSender: stops at the first sender entry that matches. */
    method MatchesSender(sender: Address, dns: string -> Option<Address>) returns (r: bool)
      ensures r == SenderMatches(sender, dns)
    {
      if |senders| == 0 {
        return true;
      }
      var i := 0;
      while i < |senders|
        invariant 0 <= i <= |senders|
        invariant forall j :: 0 <= j < i ==> !AdrMatches(sender, senders[j], dns)
      {
        if AdrMatches(sender, senders[i], dns) {
          return true;
        }
        i := i + 1;
      }
      return false;
    }

    /** matchesVar: decides on the first binding carrying `varOid`. */
    method MatchesVar(pdu: Pdu) returns (r: bool)
      ensures r == VarMatches(pdu)
    {
      if varOid.None? {
        return true;
      }
      var i := 0;
      while i < |pdu|
        invariant 0 <= i <= |pdu|
        invariant forall j :: 0 <= j < i ==> pdu[j].oid != varOid.value
      {
        var bind := pdu[i];
        if bind.oid == varOid.value {
          if varMatch.Some? {
            return varMatch.value(bind.variable.text);
          }
          return true;
        }
        i := i + 1;
      }
      return false;
    }

    /** matchesFind. */
    method MatchesFind(pdu: Pdu) returns (r: bool)
      ensures r == FindMatches(pdu)
    {
      if bodyFind.None? {
        return true;
      }
      var body := GetBody(pdu);
      return bodyFind.value(body);
    }

    /** matches: sender, then variable, then body. */
    method Matches(pdu: Pdu, sender: Address, dns: string -> Option<Address>) returns (r: bool)
      ensures r == MatchesTrap(pdu, sender, dns)
    {
      r := MatchesSender(sender, dns);
      if !r {
        return false;
      }
      r := MatchesVar(pdu);
      if !r {
        return false;
      }
      r := MatchesFind(pdu);
    }

    /** A group without criteria matches every trap. */
    lemma MatchesWithoutCriteria(pdu: Pdu, sender: Address, dns: string -> Option<Address>)
      requires |senders| == 0 && varOid.None? && bodyFind.None?
      ensures MatchesTrap(pdu, sender, dns)
    {
    }

    /** A wildcard entry matches exactly the addresses starting with the text before its first '%'. */
    lemma WildcardMatches(inet: Address, prefix: string, rest: string, dns: string -> Option<Address>)
      requires '%' !in prefix
      ensures AdrMatches(inet, prefix + "%" + rest, dns) <==> prefix <= inet.hostAddress
    {
      var host := prefix + "%" + rest;
      assert host[|prefix|] == '%';
      assert host[..|prefix|] == prefix;
      var i := IndexOf(host, '%');
      assert forall j :: 0 <= j < i ==> host[j] != '%' by {
        forall j | 0 <= j < i
          ensures host[j] != '%'
        {
          assert host[..i][j] == host[j];
        }
      }
      assert forall j :: 0 <= j < |prefix| ==> host[j] == prefix[j];
      assert i == |prefix|;
    }

    /** The variable criterion decided by the binding at `f`, the first one carrying `varOid`. */
    lemma VarMatchesAt(pdu: Pdu, f: nat)
      requires varOid.Some? && f < |pdu| && pdu[f].oid == varOid.value
      requires forall j :: 0 <= j < f ==> pdu[j].oid != varOid.value
      ensures VarMatches(pdu) <==> varMatch.None? || varMatch.value(pdu[f].variable.text)
    {
      if VarMatches(pdu) {
        var k :| 0 <= k < |pdu| && pdu[k].oid == varOid.value
          && (forall j :: 0 <= j < k ==> pdu[j].oid != varOid.value)
          && (varMatch.None? || varMatch.value(pdu[k].variable.text));
        assert !(k < f) && !(f < k);
      }
    }

    /**
     * When the variable criterion is set, only the first binding carrying its
     * OID counts: bindings after it never change the outcome, and a PDU without
     * the OID never matches.
     */
    lemma VarMatchesFirstOnly(pdu: Pdu, later: Pdu, f: nat)
      requires varOid.Some?
      requires f < |pdu| && pdu[f].oid == varOid.value
      requires forall j :: 0 <= j < f ==> pdu[j].oid != varOid.value
      ensures VarMatches(pdu + later) <==> VarMatches(pdu)
    {
      var both := pdu + later;
      assert both[f] == pdu[f];
      assert forall j :: 0 <= j < f ==> both[j] == pdu[j];
      VarMatchesAt(pdu, f);
      VarMatchesAt(both, f);
    }

    /** When the variable criterion is set, a PDU without its OID never matches. */
    lemma VarMatchesNeedsOid(pdu: Pdu)
      requires varOid.Some?
      requires forall i :: 0 <= i < |pdu| ==> pdu[i].oid != varOid.value
      ensures !VarMatches(pdu)
    {
    }

    // -------------------------------------------------------------------------
    // Variable map
    // -------------------------------------------------------------------------

    /**
     * getVarMap: the binding entries, then the group name, the body, the
     * remainder and the sender's host name under fixed keys.
     */
    function VarMap(pdu: Pdu, sender: Address): map<string, string> {
      Bindings(rename, pdu)["name" := name]["body" := Body(pdu)]
        ["remainder" := Remainder(rename, pdu)]["sender" := sender.hostName]
    }

    /** getVarMap builds the three parts in one pass over the bindings. */
    method GetVarMap(pdu: Pdu, sender: Address) returns (m: map<string, string>)
      ensures m == VarMap(pdu, sender)
    {
      var body := "";
      var remainder := "";
      m := map[];
      var i := 0;
      while i < |pdu|
        invariant 0 <= i <= |pdu|
        invariant m == Bindings(rename, pdu[..i])
        invariant body == Body(pdu[..i])
        invariant remainder == Remainder(rename, pdu[..i])
      {
        var bind := pdu[i];
        if !bind.variable.Null? {
          m := m[bind.oid := bind.variable.text];
          if bind.oid in rename {
            m := m[rename[bind.oid] := bind.variable.text];
          } else {
            remainder := remainder + bind.variable.text + "\n";
          }
          body := body + bind.variable.text + "\n";
        }
        assert pdu[..i + 1][..i] == pdu[..i];
        i := i + 1;
      }
      assert pdu[..i] == pdu;
      m := m["name" := name]["body" := body]["remainder" := remainder]["sender" := sender.hostName];
    }

    /**
     * The variable map holds the four fixed keys, and any other key exactly
     * when some non-Null binding is stored under it, with the value of the
     * last such binding.
     */
    lemma VarMapKeys(pdu: Pdu, sender: Address, k: string)
      ensures var m := VarMap(pdu, sender);
        && m["name"] == name && m["body"] == Body(pdu)
        && m["remainder"] == Remainder(rename, pdu) && m["sender"] == sender.hostName
        && (k !in {"name", "body", "remainder", "sender"} ==>
              && (k in m <==> KeyOf(rename, pdu, k))
              && (KeyOf(rename, pdu, k) ==> m[k] == pdu[LastStored(rename, pdu, k)].variable.text))
    {
      BindingsKeys(rename, pdu, k);
      var i := LastStored(rename, pdu, k);
      if k !in {"name", "body", "remainder", "sender"} && KeyOf(rename, pdu, k) {
        var j :| 0 <= j < |pdu| && StoredAt(rename, pdu, j, k);
        assert j <= i;
        VarMapValue(pdu, sender, k, i);
      }
    }

    /** A binding key of the variable map holds the value of the last binding stored under it. */
    lemma VarMapValue(pdu: Pdu, sender: Address, k: string, i: int)
      requires k != "name" && k != "body" && k != "remainder" && k != "sender"
      requires StoredAt(rename, pdu, i, k)
      requires forall j :: i < j < |pdu| ==> !StoredAt(rename, pdu, j, k)
      ensures k in VarMap(pdu, sender) && VarMap(pdu, sender)[k] == pdu[i].variable.text
    {
      BindingsValue(rename, pdu, k, i);
    }

    // -------------------------------------------------------------------------
    // State changes, as functions of the state before
    // -------------------------------------------------------------------------

    /** savePdu: remembers the trap and counts it (the counter wraps like a Java int). */
    function Saved(s: GroupState, pdu: Pdu, sender: Address): GroupState
      requires IsInt(s.numberOfTraps)
    {
      s.(mostRecentTrap := DataHolder(Some(pdu), Some(sender)),
         numberOfTraps := IncrementAndGet(s.numberOfTraps))
    }

    /** The digest's variables: the most recent trap's map plus `count` and `start_date`. */
    function DigestVars(s: GroupState, start: int): map<string, string>
      requires s.mostRecentTrap.Consistent() && !s.mostRecentTrap.IsEmpty()
    {
      VarMap(s.mostRecentTrap.pdu.value, s.mostRecentTrap.sender.value)
        ["count" := IntToString(s.numberOfTraps)]["start_date" := dateFormat(start)]
    }

    /**
     * sendDigest: without a saved trap or a start nothing happens; otherwise
     * every forwarder is sent the digest, and the saved trap, the counter and
     * the last send time are reset.
     */
    function Digested(s: GroupState, start: Option<int>, now: int): GroupState
      requires s.mostRecentTrap.Consistent()
    {
      if s.mostRecentTrap.IsEmpty() || start.None? then s
      else s.(mostRecentTrap := EMPTY_HOLDER, numberOfTraps := 0, lastSentTime := Some(now),
              sent := s.sent + Sends(forwarders, DigestVars(s, start.value)))
    }

    /** forward: every forwarder is sent the trap's map; the send time is kept only if there was one. */
    function Forwarded(s: GroupState, pdu: Pdu, sender: Address, now: int): GroupState {
      s.(sent := s.sent + Sends(forwarders, VarMap(pdu, sender)),
         lastSentTime := if |forwarders| > 0 then Some(now) else s.lastSentTime)
    }

    /** sendConsolidated: every forwarder is sent the consolidation. */
    function Consolidated(s: GroupState, start: int, count: int, now: int): GroupState {
      s.(sent := s.sent + Consolidations(forwarders, name, start, count),
         lastSentTime := if |forwarders| > 0 then Some(now) else s.lastSentTime)
    }

    /** markScheduleProcessed at time of day `t`. */
    function Marked(s: GroupState, t: int): GroupState {
      s.(indexOfLastProcessedSchedule := ClosestSchedule(schedules, t))
    }

    /** onSchedule at time of day `t`: never processed, or a different slot is now in effect. */
    predicate OnScheduleAt(s: GroupState, t: int) {
      s.indexOfLastProcessedSchedule == -1 || ClosestSchedule(schedules, t) != s.indexOfLastProcessedSchedule
    }

    /** limitReached. */
    predicate LimitReached(s: GroupState) {
      s.numberOfTraps >= limit
    }

    // -------------------------------------------------------------------------
    // Methods
    // -------------------------------------------------------------------------

    method SavePdu(pdu: Pdu, sender: Address)
      requires Valid()
      modifies this
      ensures Valid()
      ensures State() == Saved(old(State()), pdu, sender)
    {
      mostRecentTrap := DataHolder(Some(pdu), Some(sender));
      numberOfTraps := IncrementAndGet(numberOfTraps);
    }

    method SendDigest(start: Option<int>, now: int)
      requires Valid()
      modifies this
      ensures Valid()
      ensures State() == Digested(old(State()), start, now)
    {
      if mostRecentTrap.IsEmpty() || start.None? {
        return;
      }
      var count := numberOfTraps;
      var dh := mostRecentTrap;
      var map0 := GetVarMap(dh.pdu.value, dh.sender.value);
      var vars := map0["count" := IntToString(count)]["start_date" := dateFormat(start.value)];
      assert vars == DigestVars(State(), start.value);
      var i := 0;
      while i < |forwarders|
        invariant 0 <= i <= |forwarders|
        invariant sent == old(sent) + Sends(forwarders[..i], vars)
        invariant mostRecentTrap == old(mostRecentTrap) && numberOfTraps == old(numberOfTraps)
        invariant lastSentTime == old(lastSentTime)
        invariant indexOfLastProcessedSchedule == old(indexOfLastProcessedSchedule)
      {
        sent := sent + [Send(forwarders[i], vars)];
        assert forwarders[..i + 1][..i] == forwarders[..i];
        i := i + 1;
      }
      assert forwarders[..i] == forwarders;
      mostRecentTrap := EMPTY_HOLDER;
      numberOfTraps := 0;
      lastSentTime := Some(now);
    }

    method Forward(pdu: Pdu, sender: Address, now: int)
      requires Valid()
      modifies this
      ensures Valid()
      ensures State() == Forwarded(old(State()), pdu, sender, now)
    {
      var vars := GetVarMap(pdu, sender);
      var wasSent := false;
      var i := 0;
      while i < |forwarders|
        invariant 0 <= i <= |forwarders|
        invariant sent == old(sent) + Sends(forwarders[..i], vars)
        invariant wasSent <==> i > 0
        invariant mostRecentTrap == old(mostRecentTrap) && numberOfTraps == old(numberOfTraps)
        invariant lastSentTime == old(lastSentTime)
        invariant indexOfLastProcessedSchedule == old(indexOfLastProcessedSchedule)
      {
        sent := sent + [Send(forwarders[i], vars)];
        wasSent := true;
        assert forwarders[..i + 1][..i] == forwarders[..i];
        i := i + 1;
      }
      assert forwarders[..i] == forwarders;
      if wasSent {
        lastSentTime := Some(now);
      }
    }

    method SendConsolidated(start: int, count: int, now: int)
      requires Valid()
      modifies this
      ensures Valid()
      ensures State() == Consolidated(old(State()), start, count, now)
    {
      var wasSent := false;
      var i := 0;
      while i < |forwarders|
        invariant 0 <= i <= |forwarders|
        invariant sent == old(sent) + Consolidations(forwarders[..i], name, start, count)
        invariant wasSent <==> i > 0
        invariant mostRecentTrap == old(mostRecentTrap) && numberOfTraps == old(numberOfTraps)
        invariant lastSentTime == old(lastSentTime)
        invariant indexOfLastProcessedSchedule == old(indexOfLastProcessedSchedule)
      {
        sent := sent + [Notification.SendConsolidated(forwarders[i], name, start, count)];
        wasSent := true;
        assert forwarders[..i + 1][..i] == forwarders[..i];
        i := i + 1;
      }
      assert forwarders[..i] == forwarders;
      if wasSent {
        lastSentTime := Some(now);
      }
    }

    /** `today` is the local midnight of the day the method's calendar is built on. */
    method MarkScheduleProcessed(now: int, today: int)
      requires Valid()
      modifies this
      ensures Valid()
      ensures State() == Marked(old(State()), now - today)
    {
      indexOfLastProcessedSchedule := FindIndexOfClosestSchedule(schedules, now - today);
    }

    method OnSchedule(now: int, today: int) returns (r: bool)
      ensures r == OnScheduleAt(State(), now - today)
    {
      if indexOfLastProcessedSchedule == -1 {
        return true;
      }
      var indexOfClosestSchedule := FindIndexOfClosestSchedule(schedules, now - today);
      return indexOfClosestSchedule != indexOfLastProcessedSchedule;
    }

    // -------------------------------------------------------------------------
    // Properties of the state changes
    // -------------------------------------------------------------------------

    /** Every state change keeps the state well formed. */
    lemma StepsPreserveValid(s: GroupState, pdu: Pdu, sender: Address, start: Option<int>, count: int, now: int, t: int)
      requires StateValid(s)
      ensures StateValid(Saved(s, pdu, sender))
      ensures StateValid(Digested(s, start, now))
      ensures StateValid(Forwarded(s, pdu, sender, now))
      ensures StateValid(Consolidated(s, start.GetOr(0), count, now))
      ensures StateValid(Marked(s, t))
    {
    }

    /**
     * A digest of a saved trap reaches every forwarder once, in order, with
     * that trap's variables, the number of traps counted and the start date;
     * afterwards nothing is saved, the count is zero and the send time is now.
     * Without a saved trap or a start the digest changes nothing.
     */
    lemma DigestSendsSavedTrap(s: GroupState, start: Option<int>, now: int)
      requires StateValid(s)
      ensures var d := Digested(s, start, now);
        if s.mostRecentTrap.IsEmpty() || start.None? then d == s
        else
          var m := VarMap(s.mostRecentTrap.pdu.value, s.mostRecentTrap.sender.value);
          && d.mostRecentTrap.IsEmpty() && d.numberOfTraps == 0 && d.lastSentTime == Some(now)
          && d.indexOfLastProcessedSchedule == s.indexOfLastProcessedSchedule
          && |d.sent| == |s.sent| + |forwarders| && d.sent[..|s.sent|] == s.sent
          && (forall i :: 0 <= i < |forwarders| ==>
                d.sent[|s.sent| + i].forwarder == forwarders[i]
                && d.sent[|s.sent| + i].Send?
                && d.sent[|s.sent| + i].vars["count"] == IntToString(s.numberOfTraps)
                && d.sent[|s.sent| + i].vars["start_date"] == dateFormat(start.value)
                && (forall k :: k in m && k != "count" && k != "start_date" ==>
                      k in d.sent[|s.sent| + i].vars && d.sent[|s.sent| + i].vars[k] == m[k]))
    {
    }

    /**
     * A digest right after a save reports that trap with the incremented
     * count, and clears the saved trap and the count.
     */
    lemma SaveThenDigest(s: GroupState, pdu: Pdu, sender: Address, start: int, now: int)
      requires StateValid(s) && 0 <= s.numberOfTraps < INT_MAX
      ensures var d := Digested(Saved(s, pdu, sender), Some(start), now);
        && d.sent == s.sent + Sends(forwarders,
             VarMap(pdu, sender)["count" := IntToString(s.numberOfTraps + 1)]["start_date" := dateFormat(start)])
        && d.numberOfTraps == 0 && d.mostRecentTrap.IsEmpty()
    {
    }

    /** savePdu for each trap in turn. */
    function SaveAll(s: GroupState, traps: seq<(Pdu, Address)>): (r: GroupState)
      requires IsInt(s.numberOfTraps)
      ensures IsInt(r.numberOfTraps)
      decreases |traps|
    {
      if traps == [] then s
      else
        var last := traps[|traps| - 1];
        Saved(SaveAll(s, traps[..|traps| - 1]), last.0, last.1)
    }

    /**
     * Saving `n` traps, with room left below the int limit, raises the count
     * by `n`, remembers the last of them and sends nothing; limitReached then
     * holds exactly when the raised count is at least `limit`.
     */
    lemma {:induction false} SavesReachLimit(s: GroupState, traps: seq<(Pdu, Address)>)
      requires IsInt(s.numberOfTraps) && s.numberOfTraps + |traps| <= INT_MAX
      ensures var r := SaveAll(s, traps);
        && r.numberOfTraps == s.numberOfTraps + |traps|
        && (traps != [] ==> r.mostRecentTrap == DataHolder(Some(traps[|traps| - 1].0), Some(traps[|traps| - 1].1)))
        && r.sent == s.sent && r.lastSentTime == s.lastSentTime
        && r.indexOfLastProcessedSchedule == s.indexOfLastProcessedSchedule
        && (LimitReached(r) <==> s.numberOfTraps + |traps| >= limit)
      decreases |traps|
    {
      if traps != [] {
        SavesReachLimit(s, traps[..|traps| - 1]);
      }
    }

    /**
     * After a digest the count starts again from zero: the limit is next
     * reached after exactly `limit` saves (at once for a limit of 0 or less).
     */
    lemma DigestRestartsCount(s: GroupState, start: int, now: int, traps: seq<(Pdu, Address)>)
      requires StateValid(s) && !s.mostRecentTrap.IsEmpty() && |traps| <= INT_MAX
      ensures LimitReached(SaveAll(Digested(s, Some(start), now), traps)) <==> |traps| >= limit
    {
      SavesReachLimit(Digested(s, Some(start), now), traps);
    }

    /**
     * hasSchedule: a group has a schedule exactly when findIndexOfClosestSchedule
     * finds a slot in effect, at any time of the day.
     */
    lemma HasScheduleFindsSlot(t: int)
      requires t < MS_PER_DAY
      ensures HasSchedule() <==> ClosestSchedule(schedules, t) != -1
    {
      ClosestScheduleRange(schedules, t);
    }

    /**
     * Forwarding reaches every forwarder once with the trap's variables and
     * changes nothing else; the send time moves to now only when there is a
     * forwarder.
     */
    lemma ForwardSendsToAll(s: GroupState, pdu: Pdu, sender: Address, now: int)
      ensures var f := Forwarded(s, pdu, sender, now);
        && f.sent[..|s.sent|] == s.sent
        && |f.sent| == |s.sent| + |forwarders|
        && (forall i :: 0 <= i < |forwarders| ==> f.sent[|s.sent| + i] == Send(forwarders[i], VarMap(pdu, sender)))
        && (f.lastSentTime == s.lastSentTime <==> |forwarders| == 0 || s.lastSentTime == Some(now))
        && (|forwarders| > 0 ==> f.lastSentTime == Some(now))
        && f.mostRecentTrap == s.mostRecentTrap && f.numberOfTraps == s.numberOfTraps
        && f.indexOfLastProcessedSchedule == s.indexOfLastProcessedSchedule
    {
    }

    /** Right after being marked at a time of day, a scheduled group is not on schedule at that time. */
    lemma MarkedNotOnSchedule(s: GroupState, t: int)
      requires HasSchedule() && 0 <= t < MS_PER_DAY
      ensures !OnScheduleAt(Marked(s, t), t)
    {
      ClosestScheduleRange(schedules, t);
    }

    /**
     * For a schedule of real times of day, after being marked at `t` the group
     * is on schedule again at `t2` exactly when `t2` lies outside the window
     * of the slot that was in effect at `t`.
     */
    lemma OnScheduleAgain(s: GroupState, t: int, t2: int)
      requires ConfigValid() && HasSchedule() && forall x :: x in schedules ==> WithinDay(x)
      requires 0 <= t < MS_PER_DAY && 0 <= t2 < MS_PER_DAY
      ensures var i := ClosestSchedule(schedules, t);
        0 <= i < |schedules| && (OnScheduleAt(Marked(s, t), t2) <==> !Owns(schedules, t2, i))
    {
      ClosestScheduleRange(schedules, t);
      var i := ClosestSchedule(schedules, t);
      ClosestScheduleOwner(schedules, t2, i);
    }

    /**
     * The expectations of the unit tests for slots 06:00, 12:00 and 18:00:
     * never processed is always on schedule, and a processed slot keeps the
     * group off schedule exactly while that slot is in effect (18:00 runs
     * on to 06:00).
     */
    lemma OnScheduleExpectations(s: GroupState, t: int)
      requires schedules == [Slot(6, 0), Slot(12, 0), Slot(18, 0)] && 0 <= t < MS_PER_DAY
      ensures var h := MS_PER_HOUR;
        && (s.indexOfLastProcessedSchedule == -1 ==> OnScheduleAt(s, t))
        && (s.indexOfLastProcessedSchedule == 0 ==> (OnScheduleAt(s, t) <==> !(6 * h <= t < 12 * h)))
        && (s.indexOfLastProcessedSchedule == 1 ==> (OnScheduleAt(s, t) <==> !(12 * h <= t < 18 * h)))
        && (s.indexOfLastProcessedSchedule == 2 ==> (OnScheduleAt(s, t) <==> 6 * h <= t < 18 * h))
    {
      TestScheduleExpectations(t);
    }

    /**
     * A day with slots 08:00 and 16:00, last marked in the 16:00 slot: that
     * slot still owns 07:00, the group is on schedule at 08:01, and once
     * marked there it is not on schedule at 15:59 but is again at 16:00.
     */
    lemma TwoSlotDay(s: GroupState)
      requires schedules == [Slot(8, 0), Slot(16, 0)]
      requires s.indexOfLastProcessedSchedule == 1
      ensures var h := MS_PER_HOUR;
        && !OnScheduleAt(s, 7 * h)
        && OnScheduleAt(s, 8 * h + MS_PER_MINUTE)
        && !OnScheduleAt(Marked(s, 8 * h + MS_PER_MINUTE), 16 * h - MS_PER_MINUTE)
        && OnScheduleAt(Marked(s, 8 * h + MS_PER_MINUTE), 16 * h)
    {
    }

    /**
     * With a single slot, the slot in effect never changes within the day, so
     * once marked the group is not on schedule again that day.
     */
    lemma SingleSlotNeverAgain(s: GroupState, t: int, t2: int)
      requires |schedules| == 1
      requires 0 <= t < MS_PER_DAY && 0 <= t2 < MS_PER_DAY
      ensures !OnScheduleAt(Marked(s, t), t2)
    {
      ClosestScheduleRange(schedules, t);
      ClosestScheduleRange(schedules, t2);
    }
  }
}
