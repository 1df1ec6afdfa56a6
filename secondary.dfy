/**
 * The secondary classifier: it swallows every trap while the primary trapper
 * answers its health probe, and classifies traps itself otherwise. The
 * probe's verdict is cached and refreshed at most once per `checkSeconds`.
 */
module Secondary {
  import opened Wrappers
  import opened Snmp
  import opened Classifier

  /** What the HTTP probe of the primary gives: a response code, or an I/O failure. */
  datatype ProbeOutcome = Response(code: int) | IOFailure

  /** primaryIsAlive: only a 200 response counts as alive. */
  predicate PrimaryIsAlive(outcome: ProbeOutcome) {
    outcome.Response? && outcome.code == 200
  }

  /** The throttle's state: the cached verdict and when it was obtained. */
  datatype Gate = Gate(usePrimary: bool, lastCheck: Option<int>)

  /** The probe is due when there was none yet or the last one is older than `checkSeconds`. */
  predicate ProbeDue(gate: Gate, checkSeconds: int, now: int) {
    gate.lastCheck.None? || gate.lastCheck.value < now - checkSeconds * 1000
  }

  /** usePrimary: refresh the verdict with `probe` when due, else keep the cached one. */
  function Throttle(gate: Gate, checkSeconds: int, now: int, probe: ProbeOutcome): Gate {
    if ProbeDue(gate, checkSeconds, now) then Gate(PrimaryIsAlive(probe), Some(now)) else gate
  }

  /**
   * Right after a probe the verdict is the probe's, the check time is now,
   * and any later call within `checkSeconds` seconds (inclusive) keeps both,
   * whatever its own probe would say.
   */
  lemma ThrottleCaches(gate: Gate, checkSeconds: int, now: int, probe: ProbeOutcome,
                       later: int, probe2: ProbeOutcome)
    requires ProbeDue(gate, checkSeconds, now)
    requires now <= later <= now + checkSeconds * 1000
    ensures var g1 := Throttle(gate, checkSeconds, now, probe);
      && g1 == Gate(probe == Response(200), Some(now))
      && Throttle(g1, checkSeconds, later, probe2) == g1
  {
  }

  /**
   * With `checkSeconds` at 0 the probe runs on every call made after the
   * last check, and a second call in the same millisecond reuses the verdict.
   */
  lemma ThrottleWithoutDelay(gate: Gate, now: int)
    ensures ProbeDue(gate, 0, now) <==> gate.lastCheck.None? || gate.lastCheck.value < now
  {
  }

  /**
   * A primary answering 503, or not answering at all, leaves the traps to
   * this classifier; a primary answering 200 takes them.
   */
  lemma FailoverScenario(now: int)
    ensures !Throttle(Gate(false, None), 0, now, Response(503)).usePrimary
    ensures !Throttle(Gate(false, None), 0, now, IOFailure).usePrimary
    ensures Throttle(Gate(false, None), 0, now, Response(200)).usePrimary
  {
  }

  class SecondaryTrapClassifier {
    /** The classifier this one delegates to when it handles traps itself. */
    const inner: TrapClassifier
    /** The primary's health URL. */
    const primary: string
    /** Never assigned after construction, so always 0. */
    const checkSeconds: int
    var usePrimary: bool
    var lastCheck: Option<int>

    function GateState(): Gate
      reads this
    {
      Gate(usePrimary, lastCheck)
    }

    constructor(inner: TrapClassifier, primary: string)
      ensures this.inner == inner && this.primary == primary
      ensures checkSeconds == 0 && GateState() == Gate(false, None)
    {
      this.inner := inner;
      this.primary := primary;
      checkSeconds := 0;
      usePrimary := false;
      lastCheck := None;
    }

    /**
     * usePrimary: `probe` is what the primary's probe answers at `now`; it is
     * consulted only when the cached verdict is due for a refresh.
     */
    method UsePrimary(now: int, probe: ProbeOutcome) returns (r: bool)
      modifies this
      ensures GateState() == Throttle(old(GateState()), checkSeconds, now, probe)
      ensures r == usePrimary
    {
      if lastCheck.None? || lastCheck.value < now - checkSeconds * 1000 {
        usePrimary := PrimaryIsAlive(probe);
        lastCheck := Some(now);
      }
      return usePrimary;
    }

    /**
     * processPdu: while the primary is alive the trap is marked processed and
     * nothing else happens; otherwise the inner classifier handles it.
     */
    method ProcessPdu(pdu: Pdu, sender: Address, now: int, dns: string -> Option<Address>, probe: ProbeOutcome)
      returns (processed: bool)
      requires inner.Valid()
      modifies this, inner, inner.accept
      ensures inner.Valid()
      ensures GateState() == Throttle(old(GateState()), checkSeconds, now, probe)
      ensures usePrimary ==> processed && unchanged(inner) && forall j :: 0 <= j < |inner.accept| ==> unchanged(inner.accept[j])
      ensures !usePrimary ==> inner.Handled(pdu, sender, now, dns, processed)
    {
      var deferring := UsePrimary(now, probe);
      if !deferring {
        processed := inner.ProcessPdu(pdu, sender, now, dns);
      } else {
        processed := true;
      }
    }
  }
}
