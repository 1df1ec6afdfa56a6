/** The parsed trap event the transport layer hands to the engine. */
module Snmp {

  /** An OID, identified by its dotted text form (`OID.toString()`). */
  type Oid = string

  /**
   * A bound value. `Null` stands for SNMP4J's `Null` family (noSuchObject and
   * the like), which the body rendering skips; both variants carry `toString()`.
   */
  datatype Variable = Null(text: string) | Value(text: string)

  datatype VariableBinding = VariableBinding(oid: Oid, variable: Variable)

  /** The variable bindings of a trap PDU, in order. */
  type Pdu = seq<VariableBinding>

  /**
   * A sender address: its textual IP (`getHostAddress()`) and the name reverse
   * lookup gives it (`getHostName()`). `InetAddress.equals` compares the IP.
   */
  datatype Address = Address(hostAddress: string, hostName: string)

  predicate SameHost(a: Address, b: Address) {
    a.hostAddress == b.hostAddress
  }

  /** `s.indexOf(c)` for a character that occurs in `s`. */
  function IndexOf(s: string, c: char): (i: nat)
    requires c in s
    ensures i < |s| && s[i] == c
    ensures c !in s[..i]
  {
    if s[0] == c then 0
    else
      assert s == [s[0]] + s[1..];
      var j := IndexOf(s[1..], c);
      assert s[..j + 1] == [s[0]] + s[1..][..j];
      j + 1
  }
}
