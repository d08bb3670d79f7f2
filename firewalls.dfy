/**
  The firewall value types: the protocol of an exception, the exception itself
  and the error every firewall operation can return.
 */
module Firewalls {
  import opened Wrappers
  import opened Net

  /** `FirewallExceptionProtocol`: exactly one of TCP or UDP. */
  datatype FirewallExceptionProtocol = TCP | UDP

  /**
    `FirewallException`: connections to `host` on `port` over `protocol` stay
    allowed while the kill switch is active. Equality is structural over the
    three fields (the derived `PartialEq`), and the port is 16 bits wide.
   */
  datatype FirewallException = FirewallException(host: IpAddr, port: u16, protocol: FirewallExceptionProtocol)

  /** `FirewallException::new`. */
  function NewException(host: IpAddr, port: u16, protocol: FirewallExceptionProtocol): (e: FirewallException)
    ensures e.host == host && e.port == port && e.protocol == protocol
  {
    FirewallException(host, port, protocol)
  }

  /** Two exceptions are equal exactly when host, port and protocol are. */
  lemma ExceptionEquality(a: FirewallException, b: FirewallException)
    ensures a == b <==> a.host == b.host && a.port == b.port && a.protocol == b.protocol
  {
  }

  /** The `Display` text of a protocol, which the GUI offers and parses back. */
  function ProtocolName(p: FirewallExceptionProtocol): (s: string)
    ensures s == "TCP" || s == "UDP"
    ensures s == "TCP" <==> p == TCP
  {
    match p
    case TCP => "TCP"
    case UDP => "UDP"
  }

  lemma ProtocolNameInjective(p: FirewallExceptionProtocol, q: FirewallExceptionProtocol)
    requires ProtocolName(p) == ProtocolName(q)
    ensures p == q
  {
  }

  /** A `std::io::Error`, known only by its description. */
  datatype IoError = Io(description: string)

  /**
    `FirewallError`: the command could not be started or waited for
    (`IoError`), or it ran and reported failure (`IptablesError`, holding the
    exit code when the process exited rather than being killed by a signal).
   */
  datatype FirewallError = IoError(io: IoError) | IptablesError(code: Option<i32>)
}
