/**
  The editable form of a firewall exception in the graphical front end, and
  the conversions between it and `FirewallException`. Address parsing is an
  oracle; the address is shown with `IpToString`.
 */
module ExceptionGui {
  import opened Wrappers
  import opened Net
  import opened Firewalls

  /** `GUIException`: the address and protocol as text, the port as a 32-bit signed integer. */
  datatype GUIException = GUIException(ipAddress: string, port: i32, protocol: string)

  /** `ExceptionParseError`. */
  datatype ExceptionParseError = AddrParseError | ProtocolParseError

  /** The list of exceptions the front end edits. */
  datatype Exceptions = Exceptions(exceptionList: seq<GUIException>)

  /** `GUIException::default`: a TCP exception for port 80 of 192.168.1.5. */
  function DefaultGuiException(): (g: GUIException)
    ensures g.ipAddress == "192.168.1.5" && g.port == 80 && g.protocol == ProtocolName(TCP)
  {
    GUIException("192.168.1.5", 80, "TCP")
  }

  /** `From<FirewallException>`: the address as text, the port unchanged, the protocol's name. */
  function FromFirewallException(fe: FirewallException): (g: GUIException)
    ensures g.ipAddress == IpToString(fe.host)
    ensures g.port as int == fe.port as int && 0 <= g.port < 0x1_0000
    ensures g.protocol == ProtocolName(fe.protocol)
  {
    GUIException(IpToString(fe.host), fe.port as i32, ProtocolName(fe.protocol))
  }

  /** The cast `port as u16`: the low 16 bits of the two's-complement value. */
  function TruncateToU16(port: i32): (p: u16)
    ensures 0 <= port < 0x1_0000 ==> p as int == port as int
    ensures (p as int - port as int) % 0x1_0000 == 0
  {
    port as int % 0x1_0000
  }

  /**
    `TryInto<FirewallException>`: the address must parse, and is checked
    first; the port is truncated to 16 bits; only the exact names "TCP" and
    "UDP" are protocols.
   */
  function TryIntoFirewallException(g: GUIException, parseIp: string -> Option<IpAddr>)
    : (r: Result<FirewallException, ExceptionParseError>)
    ensures parseIp(g.ipAddress).None? ==> r == Err(AddrParseError)
    ensures parseIp(g.ipAddress).Some? ==> (r.Ok? <==> g.protocol == "TCP" || g.protocol == "UDP")
    ensures parseIp(g.ipAddress).Some? && r.Err? ==> r.error == ProtocolParseError
    ensures r.Ok? ==> && Some(r.value.host) == parseIp(g.ipAddress)
                      && r.value.port == TruncateToU16(g.port)
                      && ProtocolName(r.value.protocol) == g.protocol
  {
    match parseIp(g.ipAddress)
    case None => Err(AddrParseError)
    case Some(host) =>
      if g.protocol == "TCP" then Ok(FirewallException(host, TruncateToU16(g.port), TCP))
      else if g.protocol == "UDP" then Ok(FirewallException(host, TruncateToU16(g.port), UDP))
      else Err(ProtocolParseError)
  }

  /**
    Converting an exception for editing and back gives the same exception,
    provided the address parser reads the displayed address back.
   */
  lemma GuiRoundTrip(fe: FirewallException, parseIp: string -> Option<IpAddr>)
    requires parseIp(IpToString(fe.host)) == Some(fe.host)
    ensures TryIntoFirewallException(FromFirewallException(fe), parseIp) == Ok(fe)
  {
    var g := FromFirewallException(fe);
    var r := TryIntoFirewallException(g, parseIp);
    assert g.protocol == "TCP" || g.protocol == "UDP";
    ProtocolNameInjective(r.value.protocol, fe.protocol);
  }

  /**
    `Exceptions::default`: one editable exception per stored exception, in
    order; none when the configuration cannot be opened (`None`).
   */
  method ExceptionsDefault(config: Option<seq<FirewallException>>) returns (list: Exceptions)
    ensures var stored := if config.Some? then config.value else [];
            && |list.exceptionList| == |stored|
            && forall i :: 0 <= i < |stored| ==> list.exceptionList[i] == FromFirewallException(stored[i])
  {
    var stored := if config.Some? then config.value else [];
    var exceptionList: seq<GUIException> := [];
    for i := 0 to |stored|
      invariant |exceptionList| == i
      invariant forall k :: 0 <= k < i ==> exceptionList[k] == FromFirewallException(stored[k])
    {
      exceptionList := exceptionList + [FromFirewallException(stored[i])];
    }
    list := Exceptions(exceptionList);
  }
}
