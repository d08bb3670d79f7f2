/**
  The `connect` subcommand: reading the exceptions out of an OpenVPN
  configuration, finding the tunnel interface in the client's output, the
  leak verdict, and the order in which `cmd_connect` takes its steps.

  Everything outside the process is an oracle held in a `Host`: the user id,
  the leak-test answers, the parsed configuration file, the firewall
  backend's answers, the client's output as the reads return it, and whether
  an interrupt arrives. `cmd_connect` is modelled as the trace of `Event`s it
  causes and the way it ends.
 */
module Connect {
  import opened Wrappers
  import opened Net
  import opened Firewalls
  import opened CliErrors
  import Dns

  /**
    How a call ends: it returns a result, a `panic!` or failed `unwrap`
    aborts the program, or it never returns (a loop that keeps waiting).
   */
  datatype Completion<T> = Returned(result: Result<T, CliError>) | Panicked | Diverged

  // ---------------------------------------------------------------------------
  // parse_configuration_file

  /** The directives of a parsed OpenVPN file that the exceptions depend on. */
  datatype Directive =
    | Proto(p: string)
    | Remote(host: string, port: Option<string>, proto: Option<string>)
    | OtherDirective

  /** The protocol of the last `proto` directive, wherever it stands. */
  function LastProto(ds: seq<Directive>): Option<string>
  {
    if ds == [] then None
    else match ds[|ds| - 1]
      case Proto(p) => Some(p)
      case _ => LastProto(ds[..|ds| - 1])
  }

  /** The default protocol is absent exactly when the file has no `proto` directive. */
  lemma {:induction false} LastProtoAbsent(ds: seq<Directive>)
    ensures LastProto(ds).None? <==> forall i :: 0 <= i < |ds| ==> !ds[i].Proto?
  {
    if ds != [] {
      var init := ds[..|ds| - 1];
      LastProtoAbsent(init);
      if !ds[|ds| - 1].Proto? {
        LastProtoSkips(ds);
        assert forall i :: 0 <= i < |init| ==> init[i] == ds[i];
      }
    }
  }

  /** A last directive other than `proto` does not change the default protocol. */
  lemma LastProtoSkips(ds: seq<Directive>)
    requires ds != [] && !ds[|ds| - 1].Proto?
    ensures LastProto(ds) == LastProto(ds[..|ds| - 1])
  {
  }

  /** A default protocol is that of a `proto` directive with none after it. */
  lemma {:induction false} LastProtoIsLast(ds: seq<Directive>)
    ensures LastProto(ds).Some? ==>
              exists i :: 0 <= i < |ds| && ds[i] == Proto(LastProto(ds).value)
                          && forall j :: i < j < |ds| ==> !ds[j].Proto?
  {
    if ds != [] && !ds[|ds| - 1].Proto? {
      var init := ds[..|ds| - 1];
      LastProtoIsLast(init);
      LastProtoSkips(ds);
      if LastProto(init).Some? {
        var i :| 0 <= i < |init| && init[i] == Proto(LastProto(init).value)
                 && forall j :: i < j < |init| ==> !init[j].Proto?;
        assert ds[i] == init[i];
        assert forall j :: i < j < |init| ==> ds[j] == init[j];
      }
    }
  }

  /**
    The exception of one `remote` directive, its parts evaluated left to
    right: the host must parse as an address; a missing port panics, and so
    does a missing protocol when the file has no `proto` directive; the
    directive's own protocol overrides the default.
   */
  function RemoteException(host: string, port: Option<string>, proto: Option<string>, defaultProtocol: Option<string>,
                           parseIp: string -> Option<IpAddr>,
                           parseProto: string -> Option<FirewallExceptionProtocol>)
    : (c: Completion<FirewallException>)
    ensures parseIp(host).None? ==> c == Returned(Err(AddrParse))
    ensures parseIp(host).Some? && port.None? ==> c == Panicked
    ensures parseIp(host).Some? && port.Some? && ParseU16(port.value).None? ==> c == Returned(Err(ParseInt))
    ensures parseIp(host).Some? && port.Some? && proto.None? && defaultProtocol.None? && ParseU16(port.value).Some?
            ==> c == Panicked
    ensures parseIp(host).Some? && port.Some? && ParseU16(port.value).Some? && ChosenProtocol(proto, defaultProtocol).Some?
            && parseProto(ChosenProtocol(proto, defaultProtocol).value).None?
            ==> c == Returned(Err(FirewallExceptionProtocol))
    ensures parseIp(host).Some? && port.Some? && ParseU16(port.value).Some? && ChosenProtocol(proto, defaultProtocol).Some?
            && parseProto(ChosenProtocol(proto, defaultProtocol).value).Some?
            ==> c.Returned? && c.result.Ok?
    ensures c.Returned? && c.result.Ok? ==>
              && Some(c.result.value.host) == parseIp(host)
              && port.Some? && Some(c.result.value.port) == ParseU16(port.value)
              && (proto.Some? ==> Some(c.result.value.protocol) == parseProto(proto.value))
              && (proto.None? ==> defaultProtocol.Some? && Some(c.result.value.protocol) == parseProto(defaultProtocol.value))
  {
    match parseIp(host)
    case None => Returned(Err(AddrParse))
    case Some(ip) =>
      if port.None? then Panicked
      else match ParseU16(port.value)
        case None => Returned(Err(ParseInt))
        case Some(portNumber) =>
          if proto.None? && defaultProtocol.None? then Panicked
          else
            var name := if proto.Some? then proto.value else defaultProtocol.value;
            match parseProto(name)
            case None => Returned(Err(FirewallExceptionProtocol))
            case Some(protocol) => Returned(Ok(NewException(ip, portNumber, protocol)))
  }

  /** `proto.unwrap_or_else(|| default_protocol.unwrap())`, with `None` where the `unwrap` panics. */
  function ChosenProtocol(proto: Option<string>, defaultProtocol: Option<string>): Option<string>
  {
    if proto.Some? then proto else defaultProtocol
  }

  /** `es` in front of a successful list; any other ending is kept. */
  function Prepend(es: seq<FirewallException>, c: Completion<seq<FirewallException>>): Completion<seq<FirewallException>>
  {
    match c
    case Returned(Ok(rest)) => Returned(Ok(es + rest))
    case _ => c
  }

  /** The exceptions of the `remote` directives in file order; the first one that fails ends the list. */
  function CollectExceptions(ds: seq<Directive>, defaultProtocol: Option<string>,
                             parseIp: string -> Option<IpAddr>,
                             parseProto: string -> Option<FirewallExceptionProtocol>)
    : Completion<seq<FirewallException>>
  {
    if ds == [] then Returned(Ok([]))
    else match ds[0]
      case Remote(host, port, proto) =>
        (match RemoteException(host, port, proto, defaultProtocol, parseIp, parseProto)
         case Returned(Ok(e)) => Prepend([e], CollectExceptions(ds[1..], defaultProtocol, parseIp, parseProto))
         case Returned(Err(err)) => Returned(Err(err))
         case Panicked => Panicked
         case Diverged => Diverged)
      case _ => CollectExceptions(ds[1..], defaultProtocol, parseIp, parseProto)
  }

  /** The `remote` directives of a file, in order. */
  function Remotes(ds: seq<Directive>): (rs: seq<Directive>)
    ensures forall k :: 0 <= k < |rs| ==> rs[k].Remote?
  {
    if ds == [] then []
    else (if ds[0].Remote? then [ds[0]] else []) + Remotes(ds[1..])
  }

  /** The `remote` list holds directives of the file only, leaves none out, and keeps a file of `remote` directives whole. */
  lemma {:induction false} RemotesComplete(ds: seq<Directive>)
    ensures forall k :: 0 <= k < |Remotes(ds)| ==> Remotes(ds)[k] in ds
    ensures forall i :: 0 <= i < |ds| && ds[i].Remote? ==> ds[i] in Remotes(ds)
    ensures (forall i :: 0 <= i < |ds| ==> ds[i].Remote?) ==> Remotes(ds) == ds
  {
    if ds != [] {
      RemotesComplete(ds[1..]);
      assert forall i :: 1 <= i < |ds| ==> ds[i] == ds[1..][i - 1];
      assert ds == [ds[0]] + ds[1..];
    }
  }

  /**
    The `remote` directives of a concatenation are those of each part, and a
    single directive is kept exactly when it is a `remote`: so every `remote`
    is kept, once, in file order.
   */
  lemma {:induction false} RemotesAppend(a: seq<Directive>, b: seq<Directive>)
    ensures Remotes(a + b) == Remotes(a) + Remotes(b)
    ensures |a| == 1 ==> Remotes(a) == if a[0].Remote? then a else []
  {
    if a == [] {
      assert a + b == b;
    } else {
      var head := if a[0].Remote? then [a[0]] else [];
      assert (a + b)[0] == a[0];
      assert (a + b)[1..] == a[1..] + b;
      RemotesAppend(a[1..], b);
      calc {
        Remotes(a + b);
        head + Remotes(a[1..] + b);
        head + (Remotes(a[1..]) + Remotes(b));
        (head + Remotes(a[1..])) + Remotes(b);
        Remotes(a) + Remotes(b);
      }
      if |a| == 1 {
        assert a[1..] == [];
        assert Remotes(a) == head + [];
      }
    }
  }

  /** The `remote` directive `d` gives an exception. */
  predicate RemoteOk(d: Directive, defaultProtocol: Option<string>, parseIp: string -> Option<IpAddr>,
                     parseProto: string -> Option<FirewallExceptionProtocol>)
  {
    d.Remote? && RemoteException(d.host, d.port, d.proto, defaultProtocol, parseIp, parseProto).Returned?
    && RemoteException(d.host, d.port, d.proto, defaultProtocol, parseIp, parseProto).result.Ok?
  }

  /** How a failing remote ends the whole collection. */
  function FailureOf(c: Completion<FirewallException>): Completion<seq<FirewallException>>
  {
    match c
    case Returned(Ok(_)) => Returned(Ok([]))
    case Returned(Err(e)) => Returned(Err(e))
    case Panicked => Panicked
    case Diverged => Diverged
  }

  /** Every directive of `rs` is a `remote` that gives an exception. */
  predicate AllRemotesOk(rs: seq<Directive>, defaultProtocol: Option<string>, parseIp: string -> Option<IpAddr>,
                         parseProto: string -> Option<FirewallExceptionProtocol>)
  {
    forall k :: 0 <= k < |rs| ==> RemoteOk(rs[k], defaultProtocol, parseIp, parseProto)
  }

  lemma AllRemotesOkCons(d: Directive, rest: seq<Directive>, defaultProtocol: Option<string>,
                         parseIp: string -> Option<IpAddr>, parseProto: string -> Option<FirewallExceptionProtocol>)
    ensures AllRemotesOk([d] + rest, defaultProtocol, parseIp, parseProto)
            <==> RemoteOk(d, defaultProtocol, parseIp, parseProto) && AllRemotesOk(rest, defaultProtocol, parseIp, parseProto)
  {
    var rs := [d] + rest;
    if RemoteOk(d, defaultProtocol, parseIp, parseProto) && AllRemotesOk(rest, defaultProtocol, parseIp, parseProto) {
      forall k | 0 <= k < |rs|
        ensures RemoteOk(rs[k], defaultProtocol, parseIp, parseProto)
      {
        if k > 0 {
          assert rs[k] == rest[k - 1];
        }
      }
    }
    if AllRemotesOk(rs, defaultProtocol, parseIp, parseProto) {
      assert rs[0] == d;
      forall k | 0 <= k < |rest|
        ensures RemoteOk(rest[k], defaultProtocol, parseIp, parseProto)
      {
        assert rs[k + 1] == rest[k];
      }
    }
  }

  /** The collection succeeds exactly when every `remote` directive gives an exception. */
  lemma {:induction false} CollectOkIff(ds: seq<Directive>, defaultProtocol: Option<string>,
                                        parseIp: string -> Option<IpAddr>,
                                        parseProto: string -> Option<FirewallExceptionProtocol>)
    ensures var c := CollectExceptions(ds, defaultProtocol, parseIp, parseProto);
            (c.Returned? && c.result.Ok?) <==> AllRemotesOk(Remotes(ds), defaultProtocol, parseIp, parseProto)
  {
    if ds != [] {
      CollectOkIff(ds[1..], defaultProtocol, parseIp, parseProto);
      if ds[0].Remote? {
        assert Remotes(ds) == [ds[0]] + Remotes(ds[1..]);
        AllRemotesOkCons(ds[0], Remotes(ds[1..]), defaultProtocol, parseIp, parseProto);
      } else {
        assert Remotes(ds) == Remotes(ds[1..]);
      }
    }
  }

  /** How the `remote` directive `d` ends the collection when it gives no exception. */
  function RemoteEnding(d: Directive, defaultProtocol: Option<string>, parseIp: string -> Option<IpAddr>,
                        parseProto: string -> Option<FirewallExceptionProtocol>): Completion<seq<FirewallException>>
    requires d.Remote?
  {
    FailureOf(RemoteException(d.host, d.port, d.proto, defaultProtocol, parseIp, parseProto))
  }

  /** The ending of a `remote` directive that gives no exception is a failure. */
  lemma RemoteEndingFails(d: Directive, defaultProtocol: Option<string>, parseIp: string -> Option<IpAddr>,
                          parseProto: string -> Option<FirewallExceptionProtocol>)
    requires d.Remote? && !RemoteOk(d, defaultProtocol, parseIp, parseProto)
    ensures !RemoteEnding(d, defaultProtocol, parseIp, parseProto).Returned?
            || !RemoteEnding(d, defaultProtocol, parseIp, parseProto).result.Ok?
  {
  }

  /** A failing collection ends as the first `remote` directive that gives no exception. */
  lemma {:induction false} CollectFirstFailure(ds: seq<Directive>, defaultProtocol: Option<string>,
                                               parseIp: string -> Option<IpAddr>,
                                               parseProto: string -> Option<FirewallExceptionProtocol>, k: nat)
    requires k < |Remotes(ds)| && !RemoteOk(Remotes(ds)[k], defaultProtocol, parseIp, parseProto)
    requires forall j :: 0 <= j < k ==> RemoteOk(Remotes(ds)[j], defaultProtocol, parseIp, parseProto)
    ensures CollectExceptions(ds, defaultProtocol, parseIp, parseProto)
            == RemoteEnding(Remotes(ds)[k], defaultProtocol, parseIp, parseProto)
  {
    var rest := Remotes(ds[1..]);
    if !ds[0].Remote? {
      CollectSkipsOther(ds, defaultProtocol, parseIp, parseProto);
      CollectFirstFailure(ds[1..], defaultProtocol, parseIp, parseProto, k);
    } else {
      RemotesOfRemoteHead(ds);
      assert Remotes(ds)[0] == ds[0];
      if k == 0 {
        CollectHeadFailure(ds, defaultProtocol, parseIp, parseProto);
      } else {
        OkPrefixShift(ds, defaultProtocol, parseIp, parseProto, k);
        CollectFirstFailure(ds[1..], defaultProtocol, parseIp, parseProto, k - 1);
        RemoteEndingFails(rest[k - 1], defaultProtocol, parseIp, parseProto);
        CollectPastOkRemote(ds, defaultProtocol, parseIp, parseProto);
      }
    }
  }

  /** Past a leading `remote` directive, the `remote` list shifts down by one place. */
  lemma OkPrefixShift(ds: seq<Directive>, defaultProtocol: Option<string>, parseIp: string -> Option<IpAddr>,
                      parseProto: string -> Option<FirewallExceptionProtocol>, k: nat)
    requires ds != [] && ds[0].Remote? && 0 < k < |Remotes(ds)|
    requires Remotes(ds) == [ds[0]] + Remotes(ds[1..])
    requires forall j :: 0 <= j < k ==> RemoteOk(Remotes(ds)[j], defaultProtocol, parseIp, parseProto)
    ensures RemoteOk(ds[0], defaultProtocol, parseIp, parseProto)
    ensures Remotes(ds)[k] == Remotes(ds[1..])[k - 1]
    ensures forall j :: 0 <= j < k - 1 ==> RemoteOk(Remotes(ds[1..])[j], defaultProtocol, parseIp, parseProto)
  {
    var rs := Remotes(ds);
    var rest := Remotes(ds[1..]);
    assert rs[0] == ds[0];
    forall j | 0 <= j < k - 1
      ensures RemoteOk(rest[j], defaultProtocol, parseIp, parseProto)
    {
      assert rs[j + 1] == rest[j];
    }
  }

  /** A directive other than `remote` adds nothing, neither to the collection nor to the `remote` list. */
  lemma CollectSkipsOther(ds: seq<Directive>, defaultProtocol: Option<string>,
                          parseIp: string -> Option<IpAddr>,
                          parseProto: string -> Option<FirewallExceptionProtocol>)
    requires ds != [] && !ds[0].Remote?
    ensures CollectExceptions(ds, defaultProtocol, parseIp, parseProto)
            == CollectExceptions(ds[1..], defaultProtocol, parseIp, parseProto)
    ensures Remotes(ds) == Remotes(ds[1..])
  {
  }

  /** A `remote` directive in front comes first in the `remote` list. */
  lemma RemotesOfRemoteHead(ds: seq<Directive>)
    requires ds != [] && ds[0].Remote?
    ensures Remotes(ds) == [ds[0]] + Remotes(ds[1..])
  {
  }

  /** A collection whose first directive is a failing `remote` ends as that directive does. */
  lemma CollectHeadFailure(ds: seq<Directive>, defaultProtocol: Option<string>,
                           parseIp: string -> Option<IpAddr>,
                           parseProto: string -> Option<FirewallExceptionProtocol>)
    requires ds != [] && ds[0].Remote? && !RemoteOk(ds[0], defaultProtocol, parseIp, parseProto)
    ensures CollectExceptions(ds, defaultProtocol, parseIp, parseProto)
            == RemoteEnding(ds[0], defaultProtocol, parseIp, parseProto)
  {
  }

  /** A collection whose first directive is a `remote` that gives an exception fails as the rest does. */
  lemma CollectPastOkRemote(ds: seq<Directive>, defaultProtocol: Option<string>,
                            parseIp: string -> Option<IpAddr>,
                            parseProto: string -> Option<FirewallExceptionProtocol>)
    requires ds != [] && RemoteOk(ds[0], defaultProtocol, parseIp, parseProto)
    requires !CollectExceptions(ds[1..], defaultProtocol, parseIp, parseProto).Returned?
             || !CollectExceptions(ds[1..], defaultProtocol, parseIp, parseProto).result.Ok?
    ensures CollectExceptions(ds, defaultProtocol, parseIp, parseProto)
            == CollectExceptions(ds[1..], defaultProtocol, parseIp, parseProto)
  {
  }

  /**
    A successful collection holds one exception per `remote` directive, in
    file order, each the exception of that directive; other directives add
    nothing.
   */
  lemma {:induction false} OneExceptionPerRemote(ds: seq<Directive>, defaultProtocol: Option<string>,
                                                 parseIp: string -> Option<IpAddr>,
                                                 parseProto: string -> Option<FirewallExceptionProtocol>)
    requires CollectExceptions(ds, defaultProtocol, parseIp, parseProto).Returned?
    requires CollectExceptions(ds, defaultProtocol, parseIp, parseProto).result.Ok?
    ensures var es := CollectExceptions(ds, defaultProtocol, parseIp, parseProto).result.value;
            && |es| == |Remotes(ds)|
            && forall k :: 0 <= k < |es| ==>
                 RemoteException(Remotes(ds)[k].host, Remotes(ds)[k].port, Remotes(ds)[k].proto, defaultProtocol,
                                 parseIp, parseProto) == Returned(Ok(es[k]))
  {
    if ds != [] {
      var rest := CollectExceptions(ds[1..], defaultProtocol, parseIp, parseProto);
      if ds[0].Remote? {
        var e := RemoteException(ds[0].host, ds[0].port, ds[0].proto, defaultProtocol, parseIp, parseProto);
        assert e.Returned? && e.result.Ok?;
        assert rest.Returned? && rest.result.Ok?;
        OneExceptionPerRemote(ds[1..], defaultProtocol, parseIp, parseProto);
        var es := CollectExceptions(ds, defaultProtocol, parseIp, parseProto).result.value;
        assert es == [e.result.value] + rest.result.value;
        var rs := Remotes(ds);
        assert rs == [ds[0]] + Remotes(ds[1..]);
        forall k | 0 <= k < |es|
          ensures RemoteException(rs[k].host, rs[k].port, rs[k].proto, defaultProtocol, parseIp, parseProto)
                  == Returned(Ok(es[k]))
        {
          if k > 0 {
            assert es[k] == rest.result.value[k - 1];
            assert rs[k] == Remotes(ds[1..])[k - 1];
          }
        }
      } else {
        OneExceptionPerRemote(ds[1..], defaultProtocol, parseIp, parseProto);
        assert Remotes(ds) == Remotes(ds[1..]);
      }
    }
  }

  /** What `parse_configuration_file` returns for a parsed file, or for one the parser rejected (`None`). */
  function ParsedExceptions(parsed: Option<seq<Directive>>, parseIp: string -> Option<IpAddr>,
                            parseProto: string -> Option<FirewallExceptionProtocol>)
    : Completion<seq<FirewallException>>
  {
    match parsed
    case None => Returned(Err(OvpnFile))
    case Some(ds) => CollectExceptions(ds, LastProto(ds), parseIp, parseProto)
  }

  /**
    `parse_configuration_file`: one pass over the directives to find the
    default protocol, a second to build one exception per `remote`.
   */
  method ParseConfigurationFile(parsed: Option<seq<Directive>>, parseIp: string -> Option<IpAddr>,
                                parseProto: string -> Option<FirewallExceptionProtocol>)
    returns (r: Completion<seq<FirewallException>>)
    ensures r == ParsedExceptions(parsed, parseIp, parseProto)
  {
    if parsed.None? {
      return Returned(Err(OvpnFile));
    }
    var directives := parsed.value;
    // Get the default settings
    var defaultProtocol: Option<string> := None;
    var i := 0;
    while i < |directives|
      invariant 0 <= i <= |directives|
      invariant defaultProtocol == LastProto(directives[..i])
    {
      assert directives[..i + 1][..i] == directives[..i];
      match directives[i] {
        case Proto(p) =>
          defaultProtocol := Some(p);
        case _ =>
      }
      i := i + 1;
    }
    assert directives[..i] == directives;
    // Create the firewall exceptions
    ghost var spec := CollectExceptions(directives, defaultProtocol, parseIp, parseProto);
    var exceptions: seq<FirewallException> := [];
    var k := 0;
    assert directives[k..] == directives;
    PrependNothing(spec);
    while k < |directives|
      invariant 0 <= k <= |directives|
      invariant spec == Prepend(exceptions, CollectExceptions(directives[k..], defaultProtocol, parseIp, parseProto))
    {
      assert directives[k..][1..] == directives[k + 1..];
      match directives[k] {
        case Remote(host, port, proto) =>
          match RemoteException(host, port, proto, defaultProtocol, parseIp, parseProto) {
            case Returned(Ok(e)) =>
              PrependAppend(exceptions, e, CollectExceptions(directives[k + 1..], defaultProtocol, parseIp, parseProto));
              exceptions := exceptions + [e];
            case Returned(Err(err)) =>
              return Returned(Err(err));
            case Panicked =>
              return Panicked;
            case Diverged =>
              return Diverged;
          }
        case _ =>
      }
      k := k + 1;
    }
    assert exceptions + [] == exceptions;
    r := Returned(Ok(exceptions));
  }

  lemma PrependAppend(es: seq<FirewallException>, e: FirewallException, c: Completion<seq<FirewallException>>)
    ensures Prepend(es, Prepend([e], c)) == Prepend(es + [e], c)
  {
    if c.Returned? && c.result.Ok? {
      assert es + ([e] + c.result.value) == (es + [e]) + c.result.value;
    }
  }

  lemma PrependNothing(c: Completion<seq<FirewallException>>)
    ensures Prepend([], c) == c
  {
    if c.Returned? && c.result.Ok? {
      assert [] + c.result.value == c.result.value;
    }
  }

  // ---------------------------------------------------------------------------
  // The tunnel interface in the client's output

  /** The text before the interface name in the client's announcement. */
  const IFACE_MARKER: string := "net_iface_up: set "
  /** The size of the buffer the client's output is read into. */
  const BUFFER_SIZE: nat := 2048

  /** `tun[0-9]+`. */
  predicate IsTunName(name: string)
  {
    |name| > 3 && name[..3] == "tun" && AllDigits(name[3..])
  }

  /** `net_iface_up: set (tun[0-9]+) up` matches at position `i` of `text`, capturing `name`. */
  predicate Announces(text: string, i: nat, name: string)
  {
    && i + |IFACE_MARKER| + |name| + 3 <= |text|
    && text[i..i + |IFACE_MARKER| + |name| + 3] == IFACE_MARKER + name + " up"
    && IsTunName(name)
  }

  /** The number of digits in `text` from position `i` on. */
  function DigitRun(text: string, i: nat): (n: nat)
    requires i <= |text|
    ensures i + n <= |text| && AllDigits(text[i..i + n])
    ensures i + n < |text| ==> !IsDigit(text[i + n])
    decreases |text| - i
  {
    if i < |text| && IsDigit(text[i]) then
      var n := DigitRun(text, i + 1);
      assert text[i..i + 1 + n] == [text[i]] + text[i + 1..i + 1 + n];
      1 + n
    else 0
  }

  /**
    Matching at position `i`: the marker and `tun`, then the longest run of
    digits, which must be followed by ` up` (a shorter run would leave a
    digit where the space must be).
   */
  function MatchAt(text: string, i: nat): Option<string>
    requires i <= |text|
  {
    var start := i + |IFACE_MARKER| + 3;
    if start <= |text| && text[i..start] == IFACE_MARKER + "tun" then
      var n := DigitRun(text, start);
      if n > 0 && start + n + 3 <= |text| && text[start + n..start + n + 3] == " up" then
        Some("tun" + text[start..start + n])
      else None
    else None
  }

  lemma MatchAtSound(text: string, i: nat)
    requires i <= |text| && MatchAt(text, i).Some?
    ensures Announces(text, i, MatchAt(text, i).value)
  {
    var start := i + |IFACE_MARKER| + 3;
    var n := DigitRun(text, start);
    var name := "tun" + text[start..start + n];
    assert name[..3] == "tun" && name[3..] == text[start..start + n];
    assert text[i..start + n + 3] == text[i..start] + text[start..start + n] + text[start + n..start + n + 3];
  }

  lemma MatchAtComplete(text: string, i: nat, name: string)
    requires Announces(text, i, name)
    ensures MatchAt(text, i) == Some(name)
  {
    var start := i + |IFACE_MARKER| + 3;
    var digits := name[3..];
    assert name == "tun" + digits;
    AnnouncementParts(text, i, name);
    DigitRunIs(text, start, |digits|);
  }

  /** The pieces of an announcement: marker and `tun`, the digits, then ` up`. */
  lemma AnnouncementParts(text: string, i: nat, name: string)
    requires Announces(text, i, name)
    ensures var start := i + |IFACE_MARKER| + 3;
            && text[i..start] == IFACE_MARKER + "tun"
            && text[start..start + |name| - 3] == name[3..]
            && text[start + |name| - 3] == ' '
            && text[start + |name| - 3..start + |name|] == " up"
  {
    var m := |IFACE_MARKER|;
    var start := i + m + 3;
    var whole := text[i..i + m + |name| + 3];
    var digits := name[3..];
    assert name == "tun" + digits;
    assert text[i..start] == whole[..m + 3];
    assert whole[..m + 3] == IFACE_MARKER + "tun";
    forall k | 0 <= k < |digits|
      ensures text[start + k] == digits[k]
    {
      assert text[start + k] == whole[m + 3 + k];
    }
    assert text[start + |digits|] == whole[m + |name|];
    assert text[start..start + |digits|] == digits;
    assert text[start + |digits|..start + |digits| + 3] == whole[m + |name|..];
  }

  lemma {:induction false} DigitRunIs(text: string, i: nat, n: nat)
    requires i + n < |text| && AllDigits(text[i..i + n]) && !IsDigit(text[i + n])
    ensures DigitRun(text, i) == n
    decreases n
  {
    if n > 0 {
      assert IsDigit(text[i..i + n][0]);
      assert text[i + 1..i + n] == text[i..i + n][1..];
      DigitRunIs(text, i + 1, n - 1);
    }
  }

  /** The leftmost match at or after `from` (`Regex::captures`). */
  function FindInterface(text: string, from: nat): (r: Option<string>)
    requires from <= |text|
    ensures r.Some? ==> IsTunName(r.value)
    decreases |text| - from
  {
    match MatchAt(text, from)
    case Some(name) => MatchAtSound(text, from); Some(name)
    case None => if from < |text| then FindInterface(text, from + 1) else None
  }

  /**
    The search finds a name exactly when the text announces one at or after
    `from`, and what it finds is the announcement that starts first.
   */
  lemma {:induction false} FindInterfaceLeftmost(text: string, from: nat)
    requires from <= |text|
    ensures FindInterface(text, from).Some? ==>
              exists i :: from <= i <= |text| && Announces(text, i, FindInterface(text, from).value)
                          && forall j, m :: from <= j < i ==> !Announces(text, j, m)
    ensures (exists i, m :: from <= i <= |text| && Announces(text, i, m)) ==> FindInterface(text, from).Some?
    decreases |text| - from
  {
    if MatchAt(text, from).Some? {
      MatchAtSound(text, from);
    } else {
      forall m | Announces(text, from, m)
        ensures false
      {
        MatchAtComplete(text, from, m);
      }
      if from < |text| {
        FindInterfaceLeftmost(text, from + 1);
        if FindInterface(text, from).Some? {
          var i :| from + 1 <= i <= |text| && Announces(text, i, FindInterface(text, from).value)
                   && forall j, m :: from + 1 <= j < i ==> !Announces(text, j, m);
          assert forall j, m :: from <= j < i ==> !Announces(text, j, m);
        }
      }
    }
  }

  /** `String::from_utf8_lossy` on the buffer as the pattern sees it: ASCII bytes as themselves, any other byte as U+FFFD. */
  function DecodeLossy(bytes: seq<u8>): string
  {
    seq(|bytes|, i requires 0 <= i < |bytes| => if bytes[i] < 128 then bytes[i] as char else '\U{FFFD}')
  }

  /** Decoding keeps the length, keeps each ASCII byte as that character, and gives no ASCII character for any other byte. */
  lemma DecodeLossyAscii(bytes: seq<u8>)
    ensures |DecodeLossy(bytes)| == |bytes|
    ensures forall i :: 0 <= i < |bytes| ==> (DecodeLossy(bytes)[i] as int == bytes[i] as int <==> bytes[i] < 128)
    ensures forall i :: 0 <= i < |bytes| ==> (DecodeLossy(bytes)[i] as int < 128 <==> bytes[i] < 128)
  {
  }

  /** One `read` of the client's output: the bytes it delivered, or an I/O error. */
  datatype ReadResult = ReadOk(bytes: seq<u8>) | ReadErr

  /**
    The buffer after a read: the read's bytes from position 0, and the bytes
    of earlier reads beyond them, since the buffer is never cleared.
   */
  function Overlay(buffer: seq<u8>, bytes: seq<u8>): (b: seq<u8>)
    ensures |b| == |buffer|
    ensures forall i :: 0 <= i < |b| ==> b[i] == if i < |bytes| then bytes[i] else buffer[i]
  {
    if |bytes| >= |buffer| then bytes[..|buffer|] else bytes + buffer[|bytes|..]
  }

  /** How the interface loop ends. */
  datatype InterfaceOutcome = Found(name: string) | ReadError | StillWaiting

  /**
    The interface loop over the given reads: after each read the whole
    buffer is searched; a read error ends the loop; if the reads run out
    without a match the loop is still waiting for output.
   */
  function ScanReads(chunks: seq<ReadResult>, buffer: seq<u8>): InterfaceOutcome
  {
    if chunks == [] then StillWaiting
    else match chunks[0]
      case ReadErr => ReadError
      case ReadOk(bytes) =>
        var next := Overlay(buffer, bytes);
        match FindInterface(DecodeLossy(next), 0)
        case Some(name) => Found(name)
        case None => ScanReads(chunks[1..], next)
  }

  /** A zeroed buffer. */
  function Zeros(n: nat): (z: seq<u8>)
    ensures |z| == n && forall i :: 0 <= i < n ==> z[i] == 0
  {
    seq(n, _ => 0)
  }

  /** Every name the loop finds matches `tun[0-9]+` and is announced in the buffer it was read into. */
  lemma {:induction false} FoundNameIsTun(chunks: seq<ReadResult>, buffer: seq<u8>)
    requires ScanReads(chunks, buffer).Found?
    ensures IsTunName(ScanReads(chunks, buffer).name)
  {
    var bytes := chunks[0].bytes;
    var text := DecodeLossy(Overlay(buffer, bytes));
    if FindInterface(text, 0).Some? {
      FindInterfaceLeftmost(text, 0);
    } else {
      FoundNameIsTun(chunks[1..], Overlay(buffer, bytes));
    }
  }

  /** `stdout.read(&mut buffer)`: the bytes read overwrite the front of the buffer. */
  method Fill(buffer: array<u8>, bytes: seq<u8>)
    modifies buffer
    ensures buffer[..] == Overlay(old(buffer[..]), bytes)
  {
    var n := if |bytes| < buffer.Length then |bytes| else buffer.Length;
    var i := 0;
    while i < n
      invariant 0 <= i <= n
      invariant forall j :: 0 <= j < i ==> buffer[j] == bytes[j]
      invariant forall j :: i <= j < buffer.Length ==> buffer[j] == old(buffer[j])
    {
      buffer[i] := bytes[i];
      i := i + 1;
    }
  }

  /** The loop of `cmd_connect` that reads the client's output until the interface is announced. */
  method ReadInterfaceName(chunks: seq<ReadResult>) returns (r: InterfaceOutcome)
    ensures r == ScanReads(chunks, Zeros(BUFFER_SIZE))
  {
    var buffer := new u8[BUFFER_SIZE](_ => 0);
    assert buffer[..] == Zeros(BUFFER_SIZE);
    var k := 0;
    assert chunks[k..] == chunks;
    while k < |chunks|
      invariant 0 <= k <= |chunks|
      invariant buffer.Length == BUFFER_SIZE
      invariant ScanReads(chunks[k..], buffer[..]) == ScanReads(chunks, Zeros(BUFFER_SIZE))
    {
      assert chunks[k..][1..] == chunks[k + 1..];
      match chunks[k] {
        case ReadErr =>
          return ReadError;
        case ReadOk(bytes) =>
          Fill(buffer, bytes);
          var text := DecodeLossy(buffer[..]);
          var m := FindInterface(text, 0);
          if m.Some? {
            return Found(m.value);
          }
      }
      k := k + 1;
    }
    r := StillWaiting;
  }

  // ---------------------------------------------------------------------------
  // The leak verdict

  /** `IpInformation`, reduced to the address the leak check compares. */
  datatype IpInformation = IpInformation(ip: string)

  /** `get_ip_information()`: the IPv4 record and the IPv6 record. */
  datatype IpSnapshot = IpSnapshot(v4: IpInformation, v6: IpInformation)

  /** The resolvers found after connecting that were also found before, in order. */
  function MatchingDnsAddresses(after: seq<IpAddr>, before: seq<IpAddr>): (m: seq<IpAddr>)
    ensures |m| <= |after|
    ensures forall a :: a in m <==> a in after && a in before
    ensures m == [] <==> forall a :: a in after ==> a !in before
  {
    if after == [] then []
    else
      var rest := MatchingDnsAddresses(after[1..], before);
      assert forall a :: a in after <==> a == after[0] || a in after[1..];
      (if after[0] in before then [after[0]] else []) + rest
  }

  /** The outcome of the leak check. */
  datatype LeakVerdict = DnsLeak | IpLeak | NoLeak

  /**
    A DNS leak when a resolver in use after connecting was in use before; else
    an IP leak when the IPv4 addresses or the IPv6 addresses are equal.
   */
  function CheckLeaks(ipBefore: IpSnapshot, dnsBefore: seq<IpAddr>, ipAfter: IpSnapshot, dnsAfter: seq<IpAddr>)
    : (v: LeakVerdict)
    ensures v == DnsLeak <==> exists a :: a in dnsAfter && a in dnsBefore
    ensures v == IpLeak <==> (forall a :: a in dnsAfter ==> a !in dnsBefore)
                             && (ipAfter.v4.ip == ipBefore.v4.ip || ipAfter.v6.ip == ipBefore.v6.ip)
  {
    var matching := MatchingDnsAddresses(dnsAfter, dnsBefore);
    if |matching| > 0 then DnsLeak
    else if ipAfter.v4.ip == ipBefore.v4.ip || ipAfter.v6.ip == ipBefore.v6.ip then IpLeak
    else NoLeak
  }

  // ---------------------------------------------------------------------------
  // cmd_connect

  /** `root_check` on a Unix host: only user id 0 may continue. */
  function RootCheck(uid: nat): (r: Result<(), CliError>)
    ensures r.Ok? <==> uid == 0
    ensures r.Err? ==> r.error == RootRequired
  {
    if uid != 0 then Err(RootRequired) else Ok(())
  }

  /** The external steps of `cmd_connect`, in the order the code takes them. */
  datatype Event =
    | CheckRoot
    | SnapshotIpBefore
    | ResolveDnsBefore
    | ReadConfig
    | CheckAvailability
    | PreConnect(exceptions: seq<FirewallException>)
    | SpawnVpn
    | AwaitInterface
    | PostConnect(iface: string)
    | SnapshotIpAfter
    | ResolveDnsAfter
    | AwaitInterrupt
    | Teardown
    | Signal(pid: u32)

  /** The position of each step in the procedure. */
  function Stage(e: Event): nat
  {
    match e
    case CheckRoot => 0
    case SnapshotIpBefore => 1
    case ResolveDnsBefore => 2
    case ReadConfig => 3
    case CheckAvailability => 4
    case PreConnect(_) => 5
    case SpawnVpn => 6
    case AwaitInterface => 7
    case PostConnect(_) => 8
    case SnapshotIpAfter => 9
    case ResolveDnsAfter => 10
    case AwaitInterrupt => 11
    case Teardown => 12
    case Signal(_) => 13
  }

  /**
    Everything outside the process that `cmd_connect` consults, as the
    answers it gets. `configFile` is `None` when the file cannot be opened
    and `Some(None)` when it is not a valid OpenVPN file; `storedConfig` is
    `None` when there is no exception file and `Some(None)` when it cannot
    be read.
   */
  datatype Host = Host(
    uid: nat,
    ipBefore: Result<IpSnapshot, Dns.LeakError>,
    dnsBefore: Dns.DnsTestResult,
    configFile: Option<Option<seq<Directive>>>,
    parseIp: string -> Option<IpAddr>,
    parseProto: string -> Option<FirewallExceptionProtocol>,
    storedConfig: Option<Option<seq<FirewallException>>>,
    available: Result<bool, FirewallError>,
    preConnect: Outcome<FirewallError>,
    vpnPid: Option<u32>,
    vpnOutput: seq<ReadResult>,
    postConnect: Outcome<FirewallError>,
    ipAfter: Result<IpSnapshot, Dns.LeakError>,
    dnsAfter: Dns.DnsTestResult,
    interrupted: bool,
    disconnect: Outcome<FirewallError>)

  /**
    `disconnect`: tear the firewall down, then signal the client. A failed
    teardown returns its error and sends no signal.
   */
  function Disconnect(onDisconnect: Outcome<FirewallError>, processId: Option<u32>)
    : (run: (Result<(), CliError>, seq<Event>))
    ensures |run.1| >= 1 && run.1[0] == Teardown
    ensures run.0.Ok? <==> onDisconnect.Pass?
    ensures run.0.Err? ==> run.0.error == Firewall(onDisconnect.error) && run.1 == [Teardown]
    ensures run.0.Ok? && processId.Some? ==> run.1 == [Teardown, Signal(processId.value)]
  {
    if onDisconnect.Fail? then (Err(Firewall(onDisconnect.error)), [Teardown])
    else if processId.Some? then (Ok(()), [Teardown, Signal(processId.value)])
    else (Ok(()), [Teardown])
  }

  /** The exceptions of the configuration file followed by the stored ones. */
  function ConfigExceptions(h: Host): Completion<seq<FirewallException>>
  {
    match h.configFile
    case None => Returned(Err(CliError.Io))
    case Some(parsed) =>
      match ParsedExceptions(parsed, h.parseIp, h.parseProto)
      case Returned(Ok(es)) =>
        (match h.storedConfig
         case None => Returned(Ok(es))
         case Some(None) => Panicked
         case Some(Some(stored)) => Returned(Ok(es + stored)))
      case other => other
  }

  /**
    The first part of `cmd_connect`, before the firewall is touched: root
    check, baseline snapshots, the exceptions, and the availability check.
   */
  function PreflightRun(h: Host): (run: (Completion<seq<FirewallException>>, seq<Event>))
    ensures run.0.Returned? && run.0.result.Ok? ==>
              h.uid == 0 && h.ipBefore.Ok? && h.dnsBefore.Resolved? && h.available == Ok(true)
  {
    if h.uid != 0 then (Returned(Err(RootRequired)), [CheckRoot])
    else if h.ipBefore.Err? then (Returned(Err(LinkageLeakError(h.ipBefore.error))), [CheckRoot, SnapshotIpBefore])
    else if h.dnsBefore.Failed? then
      (Returned(Err(LinkageLeakError(h.dnsBefore.error))), [CheckRoot, SnapshotIpBefore, ResolveDnsBefore])
    else if h.dnsBefore.Blocked? then (Diverged, [CheckRoot, SnapshotIpBefore, ResolveDnsBefore])
    else
      match ConfigExceptions(h)
      case Returned(Ok(es)) =>
        var t := [CheckRoot, SnapshotIpBefore, ResolveDnsBefore, ReadConfig, CheckAvailability];
        if h.available.Err? then (Returned(Err(Firewall(h.available.error))), t)
        else if !h.available.value then (Returned(Err(FirewallBackendNotAvailable)), t)
        else (Returned(Ok(es)), t)
      case other => (other, [CheckRoot, SnapshotIpBefore, ResolveDnsBefore, ReadConfig])
  }

  /** The rest of `cmd_connect`, from `on_pre_connect` on. */
  function SessionRun(h: Host, exceptions: seq<FirewallException>): (Completion<()>, seq<Event>)
    requires h.ipBefore.Ok? && h.dnsBefore.Resolved?
  {
    if h.preConnect.Fail? then (Returned(Err(Firewall(h.preConnect.error))), [PreConnect(exceptions)])
    else if h.vpnPid.None? then (Panicked, [PreConnect(exceptions), SpawnVpn])
    else
      var w := WatchRun(h);
      (w.0, [PreConnect(exceptions), SpawnVpn] + w.1)
  }

  /** From waiting for the tunnel interface on. */
  function WatchRun(h: Host): (Completion<()>, seq<Event>)
    requires h.ipBefore.Ok? && h.dnsBefore.Resolved? && h.vpnPid.Some?
  {
    match ScanReads(h.vpnOutput, Zeros(BUFFER_SIZE))
    case ReadError => (Returned(Err(CliError.Io)), [AwaitInterface])
    case StillWaiting => (Diverged, [AwaitInterface])
    case Found(name) =>
      var c := ConnectedRun(h, name);
      (c.0, [AwaitInterface] + c.1)
  }

  /** From `on_post_connect` on, once the interface `name` is up. */
  function ConnectedRun(h: Host, name: string): (Completion<()>, seq<Event>)
    requires h.ipBefore.Ok? && h.dnsBefore.Resolved? && h.vpnPid.Some?
  {
    if h.postConnect.Fail? then (Returned(Err(Firewall(h.postConnect.error))), [PostConnect(name)])
    else if h.ipAfter.Err? then
      (Returned(Err(LinkageLeakError(h.ipAfter.error))), [PostConnect(name), SnapshotIpAfter])
    else if h.dnsAfter.Failed? then
      (Returned(Err(LinkageLeakError(h.dnsAfter.error))), [PostConnect(name), SnapshotIpAfter, ResolveDnsAfter])
    else if h.dnsAfter.Blocked? then (Diverged, [PostConnect(name), SnapshotIpAfter, ResolveDnsAfter])
    else
      var g := GuardRun(h);
      (g.0, [PostConnect(name), SnapshotIpAfter, ResolveDnsAfter] + g.1)
  }

  /** The leak verdict and what follows it: at once on a leak, after the interrupt otherwise. */
  function GuardRun(h: Host): (Completion<()>, seq<Event>)
    requires h.ipBefore.Ok? && h.dnsBefore.Resolved? && h.vpnPid.Some? && h.ipAfter.Ok? && h.dnsAfter.Resolved?
  {
    var d := Disconnect(h.disconnect, h.vpnPid);
    if CheckLeaks(h.ipBefore.value, h.dnsBefore.value, h.ipAfter.value, h.dnsAfter.value) != NoLeak then
      (Returned(d.0), d.1)
    else if !h.interrupted then (Diverged, [AwaitInterrupt])
    else (Returned(d.0), [AwaitInterrupt] + d.1)
  }

  /** How `cmd_connect` ends on `h`, and the steps it takes. */
  function ConnectRun(h: Host): (Completion<()>, seq<Event>)
  {
    var p := PreflightRun(h);
    match p.0
    case Returned(Ok(es)) =>
      var s := SessionRun(h, es);
      (s.0, p.1 + s.1)
    case Returned(Err(e)) => (Returned(Err(e)), p.1)
    case Panicked => (Panicked, p.1)
    case Diverged => (Diverged, p.1)
  }

  /**
    `cmd_connect`: root check, baseline, exceptions, availability check,
    `on_pre_connect`, start the client and wait for its interface,
    `on_post_connect`, the second snapshot and the leak verdict, then either
    an immediate `disconnect` on a leak or one after the interrupt.
   */
  method CmdConnect(h: Host) returns (r: Completion<()>, trace: seq<Event>)
    ensures (r, trace) == ConnectRun(h)
  {
    var prepared;
    prepared, trace := Prepare(h);
    match prepared {
      case Returned(Ok(exceptions)) =>
        var rest;
        r, rest := RunSession(h, exceptions);
        trace := trace + rest;
      case Returned(Err(e)) =>
        r := Returned(Err(e));
      case Panicked =>
        r := Panicked;
      case Diverged =>
        r := Diverged;
    }
  }

  /** The part of `cmd_connect` before `on_pre_connect`: the exceptions to install, or how the run ends. */
  method Prepare(h: Host) returns (r: Completion<seq<FirewallException>>, trace: seq<Event>)
    ensures (r, trace) == PreflightRun(h)
  {
    // Administrator privileges are required
    trace := [CheckRoot];
    var root := RootCheck(h.uid);
    if root.Err? {
      return Returned(Err(root.error)), trace;
    }
    // The addresses and resolvers before the VPN connection
    trace := [CheckRoot, SnapshotIpBefore];
    if h.ipBefore.Err? {
      return Returned(Err(LinkageLeakError(h.ipBefore.error))), trace;
    }
    trace := [CheckRoot, SnapshotIpBefore, ResolveDnsBefore];
    if h.dnsBefore.Failed? {
      return Returned(Err(LinkageLeakError(h.dnsBefore.error))), trace;
    }
    if h.dnsBefore.Blocked? {
      return Diverged, trace;
    }
    // The exceptions from the configuration file, then the stored ones
    trace := [CheckRoot, SnapshotIpBefore, ResolveDnsBefore, ReadConfig];
    if h.configFile.None? {
      return Returned(Err(CliError.Io)), trace;
    }
    r := ParseConfigurationFile(h.configFile.value, h.parseIp, h.parseProto);
    if !(r.Returned? && r.result.Ok?) {
      return;
    }
    var exceptions := r.result.value;
    if h.storedConfig.Some? {
      if h.storedConfig.value.None? {
        return Panicked, trace;
      }
      exceptions := exceptions + h.storedConfig.value.value;
    }
    // The backend must be available
    trace := [CheckRoot, SnapshotIpBefore, ResolveDnsBefore, ReadConfig, CheckAvailability];
    if h.available.Err? {
      return Returned(Err(Firewall(h.available.error))), trace;
    }
    if !h.available.value {
      return Returned(Err(FirewallBackendNotAvailable)), trace;
    }
    r := Returned(Ok(exceptions));
  }

  /** The part of `cmd_connect` from `on_pre_connect` on. */
  method RunSession(h: Host, exceptions: seq<FirewallException>) returns (r: Completion<()>, trace: seq<Event>)
    requires h.ipBefore.Ok? && h.dnsBefore.Resolved?
    ensures (r, trace) == SessionRun(h, exceptions)
  {
    trace := [PreConnect(exceptions)];
    if h.preConnect.Fail? {
      return Returned(Err(Firewall(h.preConnect.error))), trace;
    }
    trace := [PreConnect(exceptions), SpawnVpn];
    if h.vpnPid.None? {
      return Panicked, trace;
    }
    var processId := h.vpnPid.value;
    var watched := [AwaitInterface];
    var found := ReadInterfaceName(h.vpnOutput);
    if found.ReadError? {
      return Returned(Err(CliError.Io)), trace + watched;
    }
    if found.StillWaiting? {
      return Diverged, trace + watched;
    }
    var interfaceName := found.name;
    // After connect
    var connected := [PostConnect(interfaceName)];
    if h.postConnect.Fail? {
      return Returned(Err(Firewall(h.postConnect.error))), trace + (watched + connected);
    }
    // The addresses and resolvers once the connection is established
    connected := [PostConnect(interfaceName), SnapshotIpAfter];
    if h.ipAfter.Err? {
      return Returned(Err(LinkageLeakError(h.ipAfter.error))), trace + (watched + connected);
    }
    connected := [PostConnect(interfaceName), SnapshotIpAfter, ResolveDnsAfter];
    if h.dnsAfter.Failed? {
      return Returned(Err(LinkageLeakError(h.dnsAfter.error))), trace + (watched + connected);
    }
    if h.dnsAfter.Blocked? {
      return Diverged, trace + (watched + connected);
    }
    var guarded: seq<Event>;
    var verdict := CheckLeaks(h.ipBefore.value, h.dnsBefore.value, h.ipAfter.value, h.dnsAfter.value);
    if verdict != NoLeak {
      var (result, events) := Disconnect(h.disconnect, Some(processId));
      r, guarded := Returned(result), events;
    } else if !h.interrupted {
      r, guarded := Diverged, [AwaitInterrupt];
    } else {
      var (result, events) := Disconnect(h.disconnect, Some(processId));
      r, guarded := Returned(result), [AwaitInterrupt] + events;
    }
    trace := trace + (watched + (connected + guarded));
  }

  // ---------------------------------------------------------------------------
  // What the order of the steps guarantees

  /** Each step of the trace comes later in the procedure than the one before it. */
  predicate InOrder(trace: seq<Event>)
  {
    forall j :: 0 < j < |trace| ==> Stage(trace[j - 1]) < Stage(trace[j])
  }

  lemma {:induction false} InOrderPairs(trace: seq<Event>, i: nat, j: nat)
    requires InOrder(trace) && i < j < |trace|
    ensures Stage(trace[i]) < Stage(trace[j])
    decreases j - i
  {
    if i + 1 < j {
      InOrderPairs(trace, i + 1, j);
    }
  }

  lemma InOrderAppend(a: seq<Event>, b: seq<Event>)
    requires InOrder(a) && InOrder(b)
    requires a != [] && b != [] ==> Stage(a[|a| - 1]) < Stage(b[0])
    ensures InOrder(a + b)
  {
    forall j | 0 < j < |a + b|
      ensures Stage((a + b)[j - 1]) < Stage((a + b)[j])
    {
      if j == |a| {
        assert (a + b)[j - 1] == a[|a| - 1] && (a + b)[j] == b[0];
      } else if j < |a| {
        assert (a + b)[j - 1] == a[j - 1] && (a + b)[j] == a[j];
      } else {
        assert (a + b)[j - 1] == b[j - 1 - |a|] && (a + b)[j] == b[j - |a|];
      }
    }
  }

  lemma GuardInOrder(h: Host)
    requires h.ipBefore.Ok? && h.dnsBefore.Resolved? && h.vpnPid.Some? && h.ipAfter.Ok? && h.dnsAfter.Resolved?
    ensures InOrder(GuardRun(h).1)
    ensures |GuardRun(h).1| >= 1 && Stage(GuardRun(h).1[0]) >= 11
  {
    var d := Disconnect(h.disconnect, h.vpnPid);
    assert InOrder(d.1);
    InOrderAppend([AwaitInterrupt], d.1);
  }

  lemma ConnectedInOrder(h: Host, name: string)
    requires h.ipBefore.Ok? && h.dnsBefore.Resolved? && h.vpnPid.Some?
    ensures InOrder(ConnectedRun(h, name).1)
    ensures |ConnectedRun(h, name).1| >= 1 && ConnectedRun(h, name).1[0] == PostConnect(name)
  {
    var steps := [PostConnect(name), SnapshotIpAfter, ResolveDnsAfter];
    assert InOrder(steps);
    if h.postConnect.Fail? {
      assert ConnectedRun(h, name).1 == steps[..1];
    } else if h.ipAfter.Err? {
      assert ConnectedRun(h, name).1 == steps[..2];
    } else if !h.dnsAfter.Resolved? {
      assert ConnectedRun(h, name).1 == steps;
    } else {
      var g := GuardRun(h).1;
      GuardInOrder(h);
      InOrderAppend(steps, g);
      assert ConnectedRun(h, name).1 == steps + g;
    }
  }

  lemma WatchInOrder(h: Host)
    requires h.ipBefore.Ok? && h.dnsBefore.Resolved? && h.vpnPid.Some?
    ensures InOrder(WatchRun(h).1)
    ensures |WatchRun(h).1| >= 1 && WatchRun(h).1[0] == AwaitInterface
  {
    var found := ScanReads(h.vpnOutput, Zeros(BUFFER_SIZE));
    if found.Found? {
      ConnectedInOrder(h, found.name);
      InOrderAppend([AwaitInterface], ConnectedRun(h, found.name).1);
    }
  }

  lemma SessionInOrder(h: Host, exceptions: seq<FirewallException>)
    requires h.ipBefore.Ok? && h.dnsBefore.Resolved?
    ensures InOrder(SessionRun(h, exceptions).1)
    ensures |SessionRun(h, exceptions).1| >= 1 && SessionRun(h, exceptions).1[0] == PreConnect(exceptions)
  {
    if h.preConnect.Pass? && h.vpnPid.Some? {
      WatchInOrder(h);
      InOrderAppend([PreConnect(exceptions), SpawnVpn], WatchRun(h).1);
    }
  }

  /**
    Every run takes its steps in the order of the procedure, none twice, and
    the first is always the root check.
   */
  lemma StepsInOrder(h: Host)
    ensures |ConnectRun(h).1| >= 1 && ConnectRun(h).1[0] == CheckRoot
    ensures forall i, j :: 0 <= i < j < |ConnectRun(h).1| ==> Stage(ConnectRun(h).1[i]) < Stage(ConnectRun(h).1[j])
  {
    ConnectInOrder(h);
    var trace := ConnectRun(h).1;
    forall i, j | 0 <= i < j < |trace|
      ensures Stage(trace[i]) < Stage(trace[j])
    {
      InOrderPairs(trace, i, j);
    }
  }

  lemma ConnectInOrder(h: Host)
    ensures InOrder(ConnectRun(h).1)
    ensures |ConnectRun(h).1| >= 1 && ConnectRun(h).1[0] == CheckRoot
  {
    var pre := PreflightRun(h).1;
    PreflightInOrder(h);
    if PreflightRun(h).0.Returned? && PreflightRun(h).0.result.Ok? {
      var es := PreflightRun(h).0.result.value;
      SessionInOrder(h, es);
      InOrderAppend(pre, SessionRun(h, es).1);
    }
  }

  lemma PreflightInOrder(h: Host)
    ensures InOrder(PreflightRun(h).1)
    ensures |PreflightRun(h).1| >= 1 && PreflightRun(h).1[0] == CheckRoot
    ensures PreflightRun(h).0.Returned? && PreflightRun(h).0.result.Ok? ==>
              Stage(PreflightRun(h).1[|PreflightRun(h).1| - 1]) < 5
  {
    var t := [CheckRoot, SnapshotIpBefore, ResolveDnsBefore, ReadConfig, CheckAvailability];
    if h.uid != 0 {
      assert PreflightRun(h).1 == [CheckRoot];
    } else if h.ipBefore.Err? {
      assert PreflightRun(h).1 == [CheckRoot, SnapshotIpBefore];
    } else if !h.dnsBefore.Resolved? {
      assert PreflightRun(h).1 == [CheckRoot, SnapshotIpBefore, ResolveDnsBefore];
    } else if ConfigExceptions(h).Returned? && ConfigExceptions(h).result.Ok? {
      assert InOrder(t);
      assert PreflightRun(h).1 == t;
    } else {
      assert PreflightRun(h).1 == t[..4];
    }
  }

  /** A user other than root gets `RootRequired` and nothing else happens. */
  lemma NonRootStopsFirst(h: Host)
    requires h.uid != 0
    ensures ConnectRun(h) == (Returned(Err(RootRequired)), [CheckRoot])
  {
  }

  /** The trace of a run that reaches `on_pre_connect`. */
  lemma SessionTrace(h: Host)
    requires PreflightRun(h).0.Returned? && PreflightRun(h).0.result.Ok?
    ensures var es := PreflightRun(h).0.result.value;
            && ConnectRun(h).0 == SessionRun(h, es).0
            && ConnectRun(h).1
               == [CheckRoot, SnapshotIpBefore, ResolveDnsBefore, ReadConfig, CheckAvailability] + SessionRun(h, es).1
  {
  }

  /**
    `on_pre_connect` is called only after the root check, both baseline
    snapshots, reading the exceptions and an availability check that said
    yes, as the sixth step; it receives the configuration file's exceptions
    followed by the stored ones.
   */
  lemma PreConnectAfterBaseline(h: Host, exceptions: seq<FirewallException>)
    requires PreConnect(exceptions) in ConnectRun(h).1
    ensures h.uid == 0 && h.ipBefore.Ok? && h.dnsBefore.Resolved? && h.available == Ok(true)
    ensures |ConnectRun(h).1| > 5 && ConnectRun(h).1[5] == PreConnect(exceptions)
    ensures ConnectRun(h).1[..5] == [CheckRoot, SnapshotIpBefore, ResolveDnsBefore, ReadConfig, CheckAvailability]
    ensures h.configFile.Some?
    ensures var file := ParsedExceptions(h.configFile.value, h.parseIp, h.parseProto);
            && file.Returned? && file.result.Ok?
            && exceptions == file.result.value + (if h.storedConfig.Some? then h.storedConfig.value.value else [])
  {
    if !(PreflightRun(h).0.Returned? && PreflightRun(h).0.result.Ok?) {
      PreflightHasNoPreConnect(h, exceptions);
      assert false;
    }
    var es := PreflightRun(h).0.result.value;
    var t := [CheckRoot, SnapshotIpBefore, ResolveDnsBefore, ReadConfig, CheckAvailability];
    SessionTrace(h);
    var s := SessionRun(h, es).1;
    assert ConnectRun(h).1 == t + s;
    assert PreConnect(exceptions) in s;
    SessionPreConnectFirst(h, es, exceptions);
    PreflightExceptions(h);
    assert (t + s)[5] == s[0];
    assert (t + s)[..5] == t;
  }

  /** The steps before the firewall is touched never include `on_pre_connect`. */
  lemma PreflightHasNoPreConnect(h: Host, exceptions: seq<FirewallException>)
    ensures PreConnect(exceptions) !in PreflightRun(h).1
  {
  }

  /** The exceptions the first part hands on are the file's followed by the stored ones. */
  lemma PreflightExceptions(h: Host)
    requires PreflightRun(h).0.Returned? && PreflightRun(h).0.result.Ok?
    ensures h.configFile.Some?
    ensures var file := ParsedExceptions(h.configFile.value, h.parseIp, h.parseProto);
            && file.Returned? && file.result.Ok?
            && PreflightRun(h).0.result.value
               == file.result.value + (if h.storedConfig.Some? then h.storedConfig.value.value else [])
  {
  }

  /** Within the session, `on_pre_connect` is the first step and is taken only once. */
  lemma SessionPreConnectFirst(h: Host, es: seq<FirewallException>, exceptions: seq<FirewallException>)
    requires h.ipBefore.Ok? && h.dnsBefore.Resolved?
    requires PreConnect(exceptions) in SessionRun(h, es).1
    ensures exceptions == es && SessionRun(h, es).1[0] == PreConnect(es)
  {
    var s := SessionRun(h, es).1;
    SessionInOrder(h, es);
    var j :| 0 <= j < |s| && s[j] == PreConnect(exceptions);
    if j > 0 {
      InOrderPairs(s, 0, j);
      assert false;
    }
  }

  /**
    `on_post_connect` is called only with the name the interface loop
    found, which matches `tun[0-9]+`.
   */
  lemma PostConnectWithTunName(h: Host, name: string)
    requires PostConnect(name) in ConnectRun(h).1
    ensures ScanReads(h.vpnOutput, Zeros(BUFFER_SIZE)) == Found(name)
    ensures IsTunName(name)
  {
    if !(PreflightRun(h).0.Returned? && PreflightRun(h).0.result.Ok?) {
      assert false;
    }
    SessionTrace(h);
    if h.preConnect.Fail? || h.vpnPid.None? {
      assert false;
    }
    var found := ScanReads(h.vpnOutput, Zeros(BUFFER_SIZE));
    if !found.Found? {
      assert false;
    }
    assert PostConnect(name) in ConnectedRun(h, found.name).1;
    if name != found.name {
      GuardHasNoPostConnect(h, name);
      assert false;
    }
    FoundNameIsTun(h.vpnOutput, Zeros(BUFFER_SIZE));
  }

  lemma GuardHasNoPostConnect(h: Host, name: string)
    requires h.ipBefore.Ok? && h.dnsBefore.Resolved? && h.vpnPid.Some? && h.ipAfter.Ok? && h.dnsAfter.Resolved?
    ensures PostConnect(name) !in GuardRun(h).1
  {
  }

  /**
    Once `on_pre_connect` has succeeded, a read error, a failing
    `on_post_connect` or a failing second snapshot ends the run with that
    error and without teardown: the rules stay in place and the client keeps
    running.
   */
  lemma SessionErrorsSkipTeardown(h: Host)
    requires PreflightRun(h).0.Returned? && PreflightRun(h).0.result.Ok?
    requires h.preConnect.Pass? && h.vpnPid.Some?
    requires || ScanReads(h.vpnOutput, Zeros(BUFFER_SIZE)).ReadError?
             || (ScanReads(h.vpnOutput, Zeros(BUFFER_SIZE)).Found?
                 && (h.postConnect.Fail? || h.ipAfter.Err? || h.dnsAfter.Failed?))
    ensures ConnectRun(h).0.Returned? && ConnectRun(h).0.result.Err?
    ensures Teardown !in ConnectRun(h).1
    ensures forall p :: Signal(p) !in ConnectRun(h).1
  {
    SessionTrace(h);
  }

  /**
    A failing `on_pre_connect` ends the run with its error at once: the
    client is not started, and neither teardown nor signal follows.
   */
  lemma PreConnectFailureSkipsTeardown(h: Host)
    requires PreflightRun(h).0.Returned? && PreflightRun(h).0.result.Ok?
    requires h.preConnect.Fail?
    ensures ConnectRun(h).0 == Returned(Err(Firewall(h.preConnect.error)))
    ensures ConnectRun(h).1[|ConnectRun(h).1| - 1] == PreConnect(PreflightRun(h).0.result.value)
    ensures SpawnVpn !in ConnectRun(h).1 && Teardown !in ConnectRun(h).1
    ensures forall p :: Signal(p) !in ConnectRun(h).1
  {
    SessionTrace(h);
  }

  /**
    A second DNS test whose answers never all arrive blocks the run for good
    with the rules installed and the client running: no teardown, no signal.
   */
  lemma BlockedDnsTestHangs(h: Host)
    requires PreflightRun(h).0.Returned? && PreflightRun(h).0.result.Ok?
    requires h.preConnect.Pass? && h.vpnPid.Some? && ScanReads(h.vpnOutput, Zeros(BUFFER_SIZE)).Found?
    requires h.postConnect.Pass? && h.ipAfter.Ok? && h.dnsAfter.Blocked?
    ensures ConnectRun(h).0 == Diverged
    ensures ConnectRun(h).1[|ConnectRun(h).1| - 1] == ResolveDnsAfter
    ensures Teardown !in ConnectRun(h).1
    ensures forall p :: Signal(p) !in ConnectRun(h).1
  {
    var es := PreflightRun(h).0.result.value;
    var name := ScanReads(h.vpnOutput, Zeros(BUFFER_SIZE)).name;
    SessionTrace(h);
    SessionFound(h, es);
    assert ConnectRun(h).1
           == [CheckRoot, SnapshotIpBefore, ResolveDnsBefore, ReadConfig, CheckAvailability,
               PreConnect(es), SpawnVpn, AwaitInterface, PostConnect(name), SnapshotIpAfter, ResolveDnsAfter];
  }

  /** Once the interface is found, the session goes on as the connected part does. */
  lemma SessionFound(h: Host, es: seq<FirewallException>)
    requires h.ipBefore.Ok? && h.dnsBefore.Resolved?
    requires h.preConnect.Pass? && h.vpnPid.Some? && ScanReads(h.vpnOutput, Zeros(BUFFER_SIZE)).Found?
    ensures var c := ConnectedRun(h, ScanReads(h.vpnOutput, Zeros(BUFFER_SIZE)).name);
            && SessionRun(h, es).0 == c.0
            && SessionRun(h, es).1 == [PreConnect(es), SpawnVpn, AwaitInterface] + c.1
  {
  }

  /** A first DNS test that never completes blocks the run before the firewall is touched. */
  lemma BlockedBaselineHangs(h: Host)
    requires h.uid == 0 && h.ipBefore.Ok? && h.dnsBefore.Blocked?
    ensures ConnectRun(h) == (Diverged, [CheckRoot, SnapshotIpBefore, ResolveDnsBefore])
  {
  }

  /** The run reaches the leak verdict: every step up to the second DNS test succeeded. */
  predicate ReachesVerdict(h: Host)
  {
    && PreflightRun(h).0.Returned? && PreflightRun(h).0.result.Ok?
    && h.preConnect.Pass? && h.vpnPid.Some?
    && ScanReads(h.vpnOutput, Zeros(BUFFER_SIZE)).Found?
    && h.postConnect.Pass? && h.ipAfter.Ok? && h.dnsAfter.Resolved?
  }

  lemma VerdictTrace(h: Host)
    requires ReachesVerdict(h)
    ensures ConnectRun(h).0 == GuardRun(h).0
    ensures ConnectRun(h).1
            == [CheckRoot, SnapshotIpBefore, ResolveDnsBefore, ReadConfig, CheckAvailability,
                PreConnect(PreflightRun(h).0.result.value), SpawnVpn, AwaitInterface,
                PostConnect(ScanReads(h.vpnOutput, Zeros(BUFFER_SIZE)).name), SnapshotIpAfter, ResolveDnsAfter]
               + GuardRun(h).1
  {
    var es := PreflightRun(h).0.result.value;
    SessionTrace(h);
    SessionFound(h, es);
  }

  /**
    A leak found after connecting tears the firewall down at once, without
    waiting for an interrupt; the run returns what `disconnect` returns, and
    the client is signalled only when the teardown succeeded.
   */
  lemma LeakTriggersDisconnect(h: Host)
    requires ReachesVerdict(h)
    requires CheckLeaks(h.ipBefore.value, h.dnsBefore.value, h.ipAfter.value, h.dnsAfter.value) != NoLeak
    ensures ConnectRun(h).0 == Returned(if h.disconnect.Pass? then Ok(()) else Err(Firewall(h.disconnect.error)))
    ensures AwaitInterrupt !in ConnectRun(h).1
    ensures h.disconnect.Pass? ==> ConnectRun(h).1[|ConnectRun(h).1| - 2..] == [Teardown, Signal(h.vpnPid.value)]
    ensures h.disconnect.Fail? ==> ConnectRun(h).1[|ConnectRun(h).1| - 1] == Teardown
  {
    VerdictTrace(h);
    var trace := ConnectRun(h).1;
    var prefix := trace[..11];
    var d := Disconnect(h.disconnect, h.vpnPid);
    assert GuardRun(h) == (Returned(d.0), d.1);
    assert trace == prefix + d.1;
    assert AwaitInterrupt !in prefix;
    if h.disconnect.Pass? {
      assert d.1 == [Teardown, Signal(h.vpnPid.value)];
    } else {
      assert d.1 == [Teardown];
    }
  }

  /**
    Without a leak the rules stay until the interrupt: the run waits, and
    the teardown comes only after the interrupt arrived.
   */
  lemma NoLeakWaitsForInterrupt(h: Host)
    requires ReachesVerdict(h)
    requires CheckLeaks(h.ipBefore.value, h.dnsBefore.value, h.ipAfter.value, h.dnsAfter.value) == NoLeak
    ensures !h.interrupted ==> ConnectRun(h).0 == Diverged && Teardown !in ConnectRun(h).1
    ensures h.interrupted ==>
              && ConnectRun(h).0 == Returned(if h.disconnect.Pass? then Ok(()) else Err(Firewall(h.disconnect.error)))
              && ConnectRun(h).1[11..13] == [AwaitInterrupt, Teardown]
  {
    VerdictTrace(h);
  }
}
