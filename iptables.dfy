/**
  The iptables firewall backend: the rule programs that `on_pre_connect` and
  `on_disconnect` send to an executor.

  Each program is given twice: as a specification function listing the
  commands in order (`PreConnectCommands`, `DisconnectCommands`), and as
  methods that issue them one by one through a `RecordingExecutor`, returning
  at the first failure as Rust's `?` does. `Run` is what sending a program to
  such an executor does; every method is proved to do exactly that, and
  `RunStopsAtFirstFailure` characterises `Run` without recursion. The lemmas
  at the end state what the programs guarantee.
 */
module IpTables {
  import opened Wrappers
  import opened Net
  import opened Firewalls
  import opened Executor

  /** The chain that handles `ACCEPT` for the `INPUT` chain. */
  const IN_ACCEPT_CHAIN_NAME: string := "in_accept"
  /** The chain that handles `ACCEPT` for the `OUTPUT` chain. */
  const OUT_ACCEPT_CHAIN_NAME: string := "out_accept"

  // ---------------------------------------------------------------------------
  // Shapes of commands

  /** `-P <chain> <target>`: sets a chain's default policy. */
  predicate SetsPolicy(c: Command, target: string)
  {
    |c| == 3 && c[0] == "-P" && c[2] == target
  }

  /** `-N <chain>`: creates a chain. */
  predicate CreatesChain(c: Command)
  {
    |c| == 2 && c[0] == "-N"
  }

  /** The command appends a rule to `chain` or jumps to `chain`. */
  predicate UsesChain(c: Command, chain: string)
  {
    |c| >= 2 && ((c[0] == "-A" && c[1] == chain) || (c[|c| - 2] == "-j" && c[|c| - 1] == chain))
  }

  /** The command restricts a rule to a destination address, as every exception rule does. */
  predicate NamesDestination(c: Command)
  {
    "-d" in c
  }

  // ---------------------------------------------------------------------------
  // The commands the backend builds

  /** `-P <chain> <target>`. */
  function Policy(chain: string, target: string): (c: Command)
    ensures SetsPolicy(c, target) && c[1] == chain
  {
    ["-P", chain, target]
  }

  /** `-A <chain> -m state --state <states> -j <target>`. */
  function StateRule(chain: string, states: string, target: string): (c: Command)
    ensures UsesChain(c, chain) && UsesChain(c, target)
  {
    ["-A", chain, "-m", "state", "--state", states, "-j", target]
  }

  /** `-A <chain> <-i|-o> lo -j ACCEPT`. */
  function LoopbackRule(chain: string, direction: string): (c: Command)
    ensures UsesChain(c, chain)
  {
    ["-A", chain, direction, "lo", "-j", "ACCEPT"]
  }

  /** `-N <chain>`. */
  function NewChain(chain: string): (c: Command)
    ensures CreatesChain(c) && c[1] == chain
  {
    ["-N", chain]
  }

  /** `-X <chain>`. */
  function DeleteChain(chain: string): Command
  {
    ["-X", chain]
  }

  // ---------------------------------------------------------------------------
  // The programs

  /** The default policy `target` for INPUT, OUTPUT and FORWARD, in that order. */
  function PolicyRules(target: string): (p: seq<Command>)
    ensures |p| == 3 && forall j :: 0 <= j < 3 ==> SetsPolicy(p[j], target)
  {
    [Policy("INPUT", target), Policy("OUTPUT", target), Policy("FORWARD", target)]
  }

  /** For each chain in turn: accept related/established traffic, then drop invalid packets. */
  function StateRules(chains: seq<string>): (p: seq<Command>)
    ensures |p| == 2 * |chains|
  {
    if chains == [] then []
    else [StateRule(chains[0], "RELATED,ESTABLISHED", "ACCEPT"), StateRule(chains[0], "INVALID", "DROP")]
         + StateRules(chains[1..])
  }

  /** Create `chain` and hook it into `hook` for new and untracked connections. */
  function AcceptChainRules(chain: string, hook: string): (p: seq<Command>)
    ensures |p| == 2 && CreatesChain(p[0]) && p[0][1] == chain && UsesChain(p[1], hook) && UsesChain(p[1], chain)
  {
    [NewChain(chain), StateRule(hook, "NEW,UNTRACKED", chain)]
  }

  /** The thirteen commands `on_pre_connect` issues before any exception rule. */
  function DefaultRules(): (p: seq<Command>)
    ensures |p| == 13
  {
    PolicyRules("DROP")
    + StateRules(["INPUT", "OUTPUT"])
    + [LoopbackRule("INPUT", "-i"), LoopbackRule("OUTPUT", "-o")]
    + AcceptChainRules(IN_ACCEPT_CHAIN_NAME, "INPUT")
    + AcceptChainRules(OUT_ACCEPT_CHAIN_NAME, "OUTPUT")
  }

  /** The iptables argument of a protocol is its name in lower case. */
  lemma ProtocolArgIsLowerName(p: FirewallExceptionProtocol)
    ensures |ProtocolArg(p)| == |ProtocolName(p)| == 3
    ensures forall i :: 0 <= i < 3 ==> ProtocolArg(p)[i] as int == ProtocolName(p)[i] as int + 32
  {
  }

  /** The argument iptables expects for a protocol. */
  function ProtocolArg(p: FirewallExceptionProtocol): (s: string)
    ensures s == "tcp" || s == "udp"
    ensures s == "tcp" <==> p == TCP
  {
    match p
    case TCP => "tcp"
    case UDP => "udp"
  }

  /** The allow-rule appended to `out_accept` for one IPv4 exception. */
  function ExceptionRule(e: FirewallException): (c: Command)
    ensures |c| == 12 && UsesChain(c, OUT_ACCEPT_CHAIN_NAME) && NamesDestination(c)
  {
    var p := ProtocolArg(e.protocol);
    ["-A", OUT_ACCEPT_CHAIN_NAME, "-d", IpToString(e.host) + "/32", "-p", p, "-m", p,
     "--dport", Decimal(e.port), "-j", "ACCEPT"]
  }

  /**
    The tokens of an exception rule: the host as a /32 destination, the
    protocol as both `-p` and `-m` argument, and the port in decimal.
   */
  lemma ExceptionRuleTokens(e: FirewallException)
    ensures var c := ExceptionRule(e);
            && c[0] == "-A" && c[1] == "out_accept"
            && c[2] == "-d" && c[3] == IpToString(e.host) + "/32"
            && c[4] == "-p" && c[5] == ProtocolArg(e.protocol)
            && c[6] == "-m" && c[7] == ProtocolArg(e.protocol)
            && c[8] == "--dport" && c[9] == Decimal(e.port)
            && c[10] == "-j" && c[11] == "ACCEPT"
  {
  }

  /** The IPv4 exceptions of `es`, in their order. */
  function Ipv4Only(es: seq<FirewallException>): (r: seq<FirewallException>)
    ensures |r| <= |es|
    ensures forall i :: 0 <= i < |r| ==> IsIpv4(r[i].host) && r[i] in es
  {
    if es == [] then []
    else (if IsIpv4(es[0].host) then [es[0]] else []) + Ipv4Only(es[1..])
  }

  /** No IPv4 exception is dropped, and a list of IPv4 exceptions only is kept whole. */
  lemma {:induction false} Ipv4OnlyComplete(es: seq<FirewallException>)
    ensures forall i :: 0 <= i < |es| && IsIpv4(es[i].host) ==> es[i] in Ipv4Only(es)
    ensures (forall i :: 0 <= i < |es| ==> IsIpv4(es[i].host)) ==> Ipv4Only(es) == es
  {
    if es != [] {
      Ipv4OnlyComplete(es[1..]);
      assert forall i :: 1 <= i < |es| ==> es[i] == es[1..][i - 1];
      assert es == [es[0]] + es[1..];
    }
  }

  /**
    Filtering a concatenation filters each part, and a single exception is
    kept exactly when it is IPv4: so every IPv4 exception is kept, once, in
    input order.
   */
  lemma {:induction false} Ipv4OnlyAppend(a: seq<FirewallException>, b: seq<FirewallException>)
    ensures Ipv4Only(a + b) == Ipv4Only(a) + Ipv4Only(b)
    ensures |a| == 1 ==> Ipv4Only(a) == if IsIpv4(a[0].host) then a else []
  {
    if a == [] {
      assert a + b == b;
    } else {
      var head := if IsIpv4(a[0].host) then [a[0]] else [];
      assert (a + b)[0] == a[0];
      assert (a + b)[1..] == a[1..] + b;
      Ipv4OnlyAppend(a[1..], b);
      calc {
        Ipv4Only(a + b);
        head + Ipv4Only(a[1..] + b);
        head + (Ipv4Only(a[1..]) + Ipv4Only(b));
        (head + Ipv4Only(a[1..])) + Ipv4Only(b);
        Ipv4Only(a) + Ipv4Only(b);
      }
      if |a| == 1 {
        assert a[1..] == [];
        assert Ipv4Only(a) == head + [];
      }
    }
  }

  /** The exception rules, as the loop over the exceptions issues them. */
  function ExceptionRules(es: seq<FirewallException>): seq<Command>
  {
    if es == [] then []
    else (if IsIpv4(es[0].host) then [ExceptionRule(es[0])] else []) + ExceptionRules(es[1..])
  }

  /** Everything `on_pre_connect` issues when no command fails. */
  function PreConnectCommands(es: seq<FirewallException>): seq<Command>
  {
    DefaultRules() + ExceptionRules(es)
  }

  /** Everything `on_disconnect` issues when no command fails. */
  function DisconnectCommands(): (p: seq<Command>)
    ensures |p| == 6
  {
    PolicyRules("ACCEPT") + [["-F"], DeleteChain(IN_ACCEPT_CHAIN_NAME), DeleteChain(OUT_ACCEPT_CHAIN_NAME)]
  }

  // ---------------------------------------------------------------------------
  // Running a program through an executor

  /**
    The executor's log went from `before` to `after` by issuing `program` in
    order and stopping at the first failing command: `r` is that command's
    error and no later command was issued; or nothing failed, every command was
    issued and `r` is `Pass`.
   */
  ghost predicate RanToFirstFailure(program: seq<Command>, failures: map<nat, FirewallError>,
                                    before: seq<Command>, after: seq<Command>, r: Outcome<FirewallError>)
  {
    && |before| <= |after| <= |before| + |program|
    && (forall i :: 0 <= i < |before| ==> after[i] == before[i])
    && (forall i :: |before| <= i < |after| ==> after[i] == program[i - |before|])
    && (forall i :: |before| <= i < |after| - 1 ==> i !in failures)
    && match r
       case Pass => |after| == |before| + |program| && (|after| == |before| || |after| - 1 !in failures)
       case Fail(e) => |before| < |after| && |after| - 1 in failures && e == failures[|after| - 1]
  }

  /**
    The log and the result of sending `program[from..]` to a
    `RecordingExecutor` whose log is `log`, where every call returns at the
    first error (Rust's `?`).
   */
  function Run(program: seq<Command>, from: nat, failures: map<nat, FirewallError>, log: seq<Command>)
    : (seq<Command>, Outcome<FirewallError>)
    decreases |program| - from
  {
    if from >= |program| then (log, Pass)
    else if |log| in failures then (log + [program[from]], Fail(failures[|log|]))
    else Run(program, from + 1, failures, log + [program[from]])
  }

  /** `Run` issues the program in order and stops at the first failing command. */
  lemma {:induction false} RunStopsAtFirstFailure(program: seq<Command>, from: nat,
                                                  failures: map<nat, FirewallError>, log: seq<Command>)
    requires from <= |program|
    ensures RanToFirstFailure(program[from..], failures, log,
                              Run(program, from, failures, log).0, Run(program, from, failures, log).1)
    decreases |program| - from
  {
    if from < |program| && |log| !in failures {
      RunStopsAtFirstFailure(program, from + 1, failures, log + [program[from]]);
    }
  }

  /** The log of such a run is the old log followed by a prefix of the program. */
  lemma RanToFirstFailureLog(program: seq<Command>, failures: map<nat, FirewallError>,
                             before: seq<Command>, after: seq<Command>, r: Outcome<FirewallError>)
    requires RanToFirstFailure(program, failures, before, after, r)
    ensures after == before + program[..|after| - |before|]
  {
    var n := |after| - |before|;
    assert forall i :: 0 <= i < |after| ==> after[i] == (before + program[..n])[i];
  }

  /**
    A program, its failures and the old log determine the new log and the
    result: `Run` is the only run that stops at the first failure.
   */
  lemma RanToFirstFailureUnique(program: seq<Command>, failures: map<nat, FirewallError>, before: seq<Command>,
                                after: seq<Command>, r: Outcome<FirewallError>)
    requires RanToFirstFailure(program, failures, before, after, r)
    ensures (after, r) == Run(program, 0, failures, before)
  {
    var (after', r') := Run(program, 0, failures, before);
    RunStopsAtFirstFailure(program, 0, failures, before);
    assert program[0..] == program;
    RanToFirstFailureLog(program, failures, before, after, r);
    RanToFirstFailureLog(program, failures, before, after', r');
  }

  /** The run succeeds exactly when no call of the program fails. */
  lemma RunPassesIffNoFailure(program: seq<Command>, failures: map<nat, FirewallError>, before: seq<Command>)
    ensures Run(program, 0, failures, before).1.Pass?
            <==> forall i :: |before| <= i < |before| + |program| ==> i !in failures
  {
    RunStopsAtFirstFailure(program, 0, failures, before);
    assert program[0..] == program;
  }

  /** Running `a + b` from a position inside `b` is running `b` from there. */
  lemma {:induction false} RunShift(a: seq<Command>, b: seq<Command>, j: nat,
                                    failures: map<nat, FirewallError>, log: seq<Command>)
    ensures Run(a + b, |a| + j, failures, log) == Run(b, j, failures, log)
    decreases |b| - j
  {
    if j < |b| && |log| !in failures {
      RunShift(a, b, j + 1, failures, log + [b[j]]);
    }
  }

  /**
    Running a program whose commands from position `j` on begin with `block`
    runs `block` from position `i` and then, only if it passed, the program
    from the end of the block.
   */
  lemma {:induction false} RunBlock(program: seq<Command>, j: nat, block: seq<Command>, i: nat,
                                    failures: map<nat, FirewallError>, log: seq<Command>)
    requires j + |block| <= |program| && program[j..j + |block|] == block && i <= |block|
    ensures Run(program, j + i, failures, log)
            == if Run(block, i, failures, log).1.Pass? then Run(program, j + |block|, failures, Run(block, i, failures, log).0)
               else Run(block, i, failures, log)
    decreases |block| - i
  {
    if i < |block| {
      assert program[j + i] == program[j..j + |block|][i];
      if |log| !in failures {
        RunBlock(program, j, block, i + 1, failures, log + [block[i]]);
      }
    }
  }

  /**
    Running `a + b` runs `a`, and then, only if every command of `a` passed,
    runs `b` from the log `a` left behind.
   */
  lemma RunAppend(a: seq<Command>, b: seq<Command>, failures: map<nat, FirewallError>, log: seq<Command>)
    ensures Run(a + b, 0, failures, log)
            == if Run(a, 0, failures, log).1.Pass? then Run(b, 0, failures, Run(a, 0, failures, log).0)
               else Run(a, 0, failures, log)
  {
    assert (a + b)[0..|a|] == a;
    RunBlock(a + b, 0, a, 0, failures, log);
    RunShift(a, b, 0, failures, Run(a, 0, failures, log).0);
  }

  /**
    The command at position `j` of a program. `spec` is the run of the
    commands still to come from the log issued so far: if this call fails the
    run ends with it, otherwise the run goes on from `j + 1` with the longer log.
   */
  lemma IssueNext(program: seq<Command>, j: nat, failures: map<nat, FirewallError>,
                  log: seq<Command>, args: Command, spec: (seq<Command>, Outcome<FirewallError>))
    requires j < |program| && args == program[j]
    requires Run(program, j, failures, log) == spec
    ensures |log| in failures ==> spec == (log + [args], Fail(failures[|log|]))
    ensures |log| !in failures ==> Run(program, j + 1, failures, log + [args]) == spec
  {
  }

  /** `IssueNext` for the first command of `[args] + rest`. */
  lemma IssueFirst(args: Command, rest: seq<Command>, failures: map<nat, FirewallError>,
                   log: seq<Command>, spec: (seq<Command>, Outcome<FirewallError>))
    requires Run([args] + rest, 0, failures, log) == spec
    ensures |log| in failures ==> spec == (log + [args], Fail(failures[|log|]))
    ensures |log| !in failures ==> Run(rest, 0, failures, log + [args]) == spec
  {
    if |log| !in failures {
      RunShift([args], rest, 0, failures, log + [args]);
    }
  }

  /** `IssueNext` for the block of commands at positions `j` up to `j + |block|`. */
  lemma IssueBlock(program: seq<Command>, j: nat, block: seq<Command>, failures: map<nat, FirewallError>,
                   log: seq<Command>, spec: (seq<Command>, Outcome<FirewallError>))
    requires j + |block| <= |program| && program[j..j + |block|] == block
    requires Run(program, j, failures, log) == spec
    ensures Run(block, 0, failures, log).1.Fail? ==> spec == Run(block, 0, failures, log)
    ensures Run(block, 0, failures, log).1.Pass? ==>
              Run(program, j + |block|, failures, Run(block, 0, failures, log).0) == spec
  {
    RunBlock(program, j, block, 0, failures, log);
  }

  // ---------------------------------------------------------------------------
  // The backend operations

  /**
    `IpTablesFirewall::on_pre_connect`: the thirteen fixed commands
    (`AddDefaultRules`), then one allow-rule per IPv4 exception
    (`AddExceptionRules`); the first failure ends it.
   */
  method OnPreConnect(executor: RecordingExecutor, exceptions: seq<FirewallException>)
    returns (r: Outcome<FirewallError>)
    modifies executor
    ensures (executor.log, r) == Run(PreConnectCommands(exceptions), 0, executor.failures, old(executor.log))
  {
    RunAppend(DefaultRules(), ExceptionRules(exceptions), executor.failures, executor.log);
    :- AddDefaultRules(executor);
    r := AddExceptionRules(executor, exceptions);
  }

  /**
    The first part of `on_pre_connect`: default-deny policies, the state rules
    of INPUT and OUTPUT, loopback traffic, and the two accept chains with their
    hooks.
   */
  method AddDefaultRules(executor: RecordingExecutor) returns (r: Outcome<FirewallError>)
    modifies executor
    ensures (executor.log, r) == Run(DefaultRules(), 0, executor.failures, old(executor.log))
  {
    ghost var program := DefaultRules();
    ghost var failures := executor.failures;
    ghost var spec := Run(program, 0, failures, executor.log);
    DefaultRulesLayout();
    // Default policies
    IssueBlock(program, 0, PolicyRules("DROP"), failures, executor.log, spec);
    :- SetPolicies(executor, "DROP");
    // Related/established traffic is allowed and invalid packets are dropped
    IssueBlock(program, 3, StateRules(["INPUT", "OUTPUT"]), failures, executor.log, spec);
    :- AddStateRules(executor, ["INPUT", "OUTPUT"]);
    // Loopback traffic
    IssueNext(program, 7, failures, executor.log, LoopbackRule("INPUT", "-i"), spec);
    :- executor.Execute(LoopbackRule("INPUT", "-i"));
    IssueNext(program, 8, failures, executor.log, LoopbackRule("OUTPUT", "-o"), spec);
    :- executor.Execute(LoopbackRule("OUTPUT", "-o"));
    // The chains for incoming and outgoing allow-rules, each hooked up
    IssueBlock(program, 9, AcceptChainRules(IN_ACCEPT_CHAIN_NAME, "INPUT"), failures, executor.log, spec);
    :- AddAcceptChain(executor, IN_ACCEPT_CHAIN_NAME, "INPUT");
    IssueBlock(program, 11, AcceptChainRules(OUT_ACCEPT_CHAIN_NAME, "OUTPUT"), failures, executor.log, spec);
    :- AddAcceptChain(executor, OUT_ACCEPT_CHAIN_NAME, "OUTPUT");
    r := Pass;
  }

  /** The three default-policy commands both operations start with. */
  method SetPolicies(executor: RecordingExecutor, target: string) returns (r: Outcome<FirewallError>)
    modifies executor
    ensures (executor.log, r) == Run(PolicyRules(target), 0, executor.failures, old(executor.log))
  {
    ghost var program := PolicyRules(target);
    ghost var spec := Run(program, 0, executor.failures, executor.log);
    IssueNext(program, 0, executor.failures, executor.log, Policy("INPUT", target), spec);
    :- executor.Execute(Policy("INPUT", target));
    IssueNext(program, 1, executor.failures, executor.log, Policy("OUTPUT", target), spec);
    :- executor.Execute(Policy("OUTPUT", target));
    IssueNext(program, 2, executor.failures, executor.log, Policy("FORWARD", target), spec);
    :- executor.Execute(Policy("FORWARD", target));
    r := Pass;
  }

  /** The loop of `on_pre_connect` over the chains INPUT and OUTPUT. */
  method AddStateRules(executor: RecordingExecutor, chains: seq<string>) returns (r: Outcome<FirewallError>)
    modifies executor
    ensures (executor.log, r) == Run(StateRules(chains), 0, executor.failures, old(executor.log))
  {
    ghost var failures := executor.failures;
    ghost var spec := Run(StateRules(chains), 0, failures, executor.log);
    var c := 0;
    assert chains[c..] == chains;
    while c < |chains|
      invariant 0 <= c <= |chains|
      invariant Run(StateRules(chains[c..]), 0, failures, executor.log) == spec
    {
      var accept := StateRule(chains[c], "RELATED,ESTABLISHED", "ACCEPT");
      var drop := StateRule(chains[c], "INVALID", "DROP");
      assert chains[c..][1..] == chains[c + 1..];
      assert StateRules(chains[c..]) == [accept] + ([drop] + StateRules(chains[c + 1..]));
      // Related/established traffic is allowed
      IssueFirst(accept, [drop] + StateRules(chains[c + 1..]), failures, executor.log, spec);
      :- executor.Execute(accept);
      // Invalid packets are dropped
      IssueFirst(drop, StateRules(chains[c + 1..]), failures, executor.log, spec);
      :- executor.Execute(drop);
      c := c + 1;
    }
    r := Pass;
  }

  /**
    The two-command step `on_pre_connect` takes for each accept chain: create
    `chain`, then send new and untracked traffic of `hook` to it.
   */
  method AddAcceptChain(executor: RecordingExecutor, chain: string, hook: string)
    returns (r: Outcome<FirewallError>)
    modifies executor
    ensures (executor.log, r) == Run(AcceptChainRules(chain, hook), 0, executor.failures, old(executor.log))
  {
    ghost var program := AcceptChainRules(chain, hook);
    ghost var spec := Run(program, 0, executor.failures, executor.log);
    IssueNext(program, 0, executor.failures, executor.log, NewChain(chain), spec);
    :- executor.Execute(NewChain(chain));
    IssueNext(program, 1, executor.failures, executor.log, StateRule(hook, "NEW,UNTRACKED", chain), spec);
    :- executor.Execute(StateRule(hook, "NEW,UNTRACKED", chain));
    r := Pass;
  }

  /**
    The loop at the end of `on_pre_connect`: one allow-rule in `out_accept`
    per IPv4 exception, in order; IPv6 exceptions are skipped.
   */
  method AddExceptionRules(executor: RecordingExecutor, exceptions: seq<FirewallException>)
    returns (r: Outcome<FirewallError>)
    modifies executor
    ensures (executor.log, r) == Run(ExceptionRules(exceptions), 0, executor.failures, old(executor.log))
  {
    ghost var failures := executor.failures;
    ghost var spec := Run(ExceptionRules(exceptions), 0, failures, executor.log);
    var k := 0;
    assert exceptions[k..] == exceptions;
    while k < |exceptions|
      invariant 0 <= k <= |exceptions|
      invariant Run(ExceptionRules(exceptions[k..]), 0, failures, executor.log) == spec
    {
      var e := exceptions[k];
      ExceptionRulesFrom(exceptions, k);
      if IsIpv4(e.host) {
        var protocol := match e.protocol case TCP => "tcp" case UDP => "udp";
        var rule := ["-A", OUT_ACCEPT_CHAIN_NAME, "-d", IpToString(e.host) + "/32", "-p",
                     protocol, "-m", protocol, "--dport", Decimal(e.port), "-j", "ACCEPT"];
        assert rule == ExceptionRule(e);
        IssueFirst(rule, ExceptionRules(exceptions[k + 1..]), failures, executor.log, spec);
        :- executor.Execute(rule);
      } else {
        assert [] + ExceptionRules(exceptions[k + 1..]) == ExceptionRules(exceptions[k + 1..]);
      }
      k := k + 1;
    }
    assert exceptions[k..] == [];
    r := Pass;
  }

  /**
    `IpTablesFirewall::on_disconnect`: default-accept policies, flush, then
    delete the two accept chains. Every step uses `?`, so a failing step ends
    the teardown there.
   */
  method OnDisconnect(executor: RecordingExecutor) returns (r: Outcome<FirewallError>)
    modifies executor
    ensures (executor.log, r) == Run(DisconnectCommands(), 0, executor.failures, old(executor.log))
  {
    ghost var program := DisconnectCommands();
    ghost var failures := executor.failures;
    ghost var spec := Run(program, 0, failures, executor.log);
    assert program[0..3] == PolicyRules("ACCEPT");
    // Default policies
    IssueBlock(program, 0, PolicyRules("ACCEPT"), failures, executor.log, spec);
    :- SetPolicies(executor, "ACCEPT");
    // Flush rules
    IssueNext(program, 3, failures, executor.log, ["-F"], spec);
    :- executor.Execute(["-F"]);
    // Delete the created chains
    IssueNext(program, 4, failures, executor.log, DeleteChain(IN_ACCEPT_CHAIN_NAME), spec);
    :- executor.Execute(DeleteChain(IN_ACCEPT_CHAIN_NAME));
    IssueNext(program, 5, failures, executor.log, DeleteChain(OUT_ACCEPT_CHAIN_NAME), spec);
    :- executor.Execute(DeleteChain(OUT_ACCEPT_CHAIN_NAME));
    r := Pass;
  }

  // ---------------------------------------------------------------------------
  // The layout of the default rules

  /** The blocks of the thirteen fixed commands, in the order `on_pre_connect` issues them. */
  lemma DefaultRulesLayout()
    ensures DefaultRules()[0..3] == PolicyRules("DROP")
    ensures DefaultRules()[3..7] == StateRules(["INPUT", "OUTPUT"])
    ensures DefaultRules()[7] == LoopbackRule("INPUT", "-i")
    ensures DefaultRules()[8] == LoopbackRule("OUTPUT", "-o")
    ensures DefaultRules()[9..11] == AcceptChainRules(IN_ACCEPT_CHAIN_NAME, "INPUT")
    ensures DefaultRules()[11..13] == AcceptChainRules(OUT_ACCEPT_CHAIN_NAME, "OUTPUT")
  {
  }

  /** The thirteen fixed commands written out. */
  lemma DefaultRulesListed()
    ensures DefaultRules()
            == [["-P", "INPUT", "DROP"],
                ["-P", "OUTPUT", "DROP"],
                ["-P", "FORWARD", "DROP"],
                ["-A", "INPUT", "-m", "state", "--state", "RELATED,ESTABLISHED", "-j", "ACCEPT"],
                ["-A", "INPUT", "-m", "state", "--state", "INVALID", "-j", "DROP"],
                ["-A", "OUTPUT", "-m", "state", "--state", "RELATED,ESTABLISHED", "-j", "ACCEPT"],
                ["-A", "OUTPUT", "-m", "state", "--state", "INVALID", "-j", "DROP"],
                ["-A", "INPUT", "-i", "lo", "-j", "ACCEPT"],
                ["-A", "OUTPUT", "-o", "lo", "-j", "ACCEPT"],
                ["-N", "in_accept"],
                ["-A", "INPUT", "-m", "state", "--state", "NEW,UNTRACKED", "-j", "in_accept"],
                ["-N", "out_accept"],
                ["-A", "OUTPUT", "-m", "state", "--state", "NEW,UNTRACKED", "-j", "out_accept"]]
  {
    assert ["INPUT", "OUTPUT"][1..] == ["OUTPUT"];
    assert ["OUTPUT"][1..] == [];
    assert StateRules(["INPUT", "OUTPUT"])
           == [StateRule("INPUT", "RELATED,ESTABLISHED", "ACCEPT"), StateRule("INPUT", "INVALID", "DROP"),
               StateRule("OUTPUT", "RELATED,ESTABLISHED", "ACCEPT"), StateRule("OUTPUT", "INVALID", "DROP")];
  }

  /** The six teardown commands written out. */
  lemma DisconnectCommandsListed()
    ensures DisconnectCommands()
            == [["-P", "INPUT", "ACCEPT"], ["-P", "OUTPUT", "ACCEPT"], ["-P", "FORWARD", "ACCEPT"],
                ["-F"], ["-X", "in_accept"], ["-X", "out_accept"]]
  {
  }

  // ---------------------------------------------------------------------------
  // Facts about the exception rules

  lemma {:induction false} ExceptionRulesAppend(a: seq<FirewallException>, b: seq<FirewallException>)
    ensures ExceptionRules(a + b) == ExceptionRules(a) + ExceptionRules(b)
  {
    if a == [] {
      assert a + b == b;
    } else {
      assert (a + b)[0] == a[0];
      assert (a + b)[1..] == a[1..] + b;
      ExceptionRulesAppend(a[1..], b);
      if IsIpv4(a[0].host) {
        var r := ExceptionRule(a[0]);
        assert ExceptionRules(a + b) == [r] + (ExceptionRules(a[1..]) + ExceptionRules(b));
        assert ExceptionRules(a) == [r] + ExceptionRules(a[1..]);
      } else {
        assert ExceptionRules(a + b) == ExceptionRules(a[1..] + b);
        assert ExceptionRules(a) == ExceptionRules(a[1..]);
      }
    }
  }

  /** The rules for the exceptions from position `k` on: those of `es[k]`, then the rest. */
  lemma ExceptionRulesFrom(es: seq<FirewallException>, k: nat)
    requires k < |es|
    ensures ExceptionRules(es[k..])
            == (if IsIpv4(es[k].host) then [ExceptionRule(es[k])] else []) + ExceptionRules(es[k + 1..])
  {
    assert es[k..][0] == es[k];
    assert es[k..][1..] == es[k + 1..];
  }

  /** The k-th exception rule is the rule of the k-th IPv4 exception, so rules follow input order. */
  lemma {:induction false} ExceptionRulesFollowIpv4Exceptions(es: seq<FirewallException>)
    ensures |ExceptionRules(es)| == |Ipv4Only(es)|
    ensures forall k :: 0 <= k < |Ipv4Only(es)| ==> ExceptionRules(es)[k] == ExceptionRule(Ipv4Only(es)[k])
  {
    if es != [] {
      ExceptionRulesFollowIpv4Exceptions(es[1..]);
    }
  }

  /** Adding an IPv6 exception anywhere in the list changes nothing that is issued. */
  lemma Ipv6ExceptionIgnored(a: seq<FirewallException>, e: FirewallException, b: seq<FirewallException>)
    requires e.host.V6?
    ensures PreConnectCommands(a + [e] + b) == PreConnectCommands(a + b)
  {
    ExceptionRulesAppend(a + [e], b);
    ExceptionRulesAppend(a, [e]);
    ExceptionRulesAppend(a, b);
    assert ExceptionRules([e]) == [];
  }

  // ---------------------------------------------------------------------------
  // Facts about the pre-connect program

  /**
    Every command from position 13 on is the allow-rule of an IPv4 exception,
    in input order, and there is one per IPv4 exception.
   */
  lemma PreConnectExceptionRules(es: seq<FirewallException>)
    ensures |PreConnectCommands(es)| == 13 + |Ipv4Only(es)|
    ensures PreConnectCommands(es)[..13] == DefaultRules()
    ensures forall k :: 0 <= k < |Ipv4Only(es)| ==> PreConnectCommands(es)[13 + k] == ExceptionRule(Ipv4Only(es)[k])
  {
    ExceptionRulesFollowIpv4Exceptions(es);
  }

  /** Every command of the pre-connect program from index 13 on is an exception rule. */
  lemma PreConnectTail(es: seq<FirewallException>, j: nat)
    requires 13 <= j < |PreConnectCommands(es)|
    ensures exists e :: e in es && IsIpv4(e.host) && PreConnectCommands(es)[j] == ExceptionRule(e)
  {
    IndexAfter(DefaultRules(), ExceptionRules(es), j);
    var e := ExceptionRuleOfSome(es, j - 13);
    assert PreConnectCommands(es)[j] == ExceptionRule(e);
  }

  lemma IndexAfter(d: seq<Command>, r: seq<Command>, j: nat)
    requires |d| <= j < |d| + |r|
    ensures (d + r)[j] == r[j - |d|]
  {
  }

  /** Every exception rule is the rule of some IPv4 exception of the input. */
  lemma ExceptionRuleOfSome(es: seq<FirewallException>, k: nat) returns (e: FirewallException)
    requires k < |ExceptionRules(es)|
    ensures e in es && IsIpv4(e.host) && ExceptionRules(es)[k] == ExceptionRule(e)
  {
    ExceptionRulesFollowIpv4Exceptions(es);
    e := Ipv4Only(es)[k];
  }

  /**
    The default-deny policies on INPUT, OUTPUT and FORWARD are the first three
    commands, no later command sets a `DROP` policy, and every command that
    names an exception's destination comes after the thirteen fixed ones.
   */
  lemma DefaultDenyFirst(es: seq<FirewallException>)
    ensures |PreConnectCommands(es)| >= 13
    ensures PreConnectCommands(es)[..3] == [["-P", "INPUT", "DROP"], ["-P", "OUTPUT", "DROP"], ["-P", "FORWARD", "DROP"]]
    ensures forall j :: 0 <= j < |PreConnectCommands(es)| && NamesDestination(PreConnectCommands(es)[j]) ==> 13 <= j
    ensures forall j :: 3 <= j < |PreConnectCommands(es)| ==> !SetsPolicy(PreConnectCommands(es)[j], "DROP")
  {
    var p := PreConnectCommands(es);
    DefaultRulesListed();
    forall j | 0 <= j < |p|
      ensures NamesDestination(p[j]) ==> 13 <= j
      ensures 3 <= j ==> !SetsPolicy(p[j], "DROP")
    {
      if j >= 13 {
        PreConnectTail(es, j);
      }
    }
  }

  /**
    `-N in_accept` (command 9) comes before every command that uses
    `in_accept`, and `-N out_accept` (command 11) before every command that
    uses `out_accept`, its hook and every exception rule included.
   */
  lemma ChainsCreatedBeforeUse(es: seq<FirewallException>)
    ensures |PreConnectCommands(es)| >= 13
    ensures PreConnectCommands(es)[9] == ["-N", IN_ACCEPT_CHAIN_NAME]
    ensures PreConnectCommands(es)[11] == ["-N", OUT_ACCEPT_CHAIN_NAME]
    ensures forall j :: 0 <= j < |PreConnectCommands(es)| && UsesChain(PreConnectCommands(es)[j], IN_ACCEPT_CHAIN_NAME) ==> j == 10
    ensures forall j :: 0 <= j < |PreConnectCommands(es)| && UsesChain(PreConnectCommands(es)[j], OUT_ACCEPT_CHAIN_NAME) ==> 11 < j
  {
    var p := PreConnectCommands(es);
    DefaultRulesListed();
    forall j | 0 <= j < |p|
      ensures UsesChain(p[j], IN_ACCEPT_CHAIN_NAME) ==> j == 10
      ensures UsesChain(p[j], OUT_ACCEPT_CHAIN_NAME) ==> 11 < j
    {
      if j >= 13 {
        PreConnectTail(es, j);
      }
    }
  }

  /**
    `on_disconnect` undoes what `on_pre_connect` set up: every chain the
    pre-connect program creates is deleted, and every chain it sets to `DROP`
    is set back to `ACCEPT`.
   */
  lemma DisconnectUndoesPreConnect(es: seq<FirewallException>)
    ensures forall j :: 0 <= j < |PreConnectCommands(es)| && CreatesChain(PreConnectCommands(es)[j]) ==>
              DeleteChain(PreConnectCommands(es)[j][1]) in DisconnectCommands()
    ensures forall j :: 0 <= j < |PreConnectCommands(es)| && SetsPolicy(PreConnectCommands(es)[j], "DROP") ==>
              Policy(PreConnectCommands(es)[j][1], "ACCEPT") in DisconnectCommands()
  {
    var p := PreConnectCommands(es);
    var d := DisconnectCommands();
    DefaultRulesListed();
    DisconnectCommandsListed();
    forall j | 0 <= j < |p|
      ensures CreatesChain(p[j]) ==> DeleteChain(p[j][1]) in d
      ensures SetsPolicy(p[j], "DROP") ==> Policy(p[j][1], "ACCEPT") in d
    {
      if j >= 13 {
        PreConnectTail(es, j);
      } else {
        assert d[4] == DeleteChain(IN_ACCEPT_CHAIN_NAME) && d[5] == DeleteChain(OUT_ACCEPT_CHAIN_NAME);
        assert d[0] == Policy("INPUT", "ACCEPT") && d[1] == Policy("OUTPUT", "ACCEPT") && d[2] == Policy("FORWARD", "ACCEPT");
      }
    }
  }

  /**
    A teardown whose fifth command (`-X in_accept`) fails after four
    successful ones issues exactly those five and never `-X out_accept`.
   */
  lemma DisconnectStopsAtFailedChainDeletion(failures: map<nat, FirewallError>, before: seq<Command>)
    requires forall i :: |before| <= i < |before| + 4 ==> i !in failures
    requires |before| + 4 in failures
    ensures Run(DisconnectCommands(), 0, failures, before) == (before + DisconnectCommands()[..5], Fail(failures[|before| + 4]))
    ensures DeleteChain(OUT_ACCEPT_CHAIN_NAME) !in Run(DisconnectCommands(), 0, failures, before).0[|before|..]
  {
    var (after, r) := Run(DisconnectCommands(), 0, failures, before);
    RunStopsAtFirstFailure(DisconnectCommands(), 0, failures, before);
    assert DisconnectCommands()[0..] == DisconnectCommands();
    RanToFirstFailureLog(DisconnectCommands(), failures, before, after, r);
    assert |after| == |before| + 5;
    assert after[|before|..] == DisconnectCommands()[..5];
    DisconnectCommandsListed();
  }

  /**
    The exceptions of the backend's own test: two IPv4 exceptions give the
    two allow-rules written out, in order, and the IPv6 exception gives none.
   */
  lemma TestScenario()
    ensures PreConnectCommands([TestException1(), TestException2(), TestException3()])
            == DefaultRules()
               + [["-A", "out_accept", "-d", "1.1.1.1/32", "-p", "tcp", "-m", "tcp", "--dport", "1337",
                   "-j", "ACCEPT"],
                  ["-A", "out_accept", "-d", "127.0.0.1/32", "-p", "udp", "-m", "udp", "--dport", "4200",
                   "-j", "ACCEPT"]]
  {
    var es := [TestException1(), TestException2(), TestException3()];
    TestRule1();
    TestRule2();
    assert es[1..] == [TestException2(), TestException3()];
    assert es[1..][1..] == [TestException3()] && es[1..][1..][1..] == [];
    assert ExceptionRules(es) == [ExceptionRule(TestException1()), ExceptionRule(TestException2())];
  }

  /** `1.1.1.1:1337` over TCP. */
  function TestException1(): FirewallException
  {
    NewException(V4(Ipv4FromOctets(1, 1, 1, 1)), 1337, TCP)
  }

  /** `127.0.0.1:4200` over UDP. */
  function TestException2(): FirewallException
  {
    NewException(V4(Ipv4FromOctets(127, 0, 0, 1)), 4200, UDP)
  }

  /** `[2001:db8:85a3::8a2e:370:7334]:2020` over UDP. */
  function TestException3(): FirewallException
  {
    NewException(V6(0x2001_0db8_85a3_0000_0000_8a2e_0370_7334), 2020, UDP)
  }

  lemma TestRule1()
    ensures ExceptionRule(TestException1())
            == ["-A", "out_accept", "-d", "1.1.1.1/32", "-p", "tcp", "-m", "tcp", "--dport", "1337", "-j", "ACCEPT"]
  {
    var e := TestException1();
    Ipv4OctetsRoundTrip(1, 1, 1, 1);
    assert Ipv4Octets(e.host.bits4) == [1, 1, 1, 1];
    assert Decimal(1) == "1";
    assert IpToString(e.host) == "1" + "." + "1" + "." + "1" + "." + "1";
    assert IpToString(e.host) + "/32" == "1.1.1.1/32";
    assert Decimal(1337) == "1337" by {
      assert Decimal(13) == Decimal(1) + "3";
      assert Decimal(133) == Decimal(13) + "3";
      assert Decimal(1337) == Decimal(133) + "7";
    }
    assert ExceptionRule(e)
           == ["-A", "out_accept", "-d", IpToString(e.host) + "/32", "-p", "tcp", "-m", "tcp",
               "--dport", Decimal(1337), "-j", "ACCEPT"];
  }

  lemma TestRule2()
    ensures ExceptionRule(TestException2())
            == ["-A", "out_accept", "-d", "127.0.0.1/32", "-p", "udp", "-m", "udp", "--dport", "4200", "-j", "ACCEPT"]
  {
    var e := TestException2();
    Ipv4OctetsRoundTrip(127, 0, 0, 1);
    assert Ipv4Octets(e.host.bits4) == [127, 0, 0, 1];
    assert Decimal(0) == "0" && Decimal(1) == "1";
    assert Decimal(127) == "127" by {
      assert Decimal(12) == Decimal(1) + "2";
      assert Decimal(127) == Decimal(12) + "7";
    }
    assert IpToString(e.host) == "127" + "." + "0" + "." + "0" + "." + "1";
    assert IpToString(e.host) + "/32" == "127.0.0.1/32";
    assert Decimal(4200) == "4200" by {
      assert Decimal(42) == Decimal(4) + "2";
      assert Decimal(420) == Decimal(42) + "0";
      assert Decimal(4200) == Decimal(420) + "0";
    }
    assert ExceptionRule(e)
           == ["-A", "out_accept", "-d", IpToString(e.host) + "/32", "-p", "udp", "-m", "udp",
               "--dport", Decimal(4200), "-j", "ACCEPT"];
  }
}
