# Linkage kill-switch core, modelled in Dafny

Linkage is a VPN kill-switch manager. Before the VPN client starts, it closes
the host firewall to everything except the VPN servers. It then checks
whether the public address or the DNS resolvers still match the ones seen
before connecting, and tears the firewall down again on a leak or on an
interrupt. This project models its deterministic core and proves what
that core guarantees.

- **`Firewalls`** (`firewalls.dfy`): the exception value types.
- **`Executor`** (`executor.dfy`):
  - the executor capability, as a `RecordingExecutor` class that logs every argument vector it is sent and answers from a failure oracle;
  - the mapping from a base command to a program name;
  - how a process's exit status becomes a `FirewallError`.
- **`IpTables`** (`iptables.dfy`): the exact, ordered command programs of `on_pre_connect` and `on_disconnect`.
  - Each program is a sequence of argument vectors.
  - `Run` is what sending a program to an executor does: issue commands in order and stop at the first failure, as `?` does.
  - Every method that issues commands is proved equal to `Run` of its program. The lemmas then state what the programs guarantee.
- **`Dns`** (`dns.dfy`): the DNS leak test.
  - Sizing the test (rounding up to a multiple of five).
  - The request prefix.
  - URL templating and body trimming.
  - Receiving exactly `total` answers, joining the workers, and sorting and deduplicating the result.
- **`CliErrors`** (`cli_error.dfy`): the command-line errors and their exit codes.
- **`Connect`** (`connect.dfy`): the `connect` subcommand.
  - Turning OpenVPN directives into exceptions.
  - Finding the tunnel interface in the client's output, read into a 2048-byte array that is never cleared.
  - The leak verdict and `disconnect`.
  - The whole of `cmd_connect` as a trace of `Event`s plus how the run ends: it returns, it panics, or it keeps waiting forever.
- **`ProviderStore`** (`store.dfy`): the providers' key-value `Store` class, updated in place.
- **`ExceptionGui`** (`exception_gui.dfy`): converting between the GUI's editable exception and `FirewallException`.
- **`Wrappers`** and **`Net`**: shared support.
  - `Option`, `Result` and `Outcome`.
  - The fixed-width integer types.
  - `IpAddr` as a tagged 32- or 128-bit number, ordered IPv4 first and then numerically, as Rust orders it.
  - Decimal, IPv4 dotted and IPv6 hexadecimal text.
  - `u16` parsing.

The outside world enters only as parameters:

- IP-address parsing and protocol parsing are functions passed in.
- The process, the network and the user id are answers held in a `Host` record.
- The executor's answers come from its failure map.
- Serialization is a function passed in.

## Model

| member | source | states |
|---|---|---|
| `Firewalls.NewException` | linkage_firewall/src/firewalls/mod.rs:26-32 | the new exception holds exactly the given host, port and protocol |
| `Firewalls.ExceptionEquality` | linkage_firewall/src/firewalls/mod.rs:17-22 | two exceptions are equal exactly when host, port and protocol are equal (the port is a `u16`, the protocol one of TCP/UDP) |
| `Firewalls.ProtocolName` | linkage_gui/src/exception_gui.rs:53-55 | TCP is shown as "TCP" and UDP as "UDP", the texts the editor parses back into the protocol |
| `Firewalls.ProtocolNameInjective` | linkage_gui/src/exception_gui.rs:53-55 | the two protocols have different names |
| `Executor.RecordingExecutor.constructor` | linkage_firewall/src/executor/mod.rs:9-12 | a fresh executor has an empty log and the given failure answers |
| `Executor.RecordingExecutor.Verdict` | linkage_firewall/src/executor/mod.rs:11 | the call at a log position fails exactly when the oracle names that position, with the oracle's error |
| `Executor.RecordingExecutor.Execute` | linkage_firewall/src/executor/mod.rs:11 | the call appends its arguments to the log and returns the answer for its position |
| `Executor.GetCommand` | linkage_firewall/src/executor/iptables.rs:14-20 | `Iptables` runs "iptables" and `Ip6tables` runs "ip6tables" |
| `Executor.GetCommandInjective` | linkage_firewall/src/executor/iptables.rs:14-20 | the two base commands name different programs |
| `Executor.NewIptablesCommandExecutor` | linkage_firewall/src/executor/iptables.rs:29-31 | the executor is bound to the given base command |
| `Executor.InvocationOf` | linkage_firewall/src/executor/iptables.rs:38-39 | `execute` starts the base command's program with exactly the given arguments |
| `Executor.ExecuteResult` | linkage_firewall/src/executor/iptables.rs:36-47 | the result is Ok exactly for a process that exited with success; otherwise it is `IptablesError` with the possibly absent exit code; a spawn or wait failure becomes `IoError` |
| `IpTables.Policy` | linkage_firewall/src/firewalls/iptables.rs:31-33 | a policy command sets the given chain's policy to the target |
| `IpTables.StateRule` | linkage_firewall/src/firewalls/iptables.rs:36-44 | a state rule appends to the chain and jumps to the target |
| `IpTables.LoopbackRule` | linkage_firewall/src/firewalls/iptables.rs:48-49 | a loopback rule appends to the given chain |
| `IpTables.NewChain` | linkage_firewall/src/firewalls/iptables.rs:52-58 | the command creates the named chain |
| `IpTables.PolicyRules` | linkage_firewall/src/firewalls/iptables.rs:31-33 | three commands, each setting a policy to the target |
| `IpTables.StateRules` | linkage_firewall/src/firewalls/iptables.rs:35-45 | two rules per chain of the loop |
| `IpTables.AcceptChainRules` | linkage_firewall/src/firewalls/iptables.rs:52-61 | the chain is created first, then hooked into its parent chain |
| `IpTables.DefaultRules` | linkage_firewall/src/firewalls/iptables.rs:31-61 | the fixed part of `on_pre_connect` has 13 commands |
| `IpTables.ProtocolArg` | linkage_firewall/src/firewalls/iptables.rs:68-71 | the protocol argument is "tcp" for TCP and "udp" for UDP |
| `IpTables.ProtocolArgIsLowerName` | linkage_firewall/src/firewalls/iptables.rs:68-71 | the protocol argument is the protocol's name in lower case, letter by letter |
| `IpTables.ExceptionRule` | linkage_firewall/src/firewalls/iptables.rs:72-75 | an exception rule has 12 tokens, appends to `out_accept` and names a destination |
| `IpTables.ExceptionRuleTokens` | linkage_firewall/src/firewalls/iptables.rs:72-75 | token by token: `-A out_accept -d <host>/32 -p <proto> -m <proto> --dport <port> -j ACCEPT`, with the dotted address, the lower-case protocol and the decimal port |
| `IpTables.Ipv4Only` | linkage_firewall/src/firewalls/iptables.rs:64-67 | the kept exceptions are IPv4 exceptions of the input |
| `IpTables.Ipv4OnlyComplete` | linkage_firewall/src/firewalls/iptables.rs:64-67 | every IPv4 exception of the input is kept, and a list of IPv4 exceptions only is kept whole |
| `IpTables.Ipv4OnlyAppend` | linkage_firewall/src/firewalls/iptables.rs:64-67 | filtering a concatenation filters each part, and a single exception is kept exactly when it is IPv4: every IPv4 exception is kept, once, in input order |
| `IpTables.DisconnectCommands` | linkage_firewall/src/firewalls/iptables.rs:93-102 | `on_disconnect` has six commands |
| `IpTables.RunStopsAtFirstFailure` | linkage_firewall/src/firewalls/iptables.rs:31-75 | running a program issues commands in order up to and including the first failing one, and returns that failure or success |
| `IpTables.RanToFirstFailureLog` | linkage_firewall/src/firewalls/iptables.rs:31-75 | the log after a run is the log before plus a prefix of the program |
| `IpTables.RanToFirstFailureUnique` | linkage_firewall/src/firewalls/iptables.rs:31-75 | stop-at-first-failure determines exactly one log and result, the one `Run` gives |
| `IpTables.RunPassesIffNoFailure` | linkage_firewall/src/firewalls/iptables.rs:31-75 | a run succeeds exactly when no command of the program is answered with a failure |
| `IpTables.RunAppend` | linkage_firewall/src/firewalls/iptables.rs:31-77 | running two programs back to back is running the first, then the second only if the first passed |
| `IpTables.OnPreConnect` | linkage_firewall/src/firewalls/iptables.rs:28-80 | the log and result are exactly those of running the pre-connect program against the executor |
| `IpTables.AddDefaultRules` | linkage_firewall/src/firewalls/iptables.rs:31-61 | the same for the 13 fixed commands |
| `IpTables.SetPolicies` | linkage_firewall/src/firewalls/iptables.rs:31-33 | the same for the three policy commands |
| `IpTables.AddStateRules` | linkage_firewall/src/firewalls/iptables.rs:35-45 | the same for the loop over INPUT and OUTPUT |
| `IpTables.AddAcceptChain` | linkage_firewall/src/firewalls/iptables.rs:52-61 | the same for creating and hooking up one accept chain |
| `IpTables.AddExceptionRules` | linkage_firewall/src/firewalls/iptables.rs:64-77 | the same for the loop over the exceptions |
| `IpTables.OnDisconnect` | linkage_firewall/src/firewalls/iptables.rs:90-105 | the same for the six teardown commands |
| `IpTables.DefaultRulesLayout` | linkage_firewall/src/firewalls/iptables.rs:31-61 | the policies come first, then the state rules of INPUT and OUTPUT, the loopback rules, and the two accept chains |
| `IpTables.DefaultRulesListed` | linkage_firewall/src/firewalls/iptables.rs:31-61 | the 13 fixed commands, token by token, in order |
| `IpTables.DisconnectCommandsListed` | linkage_firewall/src/firewalls/iptables.rs:93-102 | the six teardown commands, token by token, in order |
| `IpTables.ExceptionRulesAppend` | linkage_firewall/src/firewalls/iptables.rs:64-77 | the rules of concatenated exception lists are the concatenated rules |
| `IpTables.ExceptionRulesFrom` | linkage_firewall/src/firewalls/iptables.rs:64-77 | the rules from position k on are the rule of exception k (when IPv4) followed by the rest |
| `IpTables.ExceptionRulesFollowIpv4Exceptions` | linkage_firewall/src/firewalls/iptables.rs:64-77 | one rule per IPv4 exception, in input order |
| `IpTables.Ipv6ExceptionIgnored` | linkage_firewall/src/firewalls/iptables.rs:67 | adding an IPv6 exception anywhere leaves the pre-connect program unchanged |
| `IpTables.PreConnectExceptionRules` | linkage_firewall/src/firewalls/iptables.rs:28-80 | the program has 13 + (number of IPv4 exceptions) commands: the fixed 13, then the exception rules in order |
| `IpTables.PreConnectTail` | linkage_firewall/src/firewalls/iptables.rs:64-77 | every command after the fixed 13 is the rule of some IPv4 exception of the input |
| `IpTables.DefaultDenyFirst` | linkage_firewall/src/firewalls/iptables.rs:31-33 | the three DROP policies are the first three commands, no later command sets a DROP policy, and every command naming a destination comes after the fixed 13 |
| `IpTables.ChainsCreatedBeforeUse` | linkage_firewall/src/firewalls/iptables.rs:52-75 | `-N in_accept` is command 9 and only command 10 uses it; `-N out_accept` is command 11 and every use of it comes later |
| `IpTables.DisconnectUndoesPreConnect` | linkage_firewall/src/firewalls/iptables.rs:90-105 | every chain pre-connect creates is deleted on disconnect, and every DROP policy is reset to ACCEPT |
| `IpTables.DisconnectStopsAtFailedChainDeletion` | linkage_firewall/src/firewalls/iptables.rs:93-103 | when `-X in_accept` fails, exactly the first five commands are issued, that error is returned, and `-X out_accept` is never issued |
| `IpTables.TestScenario` | linkage_firewall/src/firewalls/iptables.rs:193-210 | for exceptions 1.1.1.1 TCP 1337, 127.0.0.1 UDP 4200 and an IPv6 address, the pre-connect program is the 13 fixed commands then exactly the two IPv4 rules, token by token |
| `IpTables.TestRule1` | linkage_firewall/src/firewalls/iptables.rs:193-210 | the rule of the first exception is `-A out_accept -d 1.1.1.1/32 -p tcp -m tcp --dport 1337 -j ACCEPT` |
| `IpTables.TestRule2` | linkage_firewall/src/firewalls/iptables.rs:193-210 | the rule of the second exception is `-A out_accept -d 127.0.0.1/32 -p udp -m udp --dport 4200 -j ACCEPT` |
| `Net.DigitChar` | linkage_firewall/src/firewalls/iptables.rs:74 | a digit value is shown as the matching digit character |
| `Net.Decimal` | linkage_firewall/src/firewalls/iptables.rs:74 | a port is shown as at least one digit, with a leading zero only for 0 |
| `Net.DecimalRoundTrip` | linkage_firewall/src/firewalls/iptables.rs:74 | reading the decimal text of a number back gives the number |
| `Net.DecimalInjective` | linkage_firewall/src/firewalls/iptables.rs:74 | different ports have different decimal text |
| `Net.ParseU16` | linkage_cli/src/cmd/connect.rs:195 | a parsed port comes from a non-empty text |
| `Net.ParseU16Decimal` | linkage_cli/src/cmd/connect.rs:195 | parsing the decimal text of a `u16` gives it back |
| `Net.Ipv4OctetsRoundTrip` | linkage_firewall/src/firewalls/iptables.rs:73 | the octets of the address built from four octets are those octets |
| `Net.IpToString` | linkage_gui/src/exception_gui.rs:39 | an address is shown as non-empty text |
| `Net.OrderKeyInjective` | linkage_leaks/src/dns.rs:103 | the order on addresses is total: different addresses never compare equal |
| `Dns.LeakTestConfigRoundsUp` | linkage_leaks/src/dns.rs:33-59 | five requests per thread; the total is the smallest multiple of five not below the request count (unchanged when already a multiple); threads times five is the total |
| `Dns.GetDnsLeakTestConfig` | linkage_leaks/src/dns.rs:33-59 | the rounding loop computes exactly that configuration and never exceeds `u32::MAX` |
| `Dns.CharsetIndex` | linkage_leaks/src/dns.rs:16 | every lower-case letter and digit occurs in the prefix charset |
| `Dns.GenerateDnsLeakPrefix` | linkage_leaks/src/dns.rs:121-127 | the prefix is 40 characters drawn from `[a-z0-9]` |
| `Dns.EveryPrefixGenerated` | linkage_leaks/src/dns.rs:121-127 | every such 40-character string is a possible prefix |
| `Dns.Replace` | linkage_leaks/src/dns.rs:112 | replacing a pattern by itself changes nothing |
| `Dns.ReplaceAbsent` | linkage_leaks/src/dns.rs:112 | replacing a pattern that cannot start anywhere in the text changes nothing |
| `Dns.ReplaceAfterPlain` | linkage_leaks/src/dns.rs:112 | a leading part that cannot start the pattern is kept as it is |
| `Dns.ReplaceOnce` | linkage_leaks/src/dns.rs:112 | a single occurrence of the pattern is replaced and nothing else changes |
| `Dns.SiteLayout` | linkage_leaks/src/dns.rs:14 | the site template is "https://", the placeholder, then ".ipleak.net/dnsdetect/" |
| `Dns.RequestUrlShape` | linkage_leaks/src/dns.rs:112 | the request URL is the site with the placeholder replaced by the prefix |
| `Dns.RequestUrl` | linkage_leaks/src/dns.rs:112 | the URL is "https://", the prefix, then ".ipleak.net/dnsdetect/" |
| `Dns.SkipWhitespace` | linkage_leaks/src/dns.rs:117 | the index of the first non-whitespace character from a position on |
| `Dns.SkipTrailingWhitespace` | linkage_leaks/src/dns.rs:117 | the end of the text without its trailing whitespace |
| `Dns.Trim` | linkage_leaks/src/dns.rs:117 | the trimmed body is a slice of the body, with only whitespace cut on either side and no whitespace at its ends |
| `Dns.TrimIdempotent` | linkage_leaks/src/dns.rs:117 | trimming twice is trimming once |
| `Dns.GetDns` | linkage_leaks/src/dns.rs:110-118 | a request error is returned as is; otherwise the result is exactly the trimmed body fetched from the request URL |
| `Dns.Receive` | linkage_leaks/src/dns.rs:90-93 | a completed receive holds `total` addresses; the only error it returns is a parse error (`AddrParseError`) |
| `Dns.ReceiveCollectsAll` | linkage_leaks/src/dns.rs:90-93 | a completed receive holds exactly `total` addresses, the i-th parsed from the i-th message |
| `Dns.ReceiveResolvedIff` | linkage_leaks/src/dns.rs:90-93 | the receive completes exactly when all `total` messages arrive and parse |
| `Dns.ReceiveBlocks` | linkage_leaks/src/dns.rs:67-93 | the receive blocks for good exactly when some message never arrives while every earlier one arrived and parsed, since the sender is kept alive |
| `Dns.ReceiveErrorPersists` | linkage_leaks/src/dns.rs:90-93 | once a parse error or a missing message stops the loop, no later message changes the result: no partial list |
| `Dns.Insert` | linkage_leaks/src/dns.rs:103 | inserting into a sorted list keeps it sorted and adds exactly the one element |
| `Dns.SortAddresses` | linkage_leaks/src/dns.rs:103 | the result is sorted and a permutation of the input |
| `Dns.Dedup` | linkage_leaks/src/dns.rs:104 | no longer than the input, the same members, the same last element; no two neighbours of the result are equal, and an input without equal neighbours is kept whole |
| `Dns.DedupCollapse` | linkage_leaks/src/dns.rs:104 | only adjacent repeats are removed: a pair of equal neighbours deduplicates as a single element |
| `Dns.DedupSortedStrictlyIncreasing` | linkage_leaks/src/dns.rs:103-104 | deduplicating a sorted list gives a strictly increasing one |
| `Dns.StrictlyIncreasingUnique` | linkage_leaks/src/dns.rs:103-106 | two strictly increasing lists with the same members are equal, so the result is determined by the set of received addresses |
| `Dns.ReceiveAddresses` | linkage_leaks/src/dns.rs:90-93 | the receive loop computes exactly the receive result |
| `Dns.JoinWorkers` | linkage_leaks/src/dns.rs:96-100 | joining fails exactly when some worker panicked, with `JoiningThreadsError` |
| `Dns.SortAndDedup` | linkage_leaks/src/dns.rs:103-104 | strictly increasing, the same members as the input, no longer than it |
| `Dns.DnsTest` | linkage_leaks/src/dns.rs:63-107 | a parse error or a blocked receive ends the test as the receive does; then a panicked worker gives `JoiningThreadsError`; otherwise a strictly increasing list with the same members as the `total` received addresses, no longer than `total` |
| `CliErrors.GetExitCode` | linkage_cli/src/error.rs:49-55 | 3 exactly for `RootRequired`, 1 for every other variant, never the reserved 2 |
| `Connect.LastProtoAbsent` | linkage_cli/src/cmd/connect.rs:176-184 | the default protocol is absent exactly when there is no `proto` directive |
| `Connect.LastProtoIsLast` | linkage_cli/src/cmd/connect.rs:176-184 | a default protocol is that of the last `proto` directive, wherever it stands |
| `Connect.RemoteException` | linkage_cli/src/cmd/connect.rs:190-199 | a bad host gives `AddrParse`; a missing port panics; a port that is not a `u16` gives `ParseInt`; a missing protocol with no default panics; an unknown protocol gives `FirewallExceptionProtocol`; otherwise an exception whose host, port and protocol come from the directive, its own protocol overriding the default |
| `Connect.Remotes` | linkage_cli/src/cmd/connect.rs:188-203 | the `remote` directives of the file |
| `Connect.RemotesComplete` | linkage_cli/src/cmd/connect.rs:188-203 | every listed directive is one of the file's, no `remote` directive is left out, and a file of `remote` directives only is kept whole |
| `Connect.RemotesAppend` | linkage_cli/src/cmd/connect.rs:188-203 | the `remote` list of a concatenation is that of each part, and one directive is kept exactly when it is a `remote`: every remote appears once, in file order |
| `Connect.CollectOkIff` | linkage_cli/src/cmd/connect.rs:186-205 | collecting succeeds exactly when every `remote` directive gives an exception |
| `Connect.CollectFirstFailure` | linkage_cli/src/cmd/connect.rs:186-205 | otherwise collecting ends as the first `remote` directive that gives no exception: its error, its panic |
| `Connect.OneExceptionPerRemote` | linkage_cli/src/cmd/connect.rs:186-205 | a successful parse yields one exception per `remote` directive, in file order, each that directive's exception |
| `Connect.ParseConfigurationFile` | linkage_cli/src/cmd/connect.rs:171-206 | the two loops compute exactly the exceptions specified, and an unparsable file gives `OvpnFile` |
| `Connect.MatchAtSound` | linkage_cli/src/cmd/connect.rs:75 | a match at a position is an announcement `net_iface_up: set tunN up` of a `tun[0-9]+` name |
| `Connect.MatchAtComplete` | linkage_cli/src/cmd/connect.rs:75 | every announcement at a position is matched there, with that name |
| `Connect.DecodeLossyAscii` | linkage_cli/src/cmd/connect.rs:81 | decoding keeps the length, keeps each ASCII byte as that character, and gives a non-ASCII character for every other byte |
| `Connect.FindInterface` | linkage_cli/src/cmd/connect.rs:82 | every name found matches `tun[0-9]+` |
| `Connect.FindInterfaceLeftmost` | linkage_cli/src/cmd/connect.rs:82 | the search finds a name exactly when the text announces one, and it finds the leftmost announcement |
| `Connect.Overlay` | linkage_cli/src/cmd/connect.rs:73-80 | after a read the buffer holds the new bytes at the front and the older bytes beyond them |
| `Connect.FoundNameIsTun` | linkage_cli/src/cmd/connect.rs:79-89 | every interface name the loop finds matches `tun[0-9]+` |
| `Connect.Fill` | linkage_cli/src/cmd/connect.rs:80 | a read overwrites the front of the buffer array in place |
| `Connect.ReadInterfaceName` | linkage_cli/src/cmd/connect.rs:73-89 | the read loop over the array buffer ends as the scan specifies: the found name, a read error, or still waiting |
| `Connect.MatchingDnsAddresses` | linkage_cli/src/cmd/connect.rs:97-100 | the resolvers after connecting that were also used before |
| `Connect.CheckLeaks` | linkage_cli/src/cmd/connect.rs:97-110 | a DNS leak exactly when some resolver is in both lists; otherwise an IP leak exactly when the IPv4 or the IPv6 addresses are equal |
| `Connect.RootCheck` | linkage_cli/src/cmd/connect.rs:124-145 | passes exactly for user id 0, otherwise `RootRequired` |
| `Connect.Disconnect` | linkage_cli/src/cmd/connect.rs:147-160 | teardown first; the client is signalled only after a successful teardown; a failed teardown returns its error |
| `Connect.PreflightRun` | linkage_cli/src/cmd/connect.rs:27-62 | the firewall is reached only as root, with both baseline snapshots taken and an available backend |
| `Connect.CmdConnect` | linkage_cli/src/cmd/connect.rs:25-121 | the procedure's ending (returned result, panic, or endless wait) and its trace of steps equal the specification `ConnectRun`, about which the lemmas below are proved |
| `Connect.Prepare` | linkage_cli/src/cmd/connect.rs:27-62 | the steps up to the availability check, equal to `PreflightRun`, whose own contract says the backend is reached only as root, with both baselines taken and an available backend |
| `Connect.RunSession` | linkage_cli/src/cmd/connect.rs:64-120 | the steps from `on_pre_connect` on, equal to the specification `SessionRun` |
| `Connect.StepsInOrder` | linkage_cli/src/cmd/connect.rs:25-121 | every run starts with the root check and takes its steps in procedure order, none twice |
| `Connect.NonRootStopsFirst` | linkage_cli/src/cmd/connect.rs:27-28 | a user other than root gets `RootRequired` and nothing else happens |
| `Connect.PreConnectAfterBaseline` | linkage_cli/src/cmd/connect.rs:27-64 | `on_pre_connect` is the sixth step, after root check, both baselines, reading the exceptions and a positive availability check; it gets the file's exceptions followed by the stored ones |
| `Connect.PostConnectWithTunName` | linkage_cli/src/cmd/connect.rs:79-92 | `on_post_connect` receives only the name the interface loop found, which matches `tun[0-9]+` |
| `Connect.PreConnectFailureSkipsTeardown` | linkage_cli/src/cmd/connect.rs:64 | a failing `on_pre_connect` returns its error as the last step: the client is not started and there is no teardown and no signal |
| `Connect.SessionErrorsSkipTeardown` | linkage_cli/src/cmd/connect.rs:80-96 | after a successful `on_pre_connect`, a read error, a failed `on_post_connect` or a failed second snapshot returns an error with no teardown and no signal |
| `Connect.BlockedDnsTestHangs` | linkage_cli/src/cmd/connect.rs:92-96 | a second DNS test whose answers never all arrive blocks the run for good after the second snapshot, with no teardown and no signal |
| `Connect.BlockedBaselineHangs` | linkage_cli/src/cmd/connect.rs:27-32 | a first DNS test that never completes blocks the run before the firewall is touched |
| `Connect.LeakTriggersDisconnect` | linkage_cli/src/cmd/connect.rs:101-110 | on a leak the run tears down at once without waiting for an interrupt, returns `disconnect`'s result, and ends with teardown then signal |
| `Connect.NoLeakWaitsForInterrupt` | linkage_cli/src/cmd/connect.rs:112-118 | without a leak the run waits, and teardown follows only the interrupt |
| `ProviderStore.Store.constructor` | linkage_providers/src/provider/store.rs:30-35 | a new store has the given identifier and no entries |
| `ProviderStore.Store.GetIdentifier` | linkage_providers/src/provider/store.rs:38-40 | the identifier given at construction, which is a constant no method changes |
| `ProviderStore.Store.Set` | linkage_providers/src/provider/store.rs:44-51 | on success the key maps to the serialized value, replacing any entry including a nested store; on failure the key is gone and the error returned; other keys unchanged |
| `ProviderStore.Store.Get` | linkage_providers/src/provider/store.rs:55-69 | `None` exactly for an absent key or a nested store; otherwise the deserialized value or the JSON error; the store is only read |
| `ProviderStore.Store.KeyExists` | linkage_providers/src/provider/store.rs:72-74 | holds exactly when the key has an entry |
| `ProviderStore.Store.GetNestedStore` | linkage_providers/src/provider/store.rs:76-86 | returns the nested store exactly when the key maps to one |
| `ProviderStore.SetThenGet` | linkage_providers/src/provider/store.rs:143-185 | a value stored by `set` reads back as itself when deserialization inverts serialization |
| `ExceptionGui.DefaultGuiException` | linkage_gui/src/exception_gui.rs:26-34 | 192.168.1.5, port 80, TCP |
| `ExceptionGui.FromFirewallException` | linkage_gui/src/exception_gui.rs:36-44 | the address as text, the port copied losslessly (so within 0..65535), the protocol's name |
| `ExceptionGui.TruncateToU16` | linkage_gui/src/exception_gui.rs:52 | `as u16` keeps in-range ports and otherwise takes the port modulo 65536 (65536 gives 0, -1 gives 65535) |
| `ExceptionGui.TryIntoFirewallException` | linkage_gui/src/exception_gui.rs:46-61 | a bad address gives `AddrParseError`, checked first; then Ok exactly for "TCP" or "UDP", anything else `ProtocolParseError`; the port truncated to 16 bits |
| `ExceptionGui.GuiRoundTrip` | linkage_gui/src/exception_gui.rs:36-61 | converting for editing and back gives the same exception when the address text parses back |
| `ExceptionGui.ExceptionsDefault` | linkage_gui/src/exception_gui.rs:63-76 | one editable exception per stored exception, in order, and none when the configuration cannot be opened |

## Left out

- Process, network and OS calls are replaced by answers given to the model:
  - spawning `iptables` and `openvpn`;
  - the HTTP requests of the leak tests;
  - `getuid` and `kill`;
  - the interrupt handler.
- Threads, channels and joins of the DNS test are left out. Received messages are a function from index to an optional message, `None` for one that is never sent, and worker panics are a set.
- `on_post_connect` of the iptables backend is `unimplemented!()`, so it has no model. The controller treats the backend's answers as given.
- The backend trait in linkage_firewall/src/firewalls/mod.rs:36-45 takes an executor. The controller instead calls `is_available`, `on_pre_connect`, `on_post_connect` and `on_disconnect` on a backend object whose definition is not part of this model. Their answers are held in `Host`.
- The `lazy_static` backend registry is not part of this model.
- serde and TOML encoding are not part of this model, and neither is configuration-file I/O. Serialization is a function that may fail. The stored exception file is an optional, possibly unreadable, list.
- IP-address parsing and protocol parsing (`FromStr`) are functions passed in.
- Net.IpToString: its contract only says the text is non-empty. It does not apply RFC 5952 zero compression to IPv6 addresses; it shows all eight groups.
- Random prefix generation is modelled as a draw function; its distribution is not modelled.
- The `dns-requests` argument parse and the other clap, egui and printing code are not part of this model.
- `From<Vec<FirewallException>>` for `Exceptions` is `todo!()` and is not modelled.
- The Windows branch of `root_check` is not modelled; only the Unix user-id check is.
- Connect.ReadInterfaceName: sees only the reads that were delivered. A loop that never finds the announcement ends as `StillWaiting`, standing for the unbounded loop of the code.
- Net.ParseU16: its own contract only says a parsed port comes from non-empty text. Its round trip is stated by `Net.ParseU16Decimal`, not by the function's own contract.
- Dns.DnsTest: worker panics and the received messages are independent inputs, so the model can return `JoiningThreadsError` after all `total` messages arrived. In the code a worker panics only in `get_dns` before its send, its missing message keeps the receive loop waiting (`Blocked`), and the join error cannot occur.
- Firewalls.ProtocolName: the protocol's `Display` implementation is not part of this model. The model takes "TCP" and "UDP", the texts the exception editor parses back and the configuration fixtures in linkage_config/src/lib.rs use.
- Connect.DecodeLossy: every byte of 128 or more becomes U+FFFD on its own. The code's decoder replaces each maximal invalid UTF-8 sequence and keeps valid multi-byte characters. Either way every ASCII byte stays the same character and no other byte becomes an ASCII character, so the ASCII-only pattern finds the same name.
- Connect.CheckLeaks: compares the `ip` strings only; the other fields of `IpInformation` are not modelled.
- Where the documented design and the code disagree, the model follows the code:
  - `on_disconnect` is not idempotent: it stops at the first failing command.
  - IPv6 exceptions are skipped, not sent to an `ip6tables` executor.
  - The interface loop has no timeout.
  - An error from or after `on_pre_connect` returns without tearing the firewall down.
  - The 2048-byte buffer is not cleared between reads, so stale bytes from an earlier, longer read stay behind the new ones.
