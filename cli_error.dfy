/** The command-line front end's errors and the exit code each one gives. */
module CliErrors {
  import opened Net
  import opened Firewalls
  import Dns

  /** `CliError`: the eleven ways a subcommand can fail; wrapped errors keep only what the model needs. */
  datatype CliError =
    | Io
    | OvpnFile
    | AddrParse
    | Firewall(firewall: FirewallError)
    | FirewallExceptionProtocol
    | ParseInt
    | RootRequired
    | FirewallBackendNotAvailable
    | InterfaceParseError
    | LinkageLeakError(leak: Dns.LeakError)
    | SubcommandRequired

  /** Exit code 2 is reserved and never produced. */
  const RESERVED_EXIT_CODE: i32 := 2

  /**
    `CliError::get_exit_code`: 3 exactly for a missing root privilege, 1 for
    every other error, so the reserved code never appears.
   */
  function GetExitCode(e: CliError): (code: i32)
    ensures code == 1 || code == 3
    ensures code == 3 <==> e.RootRequired?
    ensures code != RESERVED_EXIT_CODE
  {
    match e
    case RootRequired => 3
    case _ => 1
  }
}
