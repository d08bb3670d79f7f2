/**
  The `Executor` capability: run one firewall-management command and report
  success or a `FirewallError`.

  Two executors are modelled. `RecordingExecutor` is the recording fake that
  the backend's tests use: it keeps every argument vector it receives, in
  order, and answers from a failure oracle. `IptablesCommandExecutor` is the
  real one, reduced to what it decides: which program it starts and how the
  outcome of that process becomes a `FirewallResult`.
 */
module Executor {
  import opened Wrappers
  import opened Net
  import opened Firewalls

  /** One invocation of the filter-management tool: its argument tokens. */
  type Command = seq<string>

  /**
    An executor that records its calls. `failures[i]`, when present, is the
    error with which the call at position `i` of the log fails; every other call
    succeeds. This covers any executor whose answers do not depend on the
    arguments, and any answers a test scripts in advance.
   */
  class RecordingExecutor {
    var log: seq<Command>
    const failures: map<nat, FirewallError>

    constructor (failures: map<nat, FirewallError>)
      ensures log == [] && this.failures == failures
    {
      log := [];
      this.failures := failures;
    }

    /** The answer the call at position `index` receives. */
    function Verdict(index: nat): (r: Outcome<FirewallError>)
      ensures r.Fail? <==> index in failures
      ensures r.Fail? ==> r.error == failures[index]
    {
      if index in failures then Fail(failures[index]) else Pass
    }

    /** `Executor::execute`: the call is recorded, then answered. */
    method Execute(args: Command) returns (r: Outcome<FirewallError>)
      modifies this
      ensures log == old(log) + [args]
      ensures r == Verdict(|old(log)|)
    {
      r := Verdict(|log|);
      log := log + [args];
    }
  }

  /** `IptablesBaseCommand`: which of the two tools an executor drives. */
  datatype IptablesBaseCommand = Iptables | Ip6tables

  /** `IptablesBaseCommand::get_command`. */
  function GetCommand(b: IptablesBaseCommand): (s: string)
    ensures b.Iptables? ==> s == "iptables"
    ensures b.Ip6tables? ==> s == "ip6tables"
  {
    match b
    case Iptables => "iptables"
    case Ip6tables => "ip6tables"
  }

  /** The two base commands name different programs. */
  lemma GetCommandInjective(a: IptablesBaseCommand, b: IptablesBaseCommand)
    requires GetCommand(a) == GetCommand(b)
    ensures a == b
  {
  }

  /** `IptablesCommandExecutor`: an executor bound to one base command. */
  datatype IptablesCommandExecutor = IptablesCommandExecutor(base: IptablesBaseCommand)

  /** `IptablesCommandExecutor::new`. */
  function NewIptablesCommandExecutor(base: IptablesBaseCommand): (e: IptablesCommandExecutor)
    ensures e.base == base
  {
    IptablesCommandExecutor(base)
  }

  /** A started process, as `std::process::Command` describes it. */
  datatype Invocation = Invocation(program: string, args: seq<string>)

  /** The process `execute` starts: the base command's program with exactly the given arguments. */
  function InvocationOf(e: IptablesCommandExecutor, args: Command): (inv: Invocation)
    ensures inv.program == GetCommand(e.base) && inv.args == args
  {
    Invocation(GetCommand(e.base), args)
  }

  /**
    The exit status of a finished process. `code` is absent when a signal
    ended the process; `success()` holds exactly for exit code 0.
   */
  datatype ExitStatus = ExitStatus(code: Option<i32>)

  predicate Success(s: ExitStatus) { s.code == Some(0) }

  /** What happens when `execute` runs the process. */
  datatype ProcessRun =
    | SpawnFailed(spawnError: IoError)
    | WaitFailed(waitError: IoError)
    | Exited(status: ExitStatus)

  /** How `execute` turns the process run into its result. */
  function ExecuteResult(run: ProcessRun): (r: Outcome<FirewallError>)
    ensures r.Pass? <==> run.Exited? && Success(run.status)
    ensures run.Exited? && r.Fail? ==> r.error == IptablesError(run.status.code)
    ensures run.SpawnFailed? ==> r == Fail(IoError(run.spawnError))
    ensures run.WaitFailed? ==> r == Fail(IoError(run.waitError))
  {
    match run
    case SpawnFailed(e) => Fail(IoError(e))
    case WaitFailed(e) => Fail(IoError(e))
    case Exited(status) =>
      if Success(status) then Pass else Fail(IptablesError(status.code))
  }
}
