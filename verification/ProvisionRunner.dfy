/**
  How one provisioning command is run: the retry loop and the reply of ops/mc-provisioner-daemon.js, the client
  of src/lib/provisioner-client.ts, `runCommand` of src/lib/command.ts and `runProvisionStep` of
  src/lib/super-admin.ts.
  */
module ProvisionRunner {
  import opened Wrappers

  /** How a child process ends; `code` is missing when a signal ended it. */
  datatype ProcessEnd =
    | Closed(code: Option<int>, timedOut: bool, passwdLocked: bool)
    | SpawnFailed(passwdLocked: bool)

  datatype RunResult = RunResult(ok: bool, code: Option<int>, passwdLocked: bool)

  predicate ExitedWithZero(end: ProcessEnd) {
    end.Closed? && end.code == Some(0)
  }

  /** The daemon's `run`; a process that had to be killed is reported as 124, one that could not start as 1. */
  function Run(end: ProcessEnd): (r: RunResult)
    ensures r.ok <==> ExitedWithZero(end) && !end.timedOut
    ensures r.passwdLocked == end.passwdLocked
    ensures r.ok ==> r.code == Some(0)
  {
    match end
    case Closed(code, timedOut, locked) =>
      RunResult(!timedOut && code == Some(0), if timedOut then Some(124) else code, locked)
    case SpawnFailed(locked) => RunResult(false, Some(1), locked)
  }

  function MaxAttempts(cmd: string): nat {
    if cmd == "useradd" then 6 else 1
  }

  /** Whether a failed attempt is worth another one. */
  predicate TransientLock(cmd: string, result: RunResult) {
    cmd == "useradd" && result.passwdLocked
  }

  /**
    Attempt `n` is the one that counts: it is the sixth for `useradd` and the first for every other command, unless an
    earlier attempt succeeded or failed without finding the password file locked.
    */
  predicate StopsAt(cmd: string, ends: nat -> ProcessEnd, n: nat) {
    && 1 <= n <= 6 && (cmd != "useradd" ==> n == 1)
    && (forall k: nat :: 1 <= k < n ==> ends(k).passwdLocked && !(ExitedWithZero(ends(k)) && !ends(k).timedOut))
    && (cmd == "useradd" && n < 6 && ends(n).passwdLocked ==> ExitedWithZero(ends(n)) && !ends(n).timedOut)
  }

  lemma StopIsUnique(cmd: string, ends: nat -> ProcessEnd, m: nat, n: nat)
    requires StopsAt(cmd, ends, m) && StopsAt(cmd, ends, n)
    ensures m == n
  {
  }

  /** The retry loop; `ends` says how the process of each attempt ends. */
  method RunWithRetry(cmd: string, ends: nat -> ProcessEnd) returns (last: RunResult)
    ensures exists n: nat :: StopsAt(cmd, ends, n) && last == Run(ends(n))
  {
    var maxAttempts := MaxAttempts(cmd);
    var attempt := 1;
    last := RunResult(false, Some(1), false);
    while attempt <= maxAttempts
      invariant 1 <= attempt <= maxAttempts
      invariant forall k: nat :: 1 <= k < attempt ==> !Run(ends(k)).ok && TransientLock(cmd, Run(ends(k)))
      decreases maxAttempts - attempt
    {
      last := Run(ends(attempt));
      if last.ok || !TransientLock(cmd, last) || attempt == maxAttempts {
        assert StopsAt(cmd, ends, attempt);
        return;
      }
      attempt := attempt + 1;
    }
  }

  datatype Response = Response(ok: bool, code: Option<int>, skipped: bool)

  /** The daemon's answer to a request that has the right token. */
  function DaemonResponse(allowlisted: bool, dryRun: bool, result: RunResult): Response {
    if !allowlisted then Response(false, None, false)
    else if dryRun then Response(true, Some(0), true)
    else Response(result.ok, result.code, false)
  }

  datatype Reply = Reply(code: Option<int>, skipped: bool)

  /** The client: a response that is not ok becomes an exception, a missing code becomes 1. */
  function ClientReply(response: Response): Result<Reply, string> {
    if !response.ok then Err("Provisioner command failed")
    else Ok(Reply(if response.code.Some? then response.code else Some(1), response.skipped))
  }

  /** `runCommand` resolves on exit code 0 and rejects on everything else. */
  function CommandReply(end: ProcessEnd): Result<Reply, string> {
    match end
    case Closed(code, _, _) => if code == Some(0) then Ok(Reply(code, false)) else Err("Command failed")
    case SpawnFailed(_) => Err("spawn error")
  }

  /** What one step meets outside the program; `end` is how its process, in the last attempt, ends. */
  datatype World = World(daemonMode: bool, connected: bool, allowlisted: bool, end: ProcessEnd)

  datatype PlanItem = PlanItem(key: string, command: seq<string>, requiresRoot: bool)

  function RunProvisionStep(item: PlanItem, dryRun: bool, world: World): Result<Reply, string> {
    if item.command == [] || item.command[0] == "" then Err("Invalid command for step " + item.key)
    else if item.requiresRoot && world.daemonMode then
      if !world.connected then Err("Provisioner socket error")
      else ClientReply(DaemonResponse(world.allowlisted, dryRun, Run(world.end)))
    else if dryRun then Ok(Reply(Some(0), true))
    else CommandReply(world.end)
  }

  /**
    What lets a step succeed: a command; as root through the daemon a connection, a place on the allowlist and, unless
    it is a dry run, an exit code of 0 in time; otherwise a dry run or an exit code of 0.
    */
  predicate Succeeds(item: PlanItem, dryRun: bool, world: World) {
    && item.command != [] && item.command[0] != ""
    && if item.requiresRoot && world.daemonMode
       then world.connected && world.allowlisted && (dryRun || (ExitedWithZero(world.end) && !world.end.timedOut))
       else dryRun || ExitedWithZero(world.end)
  }

  /** A step succeeds in exactly those cases; its exit code is then 0, and it is skipped exactly in a dry run. */
  lemma StepsSucceedExactly(item: PlanItem, dryRun: bool, world: World)
    ensures RunProvisionStep(item, dryRun, world).Ok? <==> Succeeds(item, dryRun, world)
    ensures Succeeds(item, dryRun, world) ==> RunProvisionStep(item, dryRun, world).value == Reply(Some(0), dryRun)
  {
  }
}
