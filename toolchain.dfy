/**
 * What the two maintenance scripts share: the commands they launch, the
 * host's answers to probes and launches (given to the model as oracles), the
 * errors that abort a script, the trace of commands a script runs, and the
 * package-manager choice that both scripts make with the same code.
 */
module Toolchain {

  import opened Wrappers

  /** One `run(cmd, args, cwd, extraEnv)`: a process spawned through the shell. */
  datatype Command = Command(program: string, args: seq<string>, cwd: string, env: map<string, string>)

  /**
   * The host as the scripts observe it.
   * `probe(cmd, args)`: whether `spawnSync(cmd, args)` ends with status 0.
   * `exitCode(c)`: the code `run` sees on the `close` event of `c`.
   */
  datatype Host = Host(probe: (string, seq<string>) -> bool, exitCode: Command -> int)

  /** `commandExists(cmd)`: `cmd --version` runs and exits with 0. */
  predicate CommandExists(host: Host, cmd: string) {
    host.probe(cmd, ["--version"])
  }

  /** `run` resolves exactly when the exit code is 0. */
  predicate Succeeds(host: Host, c: Command) {
    host.exitCode(c) == 0
  }

  /** The errors that make a script stop (and exit with status 1). */
  datatype Error =
    | NonZeroExit(cmd: Command, code: int)
    | PackageManagerNotFound(name: string)
    | NoPackageManager
    | NoPython
    | VenvPythonMissing

  datatype Outcome = Done | Failed(error: Error)

  /** The commands a script launched, in launch order, and how it ended. */
  datatype Trace = Trace(ran: seq<Command>, outcome: Outcome)

  const Nothing: Trace := Trace([], Done)

  /** Error raised by `run` for a command that exited with a non-zero code. */
  function Failure(host: Host, c: Command): Error {
    NonZeroExit(c, host.exitCode(c))
  }

  /** `await run(c)`: launches `c`; throws unless it exits with 0. */
  function Run(host: Host, c: Command): Trace {
    Trace([c], if Succeeds(host, c) then Done else Failed(Failure(host, c)))
  }

  /** `await a; await b`: `b` runs only when `a` did not throw. */
  function Then(a: Trace, b: Trace): Trace {
    if a.outcome.Failed? then a else Trace(a.ran + b.ran, b.outcome)
  }

  /** A trace that ends in an error raised without launching anything. */
  function Abort(e: Error): Trace {
    Trace([], Failed(e))
  }

  /** Index of the first command that fails, or `|cmds|` when all succeed. */
  function FirstFailure(host: Host, cmds: seq<Command>): (k: nat)
    ensures k <= |cmds|
    ensures forall j :: 0 <= j < k ==> Succeeds(host, cmds[j])
    ensures k < |cmds| ==> !Succeeds(host, cmds[k])
  {
    if cmds == [] then 0
    else if !Succeeds(host, cmds[0]) then 0
    else 1 + FirstFailure(host, cmds[1..])
  }

  /** Awaiting each command in turn, as a sequence of `await run(...)` statements. */
  function RunInOrder(host: Host, cmds: seq<Command>): Trace {
    if cmds == [] then Nothing else Then(Run(host, cmds[0]), RunInOrder(host, cmds[1..]))
  }

  /**
   * A sequence of awaited commands runs every command up to and including the
   * first one that fails, and fails with that command's error; when none fails,
   * it runs them all and succeeds.
   */
  lemma {:induction false} RunInOrderStopsAtFirstFailure(host: Host, cmds: seq<Command>)
    ensures var k := FirstFailure(host, cmds);
      RunInOrder(host, cmds) ==
        if k == |cmds| then Trace(cmds, Done)
        else Trace(cmds[..k + 1], Failed(Failure(host, cmds[k])))
  {
    if cmds != [] {
      var rest := cmds[1..];
      if Succeeds(host, cmds[0]) {
        RunInOrderStopsAtFirstFailure(host, rest);
        var k := FirstFailure(host, rest);
        assert FirstFailure(host, cmds) == k + 1;
        assert RunInOrder(host, cmds) == Trace([cmds[0]] + RunInOrder(host, rest).ran, RunInOrder(host, rest).outcome);
        if k < |rest| {
          assert [cmds[0]] + rest[..k + 1] == cmds[..k + 2];
          assert rest[k] == cmds[k + 1];
        } else {
          assert [cmds[0]] + rest == cmds;
        }
      } else {
        assert cmds[..1] == [cmds[0]];
      }
    }
  }

  /**
   * One more command of a sequence whose earlier commands all succeeded: it
   * either succeeds too, or it is where the sequence stops.
   */
  lemma RunStep(host: Host, cmds: seq<Command>, m: nat)
    requires m < |cmds| && m <= FirstFailure(host, cmds)
    ensures cmds[..m + 1] == cmds[..m] + [cmds[m]]
    ensures Succeeds(host, cmds[m]) ==> m + 1 <= FirstFailure(host, cmds)
    ensures !Succeeds(host, cmds[m]) ==> RunInOrder(host, cmds) == Trace(cmds[..m + 1], Failed(Failure(host, cmds[m])))
  {
    RunInOrderStopsAtFirstFailure(host, cmds);
  }

  /** Index of the first command that succeeds, or `|cmds|` when none does. */
  function FirstSuccess(host: Host, cmds: seq<Command>): (k: nat)
    ensures k <= |cmds|
    ensures forall j :: 0 <= j < k ==> !Succeeds(host, cmds[j])
    ensures k < |cmds| ==> Succeeds(host, cmds[k])
  {
    if cmds == [] then 0
    else if Succeeds(host, cmds[0]) then 0
    else 1 + FirstSuccess(host, cmds[1..])
  }

  /**
   * Trying candidates in turn, as a loop of `try { await run(c); return } catch`
   * or a `try`/`catch` that falls back to a second command: the first success
   * ends it; if all fail, the last error is thrown.
   */
  function TryInTurn(host: Host, cmds: seq<Command>): Trace {
    if cmds == [] then Nothing
    else if Succeeds(host, cmds[0]) then Trace([cmds[0]], Done)
    else if |cmds| == 1 then Trace(cmds, Failed(Failure(host, cmds[0])))
    else
      var rest := TryInTurn(host, cmds[1..]);
      Trace([cmds[0]] + rest.ran, rest.outcome)
  }

  /**
   * Attempt k runs only after attempts 0..k-1 all failed; the first exit-0
   * ends the installation successfully; when every attempt fails, the error of
   * the last one is thrown.
   */
  lemma {:induction false} FallbackStopsAtFirstSuccess(host: Host, cmds: seq<Command>)
    ensures var k := FirstSuccess(host, cmds);
      TryInTurn(host, cmds) ==
        if cmds == [] then Nothing
        else if k < |cmds| then Trace(cmds[..k + 1], Done)
        else Trace(cmds, Failed(Failure(host, cmds[|cmds| - 1])))
  {
    if cmds != [] && Succeeds(host, cmds[0]) {
      assert cmds[..1] == [cmds[0]];
    } else if |cmds| > 1 {
      var rest := cmds[1..];
      FallbackStopsAtFirstSuccess(host, rest);
      var k := FirstSuccess(host, rest);
      assert FirstSuccess(host, cmds) == k + 1;
      assert TryInTurn(host, cmds) == Trace([cmds[0]] + TryInTurn(host, rest).ran, TryInTurn(host, rest).outcome);
      if k < |rest| {
        assert [cmds[0]] + rest[..k + 1] == cmds[..k + 2];
      } else {
        assert [cmds[0]] + rest == cmds;
        assert rest[|rest| - 1] == cmds[|cmds| - 1];
      }
    }
  }

  /** One more attempt after only failures: it ends the installation, or the next attempt follows. */
  lemma TryStep(host: Host, cmds: seq<Command>, i: nat)
    requires i < |cmds| && i <= FirstSuccess(host, cmds)
    ensures cmds[..i + 1] == cmds[..i] + [cmds[i]]
    ensures Succeeds(host, cmds[i]) ==> TryInTurn(host, cmds) == Trace(cmds[..i + 1], Done)
    ensures !Succeeds(host, cmds[i]) ==> i + 1 <= FirstSuccess(host, cmds)
    ensures !Succeeds(host, cmds[i]) && i == |cmds| - 1 ==>
      TryInTurn(host, cmds) == Trace(cmds[..i + 1], Failed(Failure(host, cmds[i])))
  {
    FallbackStopsAtFirstSuccess(host, cmds);
    assert cmds[..|cmds|] == cmds;
  }

  /** The order in which `auto` looks for a package manager. */
  const PackageManagerPriority: seq<string> := ["pnpm", "npm", "cnpm"]

  /**
   * `choosePM(preferred)`: an explicit preference is returned only when that
   * binary exists; `auto` (or an empty preference) takes the first available
   * of pnpm, npm, cnpm; otherwise it throws.
   */
  function ChoosePackageManager(preferred: string, host: Host): (r: Result<string, Error>)
    ensures preferred != "" && preferred != "auto" ==>
      (r.Ok? <==> CommandExists(host, preferred))
      && (r.Ok? ==> r.value == preferred)
      && (r.Err? ==> r.error == PackageManagerNotFound(preferred))
    ensures (preferred == "" || preferred == "auto") && r.Ok? ==>
      exists k :: 0 <= k < |PackageManagerPriority| && PackageManagerPriority[k] == r.value
        && CommandExists(host, r.value)
        && forall j :: 0 <= j < k ==> !CommandExists(host, PackageManagerPriority[j])
    ensures (preferred == "" || preferred == "auto") ==>
      (r.Err? <==> forall k :: 0 <= k < |PackageManagerPriority| ==> !CommandExists(host, PackageManagerPriority[k]))
      && (r.Err? ==> r.error == NoPackageManager)
  {
    assert PackageManagerPriority[0] == "pnpm" && PackageManagerPriority[1] == "npm" && PackageManagerPriority[2] == "cnpm";
    if preferred != "" && preferred != "auto" then
      if !CommandExists(host, preferred) then Err(PackageManagerNotFound(preferred)) else Ok(preferred)
    else if CommandExists(host, "pnpm") then Ok("pnpm")
    else if CommandExists(host, "npm") then Ok("npm")
    else if CommandExists(host, "cnpm") then Ok("cnpm")
    else Err(NoPackageManager)
  }

  /** Whatever `choosePM` returns is a non-empty name, so it can be passed on as a flag value. */
  lemma ChosenPackageManagerIsNamed(preferred: string, host: Host)
    ensures ChoosePackageManager(preferred, host).Ok? ==> ChoosePackageManager(preferred, host).value != ""
  {
  }
}
