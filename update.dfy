/**
 * The repository update script (`scripts/update.mjs`): it chooses a package
 * manager, brings the repository up to date with git (a fast-forward pull that
 * falls back to a rebase, or a hard reset to the remote branch), and then runs
 * the bootstrap script for the requested dependencies. Every step is awaited,
 * so the first failing command ends the script.
 */
module Update {

  import opened Wrappers
  import opened Text
  import opened Toolchain
  import Bootstrap

  // ---------------------------------------------------------------------------
  // Command-line options (parseArgs)
  // ---------------------------------------------------------------------------

  datatype Options = Options(mode: string, scope: string, install: string, pm: string)

  /** What `parseArgs` ends with: the options, or `--help` (usage printed, exit 0). */
  datatype Parse = Parsed(opts: Options) | HelpRequested

  /** The options before any flag. */
  const Defaults: Options := Options("safe", "all", "node", "auto")

  /** The flags whose spaced form takes the next argument as value. */
  const SpacedFlags: set<string> := {"--mode", "--scope", "--install", "--pm"}

  /** The options with the field named by `flag` set to `v`. */
  function WithValue(o: Options, flag: string, v: string): Options
    requires flag in SpacedFlags
  {
    if flag == "--mode" then o.(mode := v)
    else if flag == "--scope" then o.(scope := v)
    else if flag == "--install" then o.(install := v)
    else o.(pm := v)
  }

  /** How reading the argument at the front of the list ends. */
  datatype Step = Consumed(count: nat, out: Options) | Help

  /**
   * One round of the `parseArgs` loop. A spaced flag takes the next argument
   * only when there is one and it is not empty; anything unrecognised is
   * skipped.
   */
  function ReadFlag(rest: seq<string>, out: Options): (s: Step)
    requires rest != []
    ensures s.Consumed? ==> s.count == 1 || (s.count == 2 && |rest| >= 2 && rest[0] in SpacedFlags)
  {
    var a := rest[0];
    var hasValue := |rest| > 1 && rest[1] != "";
    if StartsWith(a, "--mode=") then Consumed(1, out.(mode := InlineValue(a, "--mode")))
    else if a == "--mode" && hasValue then Consumed(2, out.(mode := rest[1]))
    else if StartsWith(a, "--scope=") then Consumed(1, out.(scope := InlineValue(a, "--scope")))
    else if a == "--scope" && hasValue then Consumed(2, out.(scope := rest[1]))
    else if StartsWith(a, "--install=") then Consumed(1, out.(install := InlineValue(a, "--install")))
    else if a == "--install" && hasValue then Consumed(2, out.(install := rest[1]))
    else if StartsWith(a, "--pm=") then Consumed(1, out.(pm := InlineValue(a, "--pm")))
    else if a == "--pm" && hasValue then Consumed(2, out.(pm := rest[1]))
    else if a == "--help" || a == "-h" then Help
    else Consumed(1, out)
  }

  /** The `parseArgs` loop run over the arguments still to be read. */
  function ParseRest(rest: seq<string>, out: Options): Parse
    decreases |rest|
  {
    if rest == [] then Parsed(out)
    else
      match ReadFlag(rest, out)
      case Help => HelpRequested
      case Consumed(n, o) => ParseRest(rest[n..], o)
  }

  /**
   * One round of the `parseArgs` loop, reading `args[i]` (and its value, for
   * a spaced flag). `next` is where the following round starts.
   */
  method ReadArgument(args: seq<string>, i: nat, out: Options) returns (next: nat, o: Options, help: bool)
    requires i < |args|
    ensures help ==> ReadFlag(args[i..], out) == Help
    ensures !help ==> i < next <= |args| && ReadFlag(args[i..], out) == Consumed(next - i, o)
  {
    var rest := args[i..];
    var a := rest[0];
    var hasValue := |rest| > 1 && rest[1] != "";
    next, o, help := i + 1, out, false;
    if StartsWith(a, "--mode=") {
      o := out.(mode := InlineValue(a, "--mode"));
    } else if a == "--mode" && hasValue {
      next, o := i + 2, out.(mode := rest[1]);
    } else if StartsWith(a, "--scope=") {
      o := out.(scope := InlineValue(a, "--scope"));
    } else if a == "--scope" && hasValue {
      next, o := i + 2, out.(scope := rest[1]);
    } else if StartsWith(a, "--install=") {
      o := out.(install := InlineValue(a, "--install"));
    } else if a == "--install" && hasValue {
      next, o := i + 2, out.(install := rest[1]);
    } else if StartsWith(a, "--pm=") {
      o := out.(pm := InlineValue(a, "--pm"));
    } else if a == "--pm" && hasValue {
      next, o := i + 2, out.(pm := rest[1]);
    } else if a == "--help" || a == "-h" {
      help := true;
    }
  }

  /** `parseArgs()` over `process.argv.slice(2)`. */
  method ParseArgs(args: seq<string>) returns (r: Parse)
    ensures r == ParseRest(args, Defaults)
    ensures args == [] ==> r == Parsed(Defaults)
  {
    var out := Defaults;
    var i := 0;
    while i < |args|
      invariant 0 <= i <= |args|
      invariant ParseRest(args[i..], out) == ParseRest(args, Defaults)
    {
      var next, o, help := ReadArgument(args, i, out);
      if help {
        return HelpRequested;
      }
      assert args[i..][next - i..] == args[next..];
      i, out := next, o;
    }
    return Parsed(out);
  }

  /** Arguments after which a new argument is read as a flag, not as a value. */
  predicate EndsOnFlagBoundary(args: seq<string>) {
    args == [] || args[|args| - 1] !in SpacedFlags
  }

  lemma ReadFlagIsLocal(a: seq<string>, b: seq<string>, out: Options)
    requires a != [] && (|a| >= 2 || a[0] !in SpacedFlags)
    ensures ReadFlag(a + b, out) == ReadFlag(a, out)
  {
    assert (a + b)[0] == a[0];
    if |a| >= 2 {
      assert (a + b)[1] == a[1];
    }
  }

  /**
   * Scanning `a + b` is scanning `a` and then `b`, provided `a` does not end
   * with a spaced flag that would take `b`'s first argument as its value.
   */
  lemma {:induction false} ParseAppend(a: seq<string>, b: seq<string>, out: Options)
    requires EndsOnFlagBoundary(a)
    ensures ParseRest(a + b, out) ==
      match ParseRest(a, out)
      case HelpRequested => HelpRequested
      case Parsed(o) => ParseRest(b, o)
    decreases |a|
  {
    if a == [] {
      assert a + b == b;
    } else {
      ReadFlagIsLocal(a, b, out);
      match ReadFlag(a, out)
      case Help =>
      case Consumed(n, o) =>
        assert (a + b)[n..] == a[n..] + b;
        ParseAppend(a[n..], b, o);
    }
  }

  /** A spaced flag on its own matches none of the other branches of the loop. */
  lemma SpacedFlagIsBare(flag: string)
    requires flag in SpacedFlags
    ensures flag != "--help" && flag != "-h"
    ensures !StartsWith(flag, "--mode=") && !StartsWith(flag, "--scope=")
    ensures !StartsWith(flag, "--install=") && !StartsWith(flag, "--pm=")
  {
    if flag == "--mode" {
      assert flag[2] == 'm';
    } else if flag == "--scope" {
      assert flag[2] == 's';
    } else if flag == "--install" {
      assert flag[2] == 'i';
    }
  }

  lemma ReadInlineFlag(flag: string, v: string, out: Options)
    requires flag in SpacedFlags && '=' !in v
    ensures ReadFlag([flag + "=" + v], out) == Consumed(1, WithValue(out, flag, v))
  {
    var e := flag + "=" + v;
    assert '=' !in flag;
    InlineValueOf(flag, v);
    assert e[2] == flag[2];
    if flag == "--scope" {
      assert !StartsWith(e, "--mode=");
    } else if flag == "--install" {
      assert !StartsWith(e, "--mode=") && !StartsWith(e, "--scope=");
    } else if flag == "--pm" {
      assert !StartsWith(e, "--mode=") && !StartsWith(e, "--scope=") && !StartsWith(e, "--install=");
    }
  }

  lemma ReadSpacedFlag(flag: string, v: string, out: Options)
    requires flag in SpacedFlags && v != ""
    ensures ReadFlag([flag, v], out) == Consumed(2, WithValue(out, flag, v))
  {
    SpacedFlagIsBare(flag);
  }

  /**
   * A later spaced flag wins: appending `--mode v` (or the same for the other
   * spaced flags) with a non-empty `v`, which may hold `=`, sets that option
   * to `v` whatever came before.
   */
  lemma LaterSpacedFlagOverrides(args: seq<string>, flag: string, v: string, out: Options)
    requires EndsOnFlagBoundary(args)
    requires flag in SpacedFlags && v != ""
    ensures ParseRest(args, out).HelpRequested? ==> ParseRest(args + [flag, v], out).HelpRequested?
    ensures ParseRest(args, out).Parsed? ==>
      ParseRest(args + [flag, v], out) == Parsed(WithValue(ParseRest(args, out).opts, flag, v))
  {
    ParseAppend(args, [flag, v], out);
    if ParseRest(args, out).Parsed? {
      ReadSpacedFlag(flag, v, ParseRest(args, out).opts);
      assert [flag, v][2..] == [];
    }
  }

  /**
   * A later inline flag wins: appending `--mode=v` (or the same for the other
   * flags) with `v` free of `=`, the empty value included, sets that option
   * to `v` whatever came before.
   */
  lemma LaterInlineFlagOverrides(args: seq<string>, flag: string, v: string, out: Options)
    requires EndsOnFlagBoundary(args)
    requires flag in SpacedFlags && '=' !in v
    ensures ParseRest(args, out).HelpRequested? ==> ParseRest(args + [flag + "=" + v], out).HelpRequested?
    ensures ParseRest(args, out).Parsed? ==>
      ParseRest(args + [flag + "=" + v], out) == Parsed(WithValue(ParseRest(args, out).opts, flag, v))
  {
    ParseAppend(args, [flag + "=" + v], out);
    if ParseRest(args, out).Parsed? {
      ReadInlineFlag(flag, v, ParseRest(args, out).opts);
      assert [flag + "=" + v][1..] == [];
    }
  }

  /** A leading `--flag value` pair sets that option and the rest is read from there. */
  lemma ReadLeadingSpacedFlag(flag: string, v: string, rest: seq<string>, out: Options)
    requires flag in SpacedFlags && v != ""
    ensures ParseRest([flag, v] + rest, out) == ParseRest(rest, WithValue(out, flag, v))
  {
    ReadFlagIsLocal([flag, v], rest, out);
    ReadSpacedFlag(flag, v, out);
    assert ([flag, v] + rest)[2..] == rest;
  }

  /** A spaced flag given as the last argument has no value and is ignored. */
  lemma TrailingFlagIgnored(args: seq<string>, flag: string, out: Options)
    requires EndsOnFlagBoundary(args)
    requires flag in SpacedFlags
    ensures ParseRest(args + [flag], out) == ParseRest(args, out)
  {
    ParseAppend(args, [flag], out);
    if ParseRest(args, out).Parsed? {
      var o := ParseRest(args, out).opts;
      SpacedFlagIsBare(flag);
      assert ReadFlag([flag], o) == Consumed(1, o);
      assert [flag][1..] == [];
    }
  }

  // ---------------------------------------------------------------------------
  // Branch resolution (getCurrentBranch)
  // ---------------------------------------------------------------------------

  /**
   * What `getCurrentBranch(dir)` sees of the repository.
   * `revParse`: the output of `git rev-parse --abbrev-ref HEAD`; `None` when
   * the command fails. `headRef`: the branch name the ref pattern captures
   * from `.git/HEAD`; `None` when the file cannot be read or does not match.
   */
  datatype Repository = Repository(root: string, isGitRepo: bool, revParse: Option<string>, headRef: Option<string>)

  /** The pattern's capture group is one or more characters, so a captured ref is never empty. */
  predicate ValidRepository(repo: Repository) {
    repo.headRef.Some? ==> repo.headRef.value != ""
  }

  /** The rev-parse answer, when it names a branch (trimmed, non-empty and not the detached `HEAD`). */
  predicate NamesBranch(revParse: Option<string>) {
    revParse.Some? && Trim(revParse.value) != "" && Trim(revParse.value) != "HEAD"
  }

  /**
   * `getCurrentBranch(dir)`: the rev-parse answer when it names a branch, else
   * the ref recorded in `.git/HEAD`, else `main`. The result is never empty.
   */
  function CurrentBranch(repo: Repository): (b: string)
    requires ValidRepository(repo)
    ensures b != ""
    ensures NamesBranch(repo.revParse) ==> b == Trim(repo.revParse.value)
    ensures !NamesBranch(repo.revParse) && repo.headRef.Some? ==> b == repo.headRef.value
    ensures !NamesBranch(repo.revParse) && repo.headRef.None? ==> b == "main"
  {
    var out := if repo.revParse.Some? then Trim(repo.revParse.value) else "";
    if out != "" && out != "HEAD" then out
    else
      match repo.headRef
      case Some(ref) => ref
      case None => "main"
  }

  // ---------------------------------------------------------------------------
  // Git steps (safeUpdate, forceUpdate)
  // ---------------------------------------------------------------------------

  function Git(dir: string, args: seq<string>): Command {
    Command("git", args, dir, map[])
  }

  function Fetch(dir: string): Command { Git(dir, ["fetch", "--all", "--prune"]) }
  function PullFastForward(dir: string): Command { Git(dir, ["pull", "--ff-only"]) }
  function PullRebase(dir: string): Command { Git(dir, ["pull", "--rebase", "--autostash"]) }
  function ResetHard(dir: string, branch: string): Command { Git(dir, ["reset", "--hard", "origin/" + branch]) }
  function Clean(dir: string): Command { Git(dir, ["clean", "-fdx"]) }

  /** A git command that pulls. */
  predicate IsPull(c: Command) {
    c.program == "git" && |c.args| >= 1 && c.args[0] == "pull"
  }

  /** `safeUpdate(dir)`: fetch, then a fast-forward pull that falls back to a rebase. */
  function SafeUpdateTrace(dir: string, host: Host): Trace {
    Then(Run(host, Fetch(dir)), TryInTurn(host, [PullFastForward(dir), PullRebase(dir)]))
  }

  method SafeUpdate(dir: string, host: Host) returns (t: Trace)
    ensures t == SafeUpdateTrace(dir, host)
  {
    var fetch := Fetch(dir);
    assert [PullFastForward(dir), PullRebase(dir)][1..] == [PullRebase(dir)];
    if !Succeeds(host, fetch) {
      return Trace([fetch], Failed(Failure(host, fetch)));
    }
    var ff := PullFastForward(dir);
    if Succeeds(host, ff) {
      return Trace([fetch, ff], Done);
    }
    // the fast-forward pull failed: rebase with autostash
    var rebase := PullRebase(dir);
    if !Succeeds(host, rebase) {
      assert TryInTurn(host, [ff, rebase]) == Trace([ff, rebase], Failed(Failure(host, rebase)));
      return Trace([fetch, ff, rebase], Failed(Failure(host, rebase)));
    }
    return Trace([fetch, ff, rebase], Done);
  }

  /**
   * The fetch always comes first and a failed fetch stops everything; the
   * rebase runs iff the fast-forward pull failed; the update fails iff the
   * fetch fails or both pulls fail, and then with the error of the last
   * command launched.
   */
  lemma SafeUpdateSteps(dir: string, host: Host)
    ensures var t := SafeUpdateTrace(dir, host);
      && |t.ran| >= 1 && t.ran[0] == Fetch(dir)
      && (!Succeeds(host, Fetch(dir)) ==> t.ran == [Fetch(dir)])
      && (PullRebase(dir) in t.ran <==> Succeeds(host, Fetch(dir)) && !Succeeds(host, PullFastForward(dir)))
      && (t.outcome.Failed? <==>
            !Succeeds(host, Fetch(dir)) || (!Succeeds(host, PullFastForward(dir)) && !Succeeds(host, PullRebase(dir))))
      && (t.outcome.Failed? ==> t.outcome.error == Failure(host, t.ran[|t.ran| - 1]))
  {
    var cmds := [PullFastForward(dir), PullRebase(dir)];
    FallbackStopsAtFirstSuccess(host, cmds);
    assert cmds[1..] == [PullRebase(dir)];
    assert Fetch(dir).args[0] == "fetch" && PullFastForward(dir).args[1] == "--ff-only";
  }

  /** `forceUpdate(dir)`: fetch, hard reset to the remote branch, clean. */
  function ForceUpdateTrace(dir: string, branch: string, host: Host): Trace {
    RunInOrder(host, [Fetch(dir), ResetHard(dir, branch), Clean(dir)])
  }

  method ForceUpdate(repo: Repository, host: Host) returns (t: Trace)
    requires ValidRepository(repo)
    ensures t == ForceUpdateTrace(repo.root, CurrentBranch(repo), host)
  {
    var branch := CurrentBranch(repo);
    var steps := [Fetch(repo.root), ResetHard(repo.root, branch), Clean(repo.root)];
    var ran: seq<Command> := [];
    for k := 0 to |steps|
      invariant ran == steps[..k] && k <= FirstFailure(host, steps)
    {
      RunStep(host, steps, k);
      if !Succeeds(host, steps[k]) {
        return Trace(ran + [steps[k]], Failed(Failure(host, steps[k])));
      }
      ran := ran + [steps[k]];
    }
    RunInOrderStopsAtFirstFailure(host, steps);
    assert steps[..|steps|] == steps;
    return Trace(ran, Done);
  }

  /**
   * The forced update launches fetch, reset and clean in that order, each only
   * after the previous one succeeded; the reset targets `origin/<branch>`; no
   * pull is ever launched.
   */
  lemma ForceUpdateSteps(dir: string, branch: string, host: Host)
    ensures var t := ForceUpdateTrace(dir, branch, host);
      var steps := [Fetch(dir), ResetHard(dir, branch), Clean(dir)];
      && 1 <= |t.ran| <= 3 && t.ran == steps[..|t.ran|]
      && (forall k :: 0 <= k < |t.ran| - 1 ==> Succeeds(host, t.ran[k]))
      && (t.outcome.Done? <==> |t.ran| == 3 && Succeeds(host, Clean(dir)))
      && (forall k :: 0 <= k < |t.ran| ==> !IsPull(t.ran[k]))
      && ResetHard(dir, branch).args[2] == "origin/" + branch
  {
    var steps := [Fetch(dir), ResetHard(dir, branch), Clean(dir)];
    var t := ForceUpdateTrace(dir, branch, host);
    RunInOrderStopsAtFirstFailure(host, steps);
    var k := FirstFailure(host, steps);
    assert Fetch(dir).args[0] == "fetch" && ResetHard(dir, branch).args[0] == "reset" && Clean(dir).args[0] == "clean";
    assert forall j :: 0 <= j < 3 ==> !IsPull(steps[j]);
    if k == 3 {
      assert t == Trace(steps, Done);
      assert steps[..3] == steps;
    } else {
      assert t == Trace(steps[..k + 1], Failed(Failure(host, steps[k])));
      assert !Succeeds(host, steps[k]);
      assert forall j :: 0 <= j < |t.ran| ==> t.ran[j] == steps[j];
    }
  }

  // ---------------------------------------------------------------------------
  // Dependencies (ensureDependencies)
  // ---------------------------------------------------------------------------

  /** How the update runs the bootstrap script: `process.execPath`, from the repository root. */
  datatype Launcher = Launcher(nodePath: string, repoRoot: string)

  function NodeBootstrap(l: Launcher, pm: string): Command {
    Command(l.nodePath, ["scripts/bootstrap.mjs", "--only", "node", "--force", "--pm", pm], l.repoRoot, map[])
  }

  function PythonBootstrap(l: Launcher): Command {
    Command(l.nodePath, ["scripts/bootstrap.mjs", "--only", "python", "--force"], l.repoRoot, map[])
  }

  /** The bootstrap runs each install mode asks for, Node before Python. */
  function DependencyCommands(install: string, pm: string, l: Launcher): (cmds: seq<Command>)
    ensures install == "node" ==> cmds == [NodeBootstrap(l, pm)]
    ensures install == "python" ==> cmds == [PythonBootstrap(l)]
    ensures install == "all" ==> cmds == [NodeBootstrap(l, pm), PythonBootstrap(l)]
    ensures install !in {"node", "python", "all"} ==> cmds == []
  {
    (if install == "node" || install == "all" then [NodeBootstrap(l, pm)] else [])
      + (if install == "python" || install == "all" then [PythonBootstrap(l)] else [])
  }

  /** `ensureDependencies(install, pmChoice)` */
  function EnsureDependencies(install: string, pm: string, l: Launcher, host: Host): Trace {
    if install == "none" then Nothing else RunInOrder(host, DependencyCommands(install, pm, l))
  }

  /**
   * The Node bootstrap child reads exactly `--only node --force --pm <pm>`:
   * parsed by the bootstrap script, those arguments give its defaults with
   * only = node, force set and the chosen package manager.
   */
  lemma NodeBootstrapReceivesOptions(l: Launcher, pm: string, envPipIndex: string)
    requires pm != ""
    ensures Bootstrap.ParseRest(NodeBootstrap(l, pm).args[1..], Bootstrap.Defaults(envPipIndex))
      == Bootstrap.Parsed(Bootstrap.Defaults(envPipIndex).(only := "node", force := true, pm := pm))
  {
    var d := Bootstrap.Defaults(envPipIndex);
    var args := NodeBootstrap(l, pm).args[1..];
    assert args == ["--only", "node", "--force", "--pm", pm];
    Bootstrap.SpacedFlagIsBare("--only");
    Bootstrap.SpacedFlagIsBare("--pm");
    var d1 := d.(only := "node");
    var d2 := d1.(force := true);
    assert Bootstrap.ReadFlag(args, d) == Bootstrap.Consumed(2, d1);
    assert args[2..] == ["--force", "--pm", pm];
    assert Bootstrap.ReadFlag(args[2..], d1) == Bootstrap.Consumed(1, d2);
    assert args[2..][1..] == ["--pm", pm];
    assert Bootstrap.ReadFlag(["--pm", pm], d2) == Bootstrap.Consumed(2, d2.(pm := pm));
    assert ["--pm", pm][2..] == [];
    assert Bootstrap.ParseRest(["--pm", pm], d2) == Bootstrap.Parsed(d2.(pm := pm));
    assert Bootstrap.ParseRest(args[2..], d1) == Bootstrap.Parsed(d2.(pm := pm));
  }

  /** The Python bootstrap child reads exactly `--only python --force`. */
  lemma PythonBootstrapReceivesOptions(l: Launcher, envPipIndex: string)
    ensures Bootstrap.ParseRest(PythonBootstrap(l).args[1..], Bootstrap.Defaults(envPipIndex))
      == Bootstrap.Parsed(Bootstrap.Defaults(envPipIndex).(only := "python", force := true))
  {
    var d := Bootstrap.Defaults(envPipIndex);
    var args := PythonBootstrap(l).args[1..];
    assert args == ["--only", "python", "--force"];
    Bootstrap.SpacedFlagIsBare("--only");
    var d1 := d.(only := "python");
    assert Bootstrap.ReadFlag(args, d) == Bootstrap.Consumed(2, d1);
    assert args[2..] == ["--force"];
    assert Bootstrap.ReadFlag(["--force"], d1) == Bootstrap.Consumed(1, d1.(force := true));
    assert ["--force"][1..] == [];
  }

  // ---------------------------------------------------------------------------
  // The whole script (main)
  // ---------------------------------------------------------------------------

  /** The git part of `main`: skipped without `.git`; `force` hard-resets, any other mode updates safely. */
  function GitStep(mode: string, repo: Repository, host: Host): Trace
    requires ValidRepository(repo)
  {
    if !repo.isGitRepo then Nothing
    else if mode == "force" then ForceUpdateTrace(repo.root, CurrentBranch(repo), host)
    else SafeUpdateTrace(repo.root, host)
  }

  /** What `main` launches once the options are known. */
  function UpdateTrace(opts: Options, repo: Repository, nodePath: string, host: Host): Trace
    requires ValidRepository(repo)
  {
    match ChoosePackageManager(opts.pm, host)
    case Err(e) => Abort(e)
    case Ok(pm) => Then(GitStep(opts.mode, repo, host), EnsureDependencies(opts.install, pm, Launcher(nodePath, repo.root), host))
  }

  /** `main()`: parse, choose the package manager, update the repository, install dependencies. */
  method RunUpdate(argv: seq<string>, repo: Repository, nodePath: string, host: Host) returns (t: Trace)
    requires ValidRepository(repo)
    ensures ParseRest(argv, Defaults).HelpRequested? ==> t == Nothing
    ensures ParseRest(argv, Defaults).Parsed? ==> t == UpdateTrace(ParseRest(argv, Defaults).opts, repo, nodePath, host)
  {
    var parsed := ParseArgs(argv);
    if parsed.HelpRequested? {
      return Nothing;
    }
    var opts := parsed.opts;
    var choice := ChoosePackageManager(opts.pm, host);
    if choice.Err? {
      return Abort(choice.error);
    }
    var pm := choice.value;
    t := Nothing;
    if repo.isGitRepo {
      if opts.mode == "force" {
        t := ForceUpdate(repo, host);
      } else {
        t := SafeUpdate(repo.root, host);
      }
      if t.outcome.Failed? {
        return;
      }
    }
    var deps := EnsureDependencies(opts.install, pm, Launcher(nodePath, repo.root), host);
    t := Trace(t.ran + deps.ran, deps.outcome);
  }

  /**
   * Step order of `main`: the package manager is chosen before anything runs
   * (even with `--install none`); a failing git step ends the script before
   * any dependency is installed; without `.git` only the dependencies run;
   * `scope` never changes what runs.
   */
  lemma UpdateStepOrder(opts: Options, repo: Repository, nodePath: string, host: Host, scope: string)
    requires ValidRepository(repo)
    ensures ChoosePackageManager(opts.pm, host).Err? ==>
      UpdateTrace(opts, repo, nodePath, host) == Abort(ChoosePackageManager(opts.pm, host).error)
    ensures ChoosePackageManager(opts.pm, host).Ok? && GitStep(opts.mode, repo, host).outcome.Failed? ==>
      UpdateTrace(opts, repo, nodePath, host) == GitStep(opts.mode, repo, host)
    ensures ChoosePackageManager(opts.pm, host).Ok? && !repo.isGitRepo ==>
      UpdateTrace(opts, repo, nodePath, host)
        == EnsureDependencies(opts.install, ChoosePackageManager(opts.pm, host).value, Launcher(nodePath, repo.root), host)
    ensures UpdateTrace(opts.(scope := scope), repo, nodePath, host) == UpdateTrace(opts, repo, nodePath, host)
  {
  }

  /** Any mode other than `force` takes the safe path, which never resets or cleans. */
  lemma AnyOtherModeIsSafe(mode: string, repo: Repository, host: Host)
    requires ValidRepository(repo) && repo.isGitRepo && mode != "force"
    ensures GitStep(mode, repo, host) == SafeUpdateTrace(repo.root, host)
    ensures forall k :: 0 <= k < |GitStep(mode, repo, host).ran| ==>
      GitStep(mode, repo, host).ran[k] in {Fetch(repo.root), PullFastForward(repo.root), PullRebase(repo.root)}
  {
    var cmds := [PullFastForward(repo.root), PullRebase(repo.root)];
    FallbackStopsAtFirstSuccess(host, cmds);
    assert cmds[1..] == [PullRebase(repo.root)];
  }
}
