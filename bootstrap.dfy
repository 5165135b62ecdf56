/**
 * The workspace bootstrap script (`scripts/bootstrap.mjs`): it installs the
 * Node dependencies of every Node project in the workspace and prepares the
 * Python virtual environment of `sentra-emo`, installing its requirements with
 * a mirror / official index / `uv` fallback.
 *
 * The host is an oracle: `Host.probe` answers `spawnSync` probes,
 * `Host.exitCode` gives the exit code of each launched command, and
 * `Workspace.present` answers `fs.accessSync`. A run of the script is the
 * `Trace` of the commands it would launch and how it ends.
 */
module Bootstrap {

  import opened Wrappers
  import opened Text
  import opened Toolchain

  // ---------------------------------------------------------------------------
  // Command-line options (parseArgs)
  // ---------------------------------------------------------------------------

  datatype Options = Options(pm: string, py: string, force: bool, dryRun: bool, only: string, pipIndex: string)

  /** What `parseArgs` ends with: the options, or `--help` (usage printed, exit 0). */
  datatype Parse = Parsed(opts: Options) | HelpRequested

  /** The options before any flag; `envPipIndex` is `PIP_INDEX_URL`, "" when unset. */
  function Defaults(envPipIndex: string): Options {
    Options("auto", "auto", false, false, "all", envPipIndex)
  }

  /** The flags whose spaced form takes the next argument as value. */
  const SpacedFlags: set<string> := {"--pm", "--py", "--only", "--pip-index"}

  /** The options with the field named by a spaced flag set to `v`. */
  function WithValue(o: Options, flag: string, v: string): Options
    requires flag in SpacedFlags
  {
    if flag == "--pm" then o.(pm := v)
    else if flag == "--py" then o.(py := v)
    else if flag == "--only" then o.(only := v)
    else o.(pipIndex := v)
  }

  /** How reading the argument at the front of the list ends. */
  datatype Step = Consumed(count: nat, out: Options) | Help

  /**
   * One round of the `parseArgs` loop on the arguments still to be read. A
   * spaced flag takes the next argument only when there is one and it is not
   * empty; otherwise the flag is skipped like any unknown argument.
   */
  function ReadFlag(rest: seq<string>, out: Options): (s: Step)
    requires rest != []
    ensures s.Consumed? ==> s.count == 1 || (s.count == 2 && |rest| >= 2 && rest[0] in SpacedFlags)
  {
    var a := rest[0];
    var hasValue := |rest| > 1 && rest[1] != "";
    if a == "--force" then Consumed(1, out.(force := true))
    else if a == "--dry-run" then Consumed(1, out.(dryRun := true))
    else if StartsWith(a, "--pm=") then Consumed(1, out.(pm := InlineValue(a, "--pm")))
    else if a == "--pm" && hasValue then Consumed(2, out.(pm := rest[1]))
    else if StartsWith(a, "--py=") then Consumed(1, out.(py := InlineValue(a, "--py")))
    else if a == "--py" && hasValue then Consumed(2, out.(py := rest[1]))
    else if StartsWith(a, "--only=") then Consumed(1, out.(only := InlineValue(a, "--only")))
    else if a == "--only" && hasValue then Consumed(2, out.(only := rest[1]))
    else if StartsWith(a, "--pip-index=") then Consumed(1, out.(pipIndex := InlineValue(a, "--pip-index")))
    else if a == "--pip-index" && hasValue then Consumed(2, out.(pipIndex := rest[1]))
    else if a == "--help" || a == "-h" then Help
    else Consumed(1, out)
  }

  /** The `parseArgs` loop run over the arguments still to be read. */
  function ParseRest(rest: seq<string>, out: Options): Parse
    decreases |rest|
  {
    if rest == [] then Parsed(out)
    else
      match ReadFlag(rest, out)
      case Help => HelpRequested
      case Consumed(n, o) => ParseRest(rest[n..], o)
  }

  /**
   * One round of the `parseArgs` loop, reading `args[i]` (and its value, for
   * a spaced flag). `next` is where the following round starts.
   */
  method ReadArgument(args: seq<string>, i: nat, out: Options) returns (next: nat, o: Options, help: bool)
    requires i < |args|
    ensures help ==> ReadFlag(args[i..], out) == Help
    ensures !help ==> i < next <= |args| && ReadFlag(args[i..], out) == Consumed(next - i, o)
  {
    var rest := args[i..];
    var a := rest[0];
    var hasValue := |rest| > 1 && rest[1] != "";
    next, o, help := i + 1, out, false;
    if a == "--force" {
      o := out.(force := true);
    } else if a == "--dry-run" {
      o := out.(dryRun := true);
    } else if StartsWith(a, "--pm=") {
      o := out.(pm := InlineValue(a, "--pm"));
    } else if a == "--pm" && hasValue {
      next, o := i + 2, out.(pm := rest[1]);
    } else if StartsWith(a, "--py=") {
      o := out.(py := InlineValue(a, "--py"));
    } else if a == "--py" && hasValue {
      next, o := i + 2, out.(py := rest[1]);
    } else if StartsWith(a, "--only=") {
      o := out.(only := InlineValue(a, "--only"));
    } else if a == "--only" && hasValue {
      next, o := i + 2, out.(only := rest[1]);
    } else if StartsWith(a, "--pip-index=") {
      o := out.(pipIndex := InlineValue(a, "--pip-index"));
    } else if a == "--pip-index" && hasValue {
      next, o := i + 2, out.(pipIndex := rest[1]);
    } else if a == "--help" || a == "-h" {
      help := true;
    }
  }

  /** `parseArgs()` over `process.argv.slice(2)`. */
  method ParseArgs(args: seq<string>, envPipIndex: string) returns (r: Parse)
    ensures r == ParseRest(args, Defaults(envPipIndex))
    ensures args == [] ==> r == Parsed(Defaults(envPipIndex))
  {
    var out := Defaults(envPipIndex);
    var i := 0;
    while i < |args|
      invariant 0 <= i <= |args|
      invariant ParseRest(args[i..], out) == ParseRest(args, Defaults(envPipIndex))
    {
      var next, o, help := ReadArgument(args, i, out);
      if help {
        return HelpRequested;
      }
      assert args[i..][next - i..] == args[next..];
      i, out := next, o;
    }
    return Parsed(out);
  }

  /** Arguments after which a new argument is read as a flag, not as a value. */
  predicate EndsOnFlagBoundary(args: seq<string>) {
    args == [] || args[|args| - 1] !in SpacedFlags
  }

  /** Reading the front argument looks at no more than the argument and, for a spaced flag, its value. */
  lemma ReadFlagIsLocal(a: seq<string>, b: seq<string>, out: Options)
    requires a != [] && (|a| >= 2 || a[0] !in SpacedFlags)
    ensures ReadFlag(a + b, out) == ReadFlag(a, out)
  {
    assert (a + b)[0] == a[0];
    if |a| >= 2 {
      assert (a + b)[1] == a[1];
    }
  }

  /**
   * Scanning `a + b` is scanning `a` and then `b`, provided `a` does not end
   * with a spaced flag that would take `b`'s first argument as its value.
   */
  lemma {:induction false} ParseAppend(a: seq<string>, b: seq<string>, out: Options)
    requires EndsOnFlagBoundary(a)
    ensures ParseRest(a + b, out) ==
      match ParseRest(a, out)
      case HelpRequested => HelpRequested
      case Parsed(o) => ParseRest(b, o)
    decreases |a|
  {
    if a == [] {
      assert a + b == b;
    } else {
      ReadFlagIsLocal(a, b, out);
      match ReadFlag(a, out)
      case Help =>
      case Consumed(n, o) =>
        assert (a + b)[n..] == a[n..] + b;
        ParseAppend(a[n..], b, o);
    }
  }

  /** `--pm=v` (and the other inline forms) sets the option to `v`. */
  lemma ReadInlineFlag(flag: string, v: string, out: Options)
    requires flag in SpacedFlags && '=' !in v
    ensures ReadFlag([flag + "=" + v], out) == Consumed(1, WithValue(out, flag, v))
  {
    var e := flag + "=" + v;
    assert '=' !in flag;
    InlineValueOf(flag, v);
    assert e[2] == flag[2] && e[3] == flag[3];
    assert e != "--force" && e != "--dry-run";
    if flag == "--py" {
      assert !StartsWith(e, "--pm=");
    } else if flag == "--only" {
      assert !StartsWith(e, "--pm=") && !StartsWith(e, "--py=");
    } else if flag == "--pip-index" {
      assert !StartsWith(e, "--pm=") && !StartsWith(e, "--py=") && !StartsWith(e, "--only=");
    }
  }

  /**
   * An inline index URL that itself holds `=` (a query string) is cut at
   * that `=`: `--pip-index=https://m/s?a=b` sets the index to `https://m/s?a`.
   */
  lemma InlineIndexUrlIsCut(v: string, tail: string, out: Options)
    requires '=' !in v
    ensures ReadFlag(["--pip-index=" + v + "=" + tail], out) == Consumed(1, out.(pipIndex := v))
  {
    var e := "--pip-index=" + v + "=" + tail;
    assert e == "--pip-index" + "=" + v + "=" + tail;
    InlineValueStopsAtEquals("--pip-index", v, tail);
    assert e[2] == 'p' && e[3] == 'i';
    assert e != "--force" && e != "--dry-run";
    assert !StartsWith(e, "--pm=") && !StartsWith(e, "--py=") && !StartsWith(e, "--only=");
  }

  /** A spaced flag on its own matches none of the other branches of the loop. */
  lemma SpacedFlagIsBare(flag: string)
    requires flag in SpacedFlags
    ensures flag != "--force" && flag != "--dry-run" && flag != "--help" && flag != "-h"
    ensures !StartsWith(flag, "--pm=") && !StartsWith(flag, "--py=")
    ensures !StartsWith(flag, "--only=") && !StartsWith(flag, "--pip-index=")
  {
    if flag == "--only" {
      assert flag[2] == 'o';
    } else if flag == "--pip-index" {
      assert flag[2] == 'p' && flag[3] == 'i';
    }
  }

  /** `--pm v` (and the other spaced forms) sets the option to `v`. */
  lemma ReadSpacedFlag(flag: string, v: string, out: Options)
    requires flag in SpacedFlags && v != ""
    ensures ReadFlag([flag, v], out) == Consumed(2, WithValue(out, flag, v))
  {
    SpacedFlagIsBare(flag);
  }

  /**
   * A later spaced flag wins: appending `--pm v` (or the same for the other
   * spaced flags) with a non-empty `v`, which may hold `=`, sets that option
   * to `v` whatever came before.
   */
  lemma LaterSpacedFlagOverrides(args: seq<string>, flag: string, v: string, out: Options)
    requires EndsOnFlagBoundary(args)
    requires flag in SpacedFlags && v != ""
    ensures ParseRest(args, out).HelpRequested? ==> ParseRest(args + [flag, v], out).HelpRequested?
    ensures ParseRest(args, out).Parsed? ==>
      ParseRest(args + [flag, v], out) == Parsed(WithValue(ParseRest(args, out).opts, flag, v))
  {
    ParseAppend(args, [flag, v], out);
    if ParseRest(args, out).Parsed? {
      ReadSpacedFlag(flag, v, ParseRest(args, out).opts);
      assert [flag, v][2..] == [];
    }
  }

  /**
   * A later inline flag wins: appending `--pm=v` (or the same for the other
   * flags) with `v` free of `=`, the empty value included, sets that option
   * to `v` whatever came before.
   */
  lemma LaterInlineFlagOverrides(args: seq<string>, flag: string, v: string, out: Options)
    requires EndsOnFlagBoundary(args)
    requires flag in SpacedFlags && '=' !in v
    ensures ParseRest(args, out).HelpRequested? ==> ParseRest(args + [flag + "=" + v], out).HelpRequested?
    ensures ParseRest(args, out).Parsed? ==>
      ParseRest(args + [flag + "=" + v], out) == Parsed(WithValue(ParseRest(args, out).opts, flag, v))
  {
    ParseAppend(args, [flag + "=" + v], out);
    if ParseRest(args, out).Parsed? {
      ReadInlineFlag(flag, v, ParseRest(args, out).opts);
      assert [flag + "=" + v][1..] == [];
    }
  }

  /** A spaced flag given as the last argument has no value and is ignored. */
  lemma TrailingFlagIgnored(args: seq<string>, flag: string, out: Options)
    requires EndsOnFlagBoundary(args)
    requires flag in SpacedFlags
    ensures ParseRest(args + [flag], out) == ParseRest(args, out)
  {
    ParseAppend(args, [flag], out);
    if ParseRest(args, out).Parsed? {
      var o := ParseRest(args, out).opts;
      SpacedFlagIsBare(flag);
      assert ReadFlag([flag], o) == Consumed(1, o);
      assert [flag][1..] == [];
    }
  }


  // ---------------------------------------------------------------------------
  // Node projects (ensureNodeProjects, installNode)
  // ---------------------------------------------------------------------------

  /** The file system and platform the script sees. */
  datatype Workspace = Workspace(
    repoRoot: string,
    uiDir: string,
    present: string -> bool,                // fs.accessSync succeeds
    sentraSubdirs: seq<string>,             // listSentraSubdirs(repoRoot)
    nestedProjects: string -> seq<string>,  // listNestedNodeProjects(dir)
    windows: bool)                          // process.platform === 'win32'

  function PathJoin(a: string, b: string): string {
    a + "/" + b
  }

  predicate IsNodeProject(w: Workspace, dir: string) {
    w.present(PathJoin(dir, "package.json"))
  }

  predicate IsNodeInstalled(w: Workspace, dir: string) {
    w.present(PathJoin(dir, "node_modules"))
  }

  /** What one `sentra-*` directory adds to the project set, in insertion order. */
  function Contribution(w: Workspace, dir: string): seq<string> {
    (if IsNodeProject(w, dir) then [dir] else []) + w.nestedProjects(dir)
  }

  function ContributionsOf(w: Workspace, dirs: seq<string>): seq<string> {
    if dirs == [] then [] else ContributionsOf(w, dirs[..|dirs| - 1]) + Contribution(w, dirs[|dirs| - 1])
  }

  /** Every `projects.add(...)`, in call order. */
  function Candidates(w: Workspace): seq<string> {
    [w.repoRoot, w.uiDir] + ContributionsOf(w, w.sentraSubdirs)
  }

  /** `set.add(d)` on a set kept in insertion order. */
  function Insert(s: seq<string>, d: string): seq<string> {
    if d in s then s else s + [d]
  }

  function InsertAll(s: seq<string>, ds: seq<string>): seq<string> {
    if ds == [] then s else Insert(InsertAll(s, ds[..|ds| - 1]), ds[|ds| - 1])
  }

  predicate NoDuplicates(s: seq<string>) {
    forall i, j :: 0 <= i < j < |s| ==> s[i] != s[j]
  }

  /** Inserting one more directory. */
  lemma InsertSnoc(s: seq<string>, ds: seq<string>, d: string)
    ensures InsertAll(s, ds + [d]) == Insert(InsertAll(s, ds), d)
  {
    assert (ds + [d])[..|ds|] == ds;
  }

  lemma {:induction false} InsertAllAppend(s: seq<string>, a: seq<string>, b: seq<string>)
    ensures InsertAll(s, a + b) == InsertAll(InsertAll(s, a), b)
    decreases |b|
  {
    if b == [] {
      assert a + b == a;
    } else {
      assert (a + b)[..|a + b| - 1] == a + b[..|b| - 1];
      InsertAllAppend(s, a, b[..|b| - 1]);
    }
  }

  /** `for (const d of ds) set.add(d)` */
  method AddAll(s: seq<string>, ds: seq<string>) returns (r: seq<string>)
    ensures r == InsertAll(s, ds)
  {
    r := s;
    for j := 0 to |ds|
      invariant r == InsertAll(s, ds[..j])
    {
      assert ds[..j + 1][..j] == ds[..j];
      r := Insert(r, ds[j]);
    }
    assert ds[..|ds|] == ds;
  }

  /** One more `sentra-*` directory. */
  lemma ContributionsSnoc(w: Workspace, dirs: seq<string>, k: nat)
    requires k < |dirs|
    ensures ContributionsOf(w, dirs[..k + 1]) == ContributionsOf(w, dirs[..k]) + Contribution(w, dirs[k])
  {
    assert dirs[..k + 1][..k] == dirs[..k];
  }

  /**
   * The project set: each candidate directory appears once, and exactly the
   * candidates appear.
   */
  lemma {:induction false} InsertAllIsSet(s: seq<string>, ds: seq<string>)
    requires NoDuplicates(s)
    ensures NoDuplicates(InsertAll(s, ds))
    ensures forall d :: d in InsertAll(s, ds) <==> d in s || d in ds
    decreases |ds|
  {
    if ds != [] {
      InsertAllIsSet(s, ds[..|ds| - 1]);
      assert ds == ds[..|ds| - 1] + [ds[|ds| - 1]];
    }
  }

  /** `new Set()` filled by the loops of `ensureNodeProjects`, in insertion order. */
  function Projects(w: Workspace): seq<string> {
    InsertAll([], Candidates(w))
  }

  /** One entry of `results`. */
  datatype NodeProject = NodeProject(dir: string, installed: bool)

  /** `results`: the Node projects of the set, in set order, with their install state. */
  function Survey(w: Workspace, projects: seq<string>): seq<NodeProject> {
    if projects == [] then []
    else
      var d := projects[|projects| - 1];
      Survey(w, projects[..|projects| - 1])
        + (if IsNodeProject(w, d) then [NodeProject(d, IsNodeInstalled(w, d))] else [])
  }

  /** The directories whose dependencies get installed: `!r.installed || force`. */
  function ToInstall(results: seq<NodeProject>, force: bool): seq<string> {
    if results == [] then []
    else
      var r := results[|results| - 1];
      ToInstall(results[..|results| - 1], force) + (if !r.installed || force then [r.dir] else [])
  }

  /** `install` with dev dependencies: pnpm spells it `--prod=false`, the others `--production=false`. */
  function InstallArgs(pm: string): (args: seq<string>)
    ensures |args| == 2 && args[0] == "install"
    ensures pm == "pnpm" <==> args[1] == "--prod=false"
    ensures pm != "pnpm" <==> args[1] == "--production=false"
  {
    ["install", if pm == "pnpm" then "--prod=false" else "--production=false"]
  }

  function InstallNodeCommand(pm: string, dir: string): Command {
    Command(pm, InstallArgs(pm), dir, map["npm_config_production" := "false"])
  }

  function InstallNodeCommands(pm: string, dirs: seq<string>): (cmds: seq<Command>)
    ensures |cmds| == |dirs|
    ensures forall k :: 0 <= k < |dirs| ==> cmds[k] == InstallNodeCommand(pm, dirs[k])
  {
    seq(|dirs|, k requires 0 <= k < |dirs| => InstallNodeCommand(pm, dirs[k]))
  }

  /** What `ensureNodeProjects` launches: nothing in a dry run, else each install in turn. */
  function NodeTrace(pm: string, force: bool, dryRun: bool, w: Workspace, host: Host): Trace {
    if dryRun then Nothing
    else RunInOrder(host, InstallNodeCommands(pm, ToInstall(Survey(w, Projects(w)), force)))
  }

  /** The projects that get an install: Node projects not installed yet, or all of them under `force`. */
  predicate NeedsInstall(w: Workspace, force: bool, dir: string) {
    IsNodeProject(w, dir) && (!IsNodeInstalled(w, dir) || force)
  }

  /** The members of `projects` that need an install, in order. */
  function Selected(w: Workspace, projects: seq<string>, force: bool): seq<string> {
    if projects == [] then []
    else
      var d := projects[|projects| - 1];
      Selected(w, projects[..|projects| - 1], force) + (if NeedsInstall(w, force, d) then [d] else [])
  }

  /** Surveying the projects and then filtering on `installed` selects the same directories. */
  lemma {:induction false} SurveyThenSelect(w: Workspace, projects: seq<string>, force: bool)
    ensures ToInstall(Survey(w, projects), force) == Selected(w, projects, force)
    decreases |projects|
  {
    if projects != [] {
      var init := projects[..|projects| - 1];
      var d := projects[|projects| - 1];
      SurveyThenSelect(w, init, force);
      var s := Survey(w, init);
      if IsNodeProject(w, d) {
        var r := NodeProject(d, IsNodeInstalled(w, d));
        assert Survey(w, projects) == s + [r];
        assert (s + [r])[..|s|] == s;
      } else {
        assert Survey(w, projects) == s + [];
        assert s + [] == s;
      }
    }
  }

  lemma {:induction false} SelectedIsSubset(w: Workspace, projects: seq<string>, force: bool)
    requires NoDuplicates(projects)
    ensures NoDuplicates(Selected(w, projects, force))
    ensures forall d :: d in Selected(w, projects, force) <==> d in projects && NeedsInstall(w, force, d)
    decreases |projects|
  {
    if projects != [] {
      var init := projects[..|projects| - 1];
      var d := projects[|projects| - 1];
      SelectedIsSubset(w, init, force);
      assert projects == init + [d];
      assert d !in init;
    }
  }

  /**
   * A directory gets an install iff it is one of the candidates, it is a Node
   * project, and it is not installed yet or `force` is set; none gets two.
   */
  lemma SelectedForInstall(w: Workspace, force: bool, d: string)
    ensures d in ToInstall(Survey(w, Projects(w)), force) <==>
      d in Candidates(w) && IsNodeProject(w, d) && (!IsNodeInstalled(w, d) || force)
    ensures NoDuplicates(ToInstall(Survey(w, Projects(w)), force))
  {
    InsertAllIsSet([], Candidates(w));
    SurveyThenSelect(w, Projects(w), force);
    SelectedIsSubset(w, Projects(w), force);
  }

  /** The project additions made for `subdirs[k]` continue the candidate list. */
  lemma AppendContribution(w: Workspace, subdirs: seq<string>, k: nat, before: seq<string>, head: seq<string>, added: seq<string>)
    requires k < |subdirs|
    requires before == [w.repoRoot, w.uiDir] + ContributionsOf(w, subdirs[..k])
    requires head == before + (if IsNodeProject(w, subdirs[k]) then [subdirs[k]] else [])
    requires added == head + w.nestedProjects(subdirs[k])
    ensures added == [w.repoRoot, w.uiDir] + ContributionsOf(w, subdirs[..k + 1])
  {
    ContributionsSnoc(w, subdirs, k);
  }

  /** The insertion loops of `ensureNodeProjects` build the project set. */
  method CollectProjects(w: Workspace) returns (projects: seq<string>)
    ensures projects == Projects(w)
  {
    ghost var added: seq<string> := [];
    projects := [];
    InsertSnoc([], added, w.repoRoot);
    projects, added := Insert(projects, w.repoRoot), added + [w.repoRoot];
    InsertSnoc([], added, w.uiDir);
    projects, added := Insert(projects, w.uiDir), added + [w.uiDir];
    var subdirs := w.sentraSubdirs;
    assert ContributionsOf(w, subdirs[..0]) == [];
    for k := 0 to |subdirs|
      invariant projects == InsertAll([], added)
      invariant added == [w.repoRoot, w.uiDir] + ContributionsOf(w, subdirs[..k])
    {
      var dir := subdirs[k];
      ghost var before := added;
      if IsNodeProject(w, dir) {
        InsertSnoc([], added, dir);
        projects, added := Insert(projects, dir), added + [dir];
      }
      ghost var head := added;
      assert head == before + (if IsNodeProject(w, dir) then [dir] else []);
      var nested := w.nestedProjects(dir);
      InsertAllAppend([], added, nested);
      projects := AddAll(projects, nested);
      added := added + nested;
      AppendContribution(w, subdirs, k, before, head, added);
    }
    assert subdirs[..|subdirs|] == subdirs;
  }

  lemma {:induction false} ToInstallPrefix(results: seq<NodeProject>, k: nat, force: bool)
    requires k <= |results|
    ensures |ToInstall(results[..k], force)| <= |ToInstall(results, force)|
    ensures ToInstall(results[..k], force) == ToInstall(results, force)[..|ToInstall(results[..k], force)|]
    decreases |results|
  {
    if k < |results| {
      var init := results[..|results| - 1];
      assert results[..k] == init[..k];
      ToInstallPrefix(init, k, force);
      var all := ToInstall(results, force);
      assert all[..|ToInstall(init, force)|] == ToInstall(init, force);
    } else {
      assert results[..k] == results;
    }
  }

  /** The `results` loop of `ensureNodeProjects`. */
  method SurveyProjects(w: Workspace, projects: seq<string>) returns (results: seq<NodeProject>)
    ensures results == Survey(w, projects)
  {
    results := [];
    for k := 0 to |projects|
      invariant results == Survey(w, projects[..k])
    {
      assert projects[..k + 1][..k] == projects[..k];
      var dir := projects[k];
      if IsNodeProject(w, dir) {
        var installed := IsNodeInstalled(w, dir);
        results := results + [NodeProject(dir, installed)];
      }
    }
    assert projects[..|projects|] == projects;
  }

  /** `ensureNodeProjects(pm, force, dryRun)`. */
  method EnsureNodeProjects(pm: string, force: bool, dryRun: bool, w: Workspace, host: Host) returns (t: Trace)
    ensures t == NodeTrace(pm, force, dryRun, w, host)
  {
    var projects := CollectProjects(w);
    var results := SurveyProjects(w, projects);
    ghost var dirs := ToInstall(results, force);
    ghost var cmds := InstallNodeCommands(pm, dirs);
    assert !dryRun ==> NodeTrace(pm, force, dryRun, w, host) == RunInOrder(host, cmds);
    var ran: seq<Command> := [];
    ghost var m := 0;
    for k := 0 to |results|
      invariant m <= |dirs| && ToInstall(results[..k], force) == dirs[..m]
      invariant dryRun ==> ran == []
      invariant !dryRun ==> ran == cmds[..m] && m <= FirstFailure(host, cmds)
    {
      SelectionStep(results, k, force, m);
      var r := results[k];
      if !r.installed || force {
        // in a dry run `installNode` only reports
        if !dryRun {
          var cmd := InstallNodeCommand(pm, r.dir);
          RunStep(host, cmds, m);
          if !Succeeds(host, cmd) {
            return Trace(ran + [cmd], Failed(Failure(host, cmd)));
          }
          ran := ran + [cmd];
        }
        m := m + 1;
      }
    }
    assert results[..|results|] == results;
    if dryRun {
      return Nothing;
    }
    RunInOrderStopsAtFirstFailure(host, cmds);
    assert cmds[..m] == cmds;
    return Trace(ran, Done);
  }

  /** One more entry of `results`: the install list grows by its directory exactly when it is selected. */
  lemma SelectionStep(results: seq<NodeProject>, k: nat, force: bool, m: nat)
    requires k < |results|
    requires m <= |ToInstall(results, force)| && ToInstall(results[..k], force) == ToInstall(results, force)[..m]
    ensures var r := results[k]; var dirs := ToInstall(results, force);
      if !r.installed || force then m < |dirs| && dirs[m] == r.dir && ToInstall(results[..k + 1], force) == dirs[..m + 1]
      else ToInstall(results[..k + 1], force) == dirs[..m]
  {
    assert results[..k + 1][..k] == results[..k];
    ToInstallPrefix(results, k + 1, force);
  }

  // ---------------------------------------------------------------------------
  // Python environment (ensureEmoPython, detectPython, installRequirementsWithFallback)
  // ---------------------------------------------------------------------------

  /** `needCreate`: the virtual environment is (re)created iff forced or missing. */
  predicate NeedsVenv(force: bool, venvExists: bool) {
    force || !venvExists
  }

  /** `venvPythonPath(venvDir)` */
  function VenvPython(venvDir: string, windows: bool): string {
    if windows then PathJoin(PathJoin(venvDir, "Scripts"), "python.exe") else PathJoin(PathJoin(venvDir, "bin"), "python")
  }

  /** One interpreter `detectPython` tries: command and leading arguments. */
  datatype Interpreter = Interpreter(cmd: string, args: seq<string>)

  const PythonCandidates: seq<Interpreter> :=
    [Interpreter("python3", []), Interpreter("python", []), Interpreter("py", ["-3"]), Interpreter("py", [])]

  /** `<cmd> <args> -V` exits with 0. */
  predicate Works(host: Host, c: Interpreter) {
    host.probe(c.cmd, c.args + ["-V"])
  }

  /** The first candidate that works, or none. */
  function FirstWorking(host: Host, cands: seq<Interpreter>): (r: Option<Interpreter>)
    ensures r.None? <==> forall k :: 0 <= k < |cands| ==> !Works(host, cands[k])
    ensures r.Some? ==> exists k :: 0 <= k < |cands| && cands[k] == r.value && Works(host, cands[k])
                                  && (forall j :: 0 <= j < k ==> !Works(host, cands[j]))
  {
    if cands == [] then None
    else if Works(host, cands[0]) then Some(cands[0])
    else
      var r := FirstWorking(host, cands[1..]);
      assert forall k :: 1 <= k < |cands| ==> cands[k] == cands[1..][k - 1];
      r
  }

  /** `detectPython()` */
  method DetectPython(host: Host) returns (r: Option<Interpreter>)
    ensures r == FirstWorking(host, PythonCandidates)
  {
    var cands := PythonCandidates;
    var i := 0;
    while i < |cands|
      invariant 0 <= i <= |cands|
      invariant FirstWorking(host, cands[i..]) == FirstWorking(host, cands)
    {
      assert cands[i..][1..] == cands[i + 1..];
      if Works(host, cands[i]) {
        return Some(cands[i]);
      }
      i := i + 1;
    }
    return None;
  }

  /** The command that creates `.venv`: `uv venv` when allowed and present, else the detected Python's `-m venv`. */
  function CreateVenv(pyChoice: string, emoDir: string, host: Host): Trace {
    if (pyChoice == "uv" || pyChoice == "auto") && CommandExists(host, "uv") then
      Run(host, Command("uv", ["venv", ".venv"], emoDir, map[]))
    else
      match FirstWorking(host, PythonCandidates)
      case None => Abort(NoPython)
      case Some(py) => Run(host, Command(py.cmd, py.args + ["-m", "venv", ".venv"], emoDir, map[]))
  }

  const PyPI: string := "https://pypi.org/simple"
  const BasePipArgs: seq<string> := ["-m", "pip", "install", "-r", "requirements.txt", "--retries", "3", "--timeout", "60"]

  /** One fallback candidate. */
  datatype Attempt = Attempt(cmd: Command, caption: string)

  function MirrorAttempt(vpy: string, emoDir: string, pipIndex: string): Attempt {
    Attempt(Command(vpy, BasePipArgs + ["-i", pipIndex, "--extra-index-url", PyPI], emoDir, map[]),
            "pip (-i " + pipIndex + " + extra-index pypi.org)")
  }

  function OfficialAttempt(vpy: string, emoDir: string): Attempt {
    Attempt(Command(vpy, BasePipArgs + ["-i", PyPI], emoDir, map[]), "pip (official pypi.org)")
  }

  function UvAttempt(vpy: string, emoDir: string, pipIndex: string): Attempt {
    Attempt(Command("uv", ["pip", "install", "-r", "requirements.txt", "--python", vpy, "--index-url",
                           if pipIndex != "" then pipIndex else PyPI], emoDir, map[]),
            "uv pip (--python venv)")
  }

  /**
   * The ordered attempt list: the configured mirror (with pypi.org as extra
   * index) if any, then the official index, then `uv` if it is installed,
   * pointed at the mirror or, without one, at pypi.org.
   */
  function Attempts(vpy: string, emoDir: string, pipIndex: string, uv: bool): (r: seq<Attempt>)
    ensures |r| == (if pipIndex != "" then 1 else 0) + 1 + (if uv then 1 else 0)
    ensures r[0] == if pipIndex != "" then MirrorAttempt(vpy, emoDir, pipIndex) else OfficialAttempt(vpy, emoDir)
    ensures pipIndex != "" ==> r[1] == OfficialAttempt(vpy, emoDir)
    ensures uv <==> r[|r| - 1] == UvAttempt(vpy, emoDir, pipIndex)
    ensures forall k :: 0 <= k < |r| ==> r[k].cmd.cwd == emoDir && (r[k].cmd.program == vpy || r[k] == UvAttempt(vpy, emoDir, pipIndex))
  {
    assert OfficialAttempt(vpy, emoDir).caption != UvAttempt(vpy, emoDir, pipIndex).caption by {
      assert OfficialAttempt(vpy, emoDir).caption[0] == 'p';
    }
    (if pipIndex != "" then [MirrorAttempt(vpy, emoDir, pipIndex)] else [])
      + [OfficialAttempt(vpy, emoDir)]
      + (if uv then [UvAttempt(vpy, emoDir, pipIndex)] else [])
  }

  function Commands(attempts: seq<Attempt>): (cmds: seq<Command>)
    ensures |cmds| == |attempts|
    ensures forall k :: 0 <= k < |attempts| ==> cmds[k] == attempts[k].cmd
  {
    seq(|attempts|, k requires 0 <= k < |attempts| => attempts[k].cmd)
  }

  function Captions(attempts: seq<Attempt>): (captions: seq<string>)
    ensures |captions| == |attempts|
    ensures forall k :: 0 <= k < |attempts| ==> captions[k] == attempts[k].caption
  {
    seq(|attempts|, k requires 0 <= k < |attempts| => attempts[k].caption)
  }

  /**
   * `installRequirementsWithFallback(vpy, emoDir, pipIndex, dryRun)`: builds
   * the attempt list, then tries the attempts in order. A dry run launches
   * nothing and reports every attempt's caption in order.
   */
  method InstallRequirementsWithFallback(vpy: string, emoDir: string, pipIndex: string, dryRun: bool, host: Host)
    returns (t: Trace, reported: seq<string>)
    ensures var attempts := Attempts(vpy, emoDir, pipIndex, CommandExists(host, "uv"));
      && (dryRun ==> t == Nothing && reported == Captions(attempts))
      && (!dryRun ==> t == TryInTurn(host, Commands(attempts)) && reported == [])
  {
    var attempts: seq<Attempt> := [];
    if pipIndex != "" {
      attempts := attempts + [MirrorAttempt(vpy, emoDir, pipIndex)];
    }
    attempts := attempts + [OfficialAttempt(vpy, emoDir)];
    if CommandExists(host, "uv") {
      attempts := attempts + [UvAttempt(vpy, emoDir, pipIndex)];
    }
    assert attempts == Attempts(vpy, emoDir, pipIndex, CommandExists(host, "uv"));
    t, reported := TryAttempts(attempts, dryRun, host);
  }

  /**
   * The attempt loop: each attempt in turn until one exits with 0, rethrowing
   * the last attempt's error; a dry run only reports each caption.
   */
  method TryAttempts(attempts: seq<Attempt>, dryRun: bool, host: Host) returns (t: Trace, reported: seq<string>)
    ensures dryRun ==> t == Nothing && reported == Captions(attempts)
    ensures !dryRun ==> t == TryInTurn(host, Commands(attempts)) && reported == []
  {
    ghost var cmds := Commands(attempts);
    reported := [];
    var ran: seq<Command> := [];
    for i := 0 to |attempts|
      invariant dryRun ==> ran == [] && reported == Captions(attempts[..i])
      invariant !dryRun ==> reported == [] && ran == cmds[..i] && i <= FirstSuccess(host, cmds)
      invariant !dryRun ==> i < |attempts| || attempts == []
    {
      var a := attempts[i];
      if dryRun {
        assert Captions(attempts[..i + 1]) == Captions(attempts[..i]) + [a.caption];
        reported := reported + [a.caption];
        continue;
      }
      TryStep(host, cmds, i);
      if Succeeds(host, a.cmd) {
        return Trace(ran + [a.cmd], Done), reported;
      }
      if i == |attempts| - 1 {
        return Trace(ran + [a.cmd], Failed(Failure(host, a.cmd))), reported;
      }
      ran := ran + [a.cmd];
    }
    assert attempts[..|attempts|] == attempts;
    return Nothing, reported;
  }

  /** The pip self-upgrade run before the requirements; its failure is ignored. */
  function PipUpgrade(vpy: string, emoDir: string): Command {
    Command(vpy, ["-m", "pip", "install", "--upgrade", "pip", "-i", PyPI], emoDir, map[])
  }

  /** The upgrade (whatever its exit code) followed by the fallback installation. */
  function InstallRequirements(vpy: string, emoDir: string, pipIndex: string, host: Host): Trace {
    Then(Trace([PipUpgrade(vpy, emoDir)], Done), TryInTurn(host, Commands(Attempts(vpy, emoDir, pipIndex, CommandExists(host, "uv")))))
  }

  /** What follows the creation step: the interpreter check, then the installation unless it is a dry run. */
  function AfterVenv(vpy: string, emoDir: string, pipIndex: string, dryRun: bool, w: Workspace, host: Host): Trace {
    if !w.present(vpy) then Abort(VenvPythonMissing)
    else if dryRun then Nothing
    else InstallRequirements(vpy, emoDir, pipIndex, host)
  }

  /** Everything `ensureEmoPython` launches, given the file-system answers. */
  function EmoPythonTrace(pyChoice: string, pipIndex: string, force: bool, dryRun: bool, w: Workspace, host: Host): Trace {
    var emoDir := PathJoin(w.repoRoot, "sentra-emo");
    if !w.present(emoDir) || !w.present(PathJoin(emoDir, "requirements.txt")) then Nothing
    else
      var venvDir := PathJoin(emoDir, ".venv");
      var create := if NeedsVenv(force, w.present(venvDir)) && !dryRun then CreateVenv(pyChoice, emoDir, host) else Nothing;
      Then(create, AfterVenv(VenvPython(venvDir, w.windows), emoDir, pipIndex, dryRun, w, host))
  }

  /** The creation of `.venv` inside `ensureEmoPython`. */
  method CreateVenvStep(pyChoice: string, emoDir: string, host: Host) returns (t: Trace)
    ensures t == CreateVenv(pyChoice, emoDir, host)
  {
    var cmd: Command;
    if (pyChoice == "uv" || pyChoice == "auto") && CommandExists(host, "uv") {
      cmd := Command("uv", ["venv", ".venv"], emoDir, map[]);
    } else {
      var py := DetectPython(host);
      if py.None? {
        return Abort(NoPython);
      }
      cmd := Command(py.value.cmd, py.value.args + ["-m", "venv", ".venv"], emoDir, map[]);
    }
    return Run(host, cmd);
  }

  /** `ensureEmoPython(pyChoice, pipIndex, force, dryRun)` */
  method EnsureEmoPython(pyChoice: string, pipIndex: string, force: bool, dryRun: bool, w: Workspace, host: Host)
    returns (t: Trace)
    ensures t == EmoPythonTrace(pyChoice, pipIndex, force, dryRun, w, host)
  {
    var emoDir := PathJoin(w.repoRoot, "sentra-emo");
    var req := PathJoin(emoDir, "requirements.txt");
    if !w.present(emoDir) || !w.present(req) {
      return Nothing;
    }
    var venvDir := PathJoin(emoDir, ".venv");
    var needCreate := NeedsVenv(force, w.present(venvDir));
    var created := Nothing;
    if needCreate && !dryRun {
      created := CreateVenvStep(pyChoice, emoDir, host);
      if created.outcome.Failed? {
        return created;
      }
    }
    var vpy := VenvPython(venvDir, w.windows);
    if !w.present(vpy) {
      return Then(created, Abort(VenvPythonMissing));
    }
    if dryRun {
      return created;
    }
    var rest, _ := InstallRequirementsWithFallback(vpy, emoDir, pipIndex, false, host);
    return Then(created, Then(Trace([PipUpgrade(vpy, emoDir)], Done), rest));
  }

  /** A command that creates a virtual environment (`... venv .venv`). */
  predicate CreatesVenv(c: Command) {
    |c.args| >= 2 && c.args[|c.args| - 2..] == ["venv", ".venv"]
  }

  /**
   * With the environment present and no `--force`, nothing is created: the
   * first command is the pip upgrade of the existing `.venv` interpreter, and
   * no later command creates an environment either.
   */
  lemma ExistingVenvIsReused(pyChoice: string, pipIndex: string, w: Workspace, host: Host)
    requires var emoDir := PathJoin(w.repoRoot, "sentra-emo");
      w.present(emoDir) && w.present(PathJoin(emoDir, "requirements.txt"))
      && w.present(PathJoin(emoDir, ".venv")) && w.present(VenvPython(PathJoin(emoDir, ".venv"), w.windows))
    ensures var t := EmoPythonTrace(pyChoice, pipIndex, false, false, w, host);
      |t.ran| >= 2
      && t.ran[0] == PipUpgrade(VenvPython(PathJoin(PathJoin(w.repoRoot, "sentra-emo"), ".venv"), w.windows), PathJoin(w.repoRoot, "sentra-emo"))
      && forall k :: 0 <= k < |t.ran| ==> !CreatesVenv(t.ran[k])
  {
    var emoDir := PathJoin(w.repoRoot, "sentra-emo");
    var vpy := VenvPython(PathJoin(emoDir, ".venv"), w.windows);
    var cmds := Commands(Attempts(vpy, emoDir, pipIndex, CommandExists(host, "uv")));
    TryInTurnRunsCandidates(host, cmds);
    AttemptsKeepVenv(vpy, emoDir, pipIndex, CommandExists(host, "uv"));
    assert PipUpgrade(vpy, emoDir).args[5] == "-i";
  }

  /** Trying in turn launches some candidates, at least one when there is one, and nothing else. */
  lemma {:induction false} TryInTurnRunsCandidates(host: Host, cmds: seq<Command>)
    ensures cmds != [] ==> |TryInTurn(host, cmds).ran| >= 1
    ensures forall k :: 0 <= k < |TryInTurn(host, cmds).ran| ==> TryInTurn(host, cmds).ran[k] in cmds
  {
    if |cmds| > 1 && !Succeeds(host, cmds[0]) {
      TryInTurnRunsCandidates(host, cmds[1..]);
      var rest := TryInTurn(host, cmds[1..]).ran;
      assert forall k :: 1 <= k < |rest| + 1 ==> ([cmds[0]] + rest)[k] == rest[k - 1];
    }
  }

  /** No installation attempt creates an environment. */
  lemma AttemptsKeepVenv(vpy: string, emoDir: string, pipIndex: string, uv: bool)
    ensures forall c :: c in Commands(Attempts(vpy, emoDir, pipIndex, uv)) ==> !CreatesVenv(c)
  {
    var m := MirrorAttempt(vpy, emoDir, pipIndex).cmd;
    var o := OfficialAttempt(vpy, emoDir).cmd;
    var u := UvAttempt(vpy, emoDir, pipIndex).cmd;
    assert m.args[|m.args| - 2] == "--extra-index-url";
    assert o.args[|o.args| - 2] == "-i";
    assert u.args[|u.args| - 2] == "--index-url";
    var attempts := Attempts(vpy, emoDir, pipIndex, uv);
    assert forall k :: 0 <= k < |attempts| ==> attempts[k].cmd in {m, o, u};
  }

  /**
   * `needCreate`: when `--force` is given or `.venv` is missing (and it is not
   * a dry run), the first thing launched creates `.venv`, unless no
   * interpreter is found.
   */
  lemma VenvCreatedWhenNeeded(pyChoice: string, pipIndex: string, force: bool, w: Workspace, host: Host)
    requires var emoDir := PathJoin(w.repoRoot, "sentra-emo");
      w.present(emoDir) && w.present(PathJoin(emoDir, "requirements.txt"))
      && NeedsVenv(force, w.present(PathJoin(emoDir, ".venv")))
    ensures var t := EmoPythonTrace(pyChoice, pipIndex, force, false, w, host);
      t == Abort(NoPython) || (|t.ran| >= 1 && CreatesVenv(t.ran[0]))
  {
    var emoDir := PathJoin(w.repoRoot, "sentra-emo");
    var t := CreateVenv(pyChoice, emoDir, host);
    if t.ran != [] {
      var c := t.ran[0];
      assert c.args[|c.args| - 2..] == ["venv", ".venv"];
    }
  }

  /**
   * The converse: without `--force` and with `.venv` present, no command
   * launched creates an environment, whether or not its interpreter is there
   * and whether or not it is a dry run.
   */
  lemma VenvKeptUnlessNeeded(pyChoice: string, pipIndex: string, force: bool, dryRun: bool, w: Workspace, host: Host)
    requires !NeedsVenv(force, w.present(PathJoin(PathJoin(w.repoRoot, "sentra-emo"), ".venv")))
    ensures var t := EmoPythonTrace(pyChoice, pipIndex, force, dryRun, w, host);
      forall k :: 0 <= k < |t.ran| ==> !CreatesVenv(t.ran[k])
  {
    var emoDir := PathJoin(w.repoRoot, "sentra-emo");
    var vpy := VenvPython(PathJoin(emoDir, ".venv"), w.windows);
    var cmds := Commands(Attempts(vpy, emoDir, pipIndex, CommandExists(host, "uv")));
    TryInTurnRunsCandidates(host, cmds);
    AttemptsKeepVenv(vpy, emoDir, pipIndex, CommandExists(host, "uv"));
    assert PipUpgrade(vpy, emoDir).args[5] == "-i";
  }

  // ---------------------------------------------------------------------------
  // The whole script (main)
  // ---------------------------------------------------------------------------

  /** What `main` launches once the options are known. */
  function BootstrapTrace(opts: Options, w: Workspace, host: Host): Trace {
    match ChoosePackageManager(opts.pm, host)
    case Err(e) => Abort(e)
    case Ok(pm) =>
      Then(if opts.only == "all" || opts.only == "node" then NodeTrace(pm, opts.force, opts.dryRun, w, host) else Nothing,
           if opts.only == "all" || opts.only == "python" then EmoPythonTrace(opts.py, opts.pipIndex, opts.force, opts.dryRun, w, host) else Nothing)
  }

  /** `main()`: parse, choose the package manager, then the Node part and the Python part. */
  method RunBootstrap(argv: seq<string>, envPipIndex: string, w: Workspace, host: Host) returns (t: Trace)
    ensures ParseRest(argv, Defaults(envPipIndex)).HelpRequested? ==> t == Nothing
    ensures ParseRest(argv, Defaults(envPipIndex)).Parsed? ==> t == BootstrapTrace(ParseRest(argv, Defaults(envPipIndex)).opts, w, host)
  {
    var parsed := ParseArgs(argv, envPipIndex);
    if parsed.HelpRequested? {
      return Nothing;
    }
    var opts := parsed.opts;
    var choice := ChoosePackageManager(opts.pm, host);
    if choice.Err? {
      return Abort(choice.error);
    }
    var pm := choice.value;
    t := Nothing;
    if opts.only == "all" || opts.only == "node" {
      t := EnsureNodeProjects(pm, opts.force, opts.dryRun, w, host);
      if t.outcome.Failed? {
        return;
      }
    }
    if opts.only == "all" || opts.only == "python" {
      var py := EnsureEmoPython(opts.py, opts.pipIndex, opts.force, opts.dryRun, w, host);
      t := Trace(t.ran + py.ran, py.outcome);
    }
  }

  /** A dry run launches no process at all. */
  lemma DryRunLaunchesNothing(opts: Options, w: Workspace, host: Host)
    requires opts.dryRun
    ensures BootstrapTrace(opts, w, host).ran == []
  {
  }

  /** Without a usable package manager the script stops before launching anything, whatever `--only` says. */
  lemma MissingPackageManagerStopsEarly(opts: Options, w: Workspace, host: Host)
    requires ChoosePackageManager(opts.pm, host).Err?
    ensures BootstrapTrace(opts, w, host) == Abort(ChoosePackageManager(opts.pm, host).error)
  {
  }
}
