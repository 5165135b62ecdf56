# Sentra configuration UI: maintenance scripts and the pieces of the UI that drive them

This project is a Dafny model of the core of `sentra-config-ui`, the web
configuration console of the Sentra agent. The core has six parts:

- **`scripts/bootstrap.mjs`**: installs the agent's dependencies. It parses
  its flags and picks a package manager. It then installs every Sentra Node
  project that needs it. Finally it prepares the `sentra-emo` Python virtual
  environment, trying mirrors in turn for the requirements.
- **`scripts/update.mjs`**: synchronises the repository and then re-runs the
  bootstrap for the chosen targets.
  - Safe mode fetches, then tries a fast-forward pull with a rebase pull as
    the fallback.
  - Force mode fetches, hard-resets to `origin/<branch>` and cleans.
- **`TerminalWindow`**: turns a script's event stream into display lines and a
  running flag.
- **`Launchpad`**: filters the launcher's items by the search term and splits
  them into category pages. It also keeps the current page index.
- **The update dialog**: turns four selections into a command-line preview and
  the options it submits.
- **The server's CORS setting**: turns `CORS_ORIGIN` into the CORS plugin's
  `origin` option.

## How the model is built

- **The host is an oracle.** Launching a process is what both scripts mainly
  do. The model records it as a `Trace`: the commands launched, in order, and
  how the script ended. Two host functions are parameters of the model
  (`Toolchain.Host`):
  - whether a probe (`spawnSync`) exits with 0;
  - the exit code of each launched command.
- **The file system is a snapshot.** It is a `present` predicate plus the
  directory listings (`Bootstrap.Workspace`). One answer is read after
  something was launched: whether the venv interpreter exists is checked
  after `.venv` may have been created. See "Left out".
- **Imperative code becomes methods with loops.** Both argument parsers, the
  project scan, the install loop, the interpreter search, the attempt loop
  and the page categorisation are loops in the source. Each is a method
  proved equal to a specification function, and the properties are proved
  about that function.
- **Component state becomes classes.** The terminal's and the launcher's state
  are updated by event handlers, so each is a class with methods.
- **Pure code becomes functions.** The CORS option, the dialog preview, the
  branch choice and the package-manager choice are functions.

Module map:

- `wrappers.dfy`: `Option` and `Result`.
- `text.dfy`: the JavaScript string operations the source uses, such as
  `split`, `join`, `trim`, `includes`, `startsWith`, ASCII `toLowerCase` and
  decimal rendering. It also has their lemmas, including `Join`/`Split`
  round trips.
- `toolchain.dfy`: commands, the host, errors, traces and sequencing.
  Sequencing covers `await a; await b` (`Then`), `RunInOrder`, and `TryInTurn`
  (the first success ends it). The shared `choosePM` is here too.
- The others hold one source file each: `bootstrap.dfy`, `update.dfy`,
  `terminal_window.dfy`, `launchpad.dfy`, `update_dialog.dfy` and `cors.dfy`.

### Behaviour worth knowing

- **No partial lines in the terminal.** The terminal keeps no partial line.
  Every part of `text.split('\n')` is appended at once, including an empty
  last part (`TerminalWindow.AfterOutput`).
- **Category names.** The launcher decides categories with `includes` on the
  lower-cased name. A name is core when it *contains* one of the five
  markers, so `my-sentra-rag-tool` is a core item. It is QQ when it contains
  `qq_` or `qq-` anywhere.
- **Inline values stop at `=`.** An inline flag keeps only the second part of
  `split('=')`. So `--pip-index=https://m/s?a=b` sets the index to
  `https://m/s?a` (`Bootstrap.InlineIndexUrlIsCut`). The spaced form
  `--pip-index https://m/s?a=b` keeps the whole URL
  (`Bootstrap.LaterSpacedFlagOverrides`).
- **Two parsers.** `bootstrap.mjs` and `update.mjs` each have their own
  argument parser with the same grammar and different flags. The model
  mirrors this: `update.dfy` repeats the parser lemmas of `bootstrap.dfy`
  for its own `ReadFlag`.

## Model

| member | source | states |
|---|---|---|
| Toolchain.FirstFailure | sentra-config-ui/scripts/update.mjs:90-95 | the index of the first command that does not exit with 0: every earlier command succeeds, and that one fails |
| Toolchain.RunInOrderStopsAtFirstFailure | sentra-config-ui/scripts/update.mjs:90-95 | a chain of awaited commands launches everything up to and including the first failure and ends with that failure's error; with no failure it launches all and succeeds |
| Toolchain.RunStep | sentra-config-ui/scripts/update.mjs:92-94 | after only successes, the next awaited command either succeeds (the run goes on) or ends the chain with its own error |
| Toolchain.FirstSuccess | sentra-config-ui/scripts/bootstrap.mjs:204-221 | the index of the first command that exits with 0: every earlier one fails |
| Toolchain.FallbackStopsAtFirstSuccess | sentra-config-ui/scripts/bootstrap.mjs:204-221 | trying candidates in turn runs exactly up to the first success and succeeds; when all fail, it runs them all and throws the last one's error |
| Toolchain.TryStep | sentra-config-ui/scripts/bootstrap.mjs:205-220 | one more attempt after only failures either ends the fallback successfully or hands over to the next attempt; the last failing attempt's error is thrown |
| Toolchain.ChoosePackageManager | sentra-config-ui/scripts/bootstrap.mjs:96-105 | an explicit manager is returned if and only if it exists, otherwise "not found"; `auto` or empty takes the first existing of pnpm, npm, cnpm, and fails with "no package manager" exactly when none exists |
| Toolchain.ChosenPackageManagerIsNamed | sentra-config-ui/scripts/update.mjs:53-62 | a chosen package manager is never empty, so it survives being passed on as `--pm` |
| Toolchain.Then | sentra-config-ui/scripts/update.mjs:81-88 | `await a; await b`, with `b` skipped when `a` throws; Toolchain.RunStep and Update.SafeUpdateSteps state what it gives |
| Toolchain.RunInOrder | sentra-config-ui/scripts/update.mjs:90-95 | a chain of awaited commands; Toolchain.RunInOrderStopsAtFirstFailure states what it launches and how it ends |
| Toolchain.TryInTurn | sentra-config-ui/scripts/bootstrap.mjs:204-221 | attempts tried until one succeeds; Toolchain.FallbackStopsAtFirstSuccess and Bootstrap.TryInTurnRunsCandidates state what it launches and how it ends |
| Bootstrap.ReadFlag | sentra-config-ui/scripts/bootstrap.mjs:19-32 | one round of the parser consumes one argument, or two when the first is a spaced flag with a value |
| Bootstrap.ParseRest | sentra-config-ui/scripts/bootstrap.mjs:17-33 | the parser loop over the remaining arguments; Bootstrap.ParseArgs is proved equal to it, and ParseAppend, ReadInlineFlag, ReadSpacedFlag, LaterSpacedFlagOverrides, LaterInlineFlagOverrides and TrailingFlagIgnored state its meaning |
| Bootstrap.ReadArgument | sentra-config-ui/scripts/bootstrap.mjs:18-32 | the loop body: `help` exactly when the argument asks for help; otherwise it advances by the count the flag grammar consumes, with the updated options |
| Bootstrap.ParseArgs | sentra-config-ui/scripts/bootstrap.mjs:14-35 | the loop computes the flag grammar applied to the arguments from the defaults (`PIP_INDEX_URL` or empty as the pip index); no arguments give the defaults |
| Bootstrap.ReadFlagIsLocal | sentra-config-ui/scripts/bootstrap.mjs:19-32 | reading a flag looks no further than its own value |
| Bootstrap.ParseAppend | sentra-config-ui/scripts/bootstrap.mjs:17-33 | parsing concatenated argument lists is parsing the second from the options the first produced, or help if the first asked for it |
| Bootstrap.ReadInlineFlag | sentra-config-ui/scripts/bootstrap.mjs:21-27 | `--flag=value` sets exactly that option to `value` |
| Bootstrap.SpacedFlagIsBare | sentra-config-ui/scripts/bootstrap.mjs:19-29 | a spaced flag matches no earlier branch of the if-chain |
| Bootstrap.ReadSpacedFlag | sentra-config-ui/scripts/bootstrap.mjs:22-28 | `--flag value` with a non-empty value consumes both words and sets that option |
| Bootstrap.InlineIndexUrlIsCut | sentra-config-ui/scripts/bootstrap.mjs:27 | an inline index URL holding `=` keeps only the text before that `=` |
| Bootstrap.LaterSpacedFlagOverrides | sentra-config-ui/scripts/bootstrap.mjs:17-33 | a later `--flag v` with non-empty `v` (which may hold `=`) overrides every earlier setting of that option and changes nothing else |
| Bootstrap.LaterInlineFlagOverrides | sentra-config-ui/scripts/bootstrap.mjs:17-33 | a later `--flag=v` with `v` free of `=` (possibly empty) overrides every earlier setting of that option and changes nothing else |
| Bootstrap.TrailingFlagIgnored | sentra-config-ui/scripts/bootstrap.mjs:22-28 | a spaced flag with no value after it is skipped |
| Bootstrap.InsertSnoc | sentra-config-ui/scripts/bootstrap.mjs:131-140 | inserting one more directory into the `Set` is adding it at the end unless already there |
| Bootstrap.InsertAllAppend | sentra-config-ui/scripts/bootstrap.mjs:131-140 | inserting two lists is inserting the first and then the second |
| Bootstrap.AddAll | sentra-config-ui/scripts/bootstrap.mjs:131-140 | the insertion loop computes the insertion-ordered set of the list |
| Bootstrap.ContributionsSnoc | sentra-config-ui/scripts/bootstrap.mjs:134-139 | one more scanned sub-directory adds its own contribution at the end |
| Bootstrap.InsertAllIsSet | sentra-config-ui/scripts/bootstrap.mjs:131-140 | the project `Set` has no duplicates and holds exactly the old entries and the inserted ones |
| Bootstrap.InstallArgs | sentra-config-ui/scripts/bootstrap.mjs:117-120 | `install` plus `--prod=false` exactly for pnpm, `--production=false` exactly for the other managers |
| Bootstrap.InstallNodeCommands | sentra-config-ui/scripts/bootstrap.mjs:147-154 | one install command per selected directory, in order |
| Bootstrap.NodeTrace | sentra-config-ui/scripts/bootstrap.mjs:128-155 | what `ensureNodeProjects` launches; Bootstrap.EnsureNodeProjects is proved equal to it, and SelectedForInstall states which directories it installs |
| Bootstrap.SurveyThenSelect | sentra-config-ui/scripts/bootstrap.mjs:141-154 | recording `installed` and then filtering the results selects the same directories as deciding each directly |
| Bootstrap.SelectedIsSubset | sentra-config-ui/scripts/bootstrap.mjs:141-154 | a directory is installed if and only if it is a project that is forced or not installed; none is installed twice |
| Bootstrap.SelectedForInstall | sentra-config-ui/scripts/bootstrap.mjs:128-155 | over all discovered projects, a directory is installed if and only if it was discovered and is forced or lacks `node_modules`, without duplicates |
| Bootstrap.AppendContribution | sentra-config-ui/scripts/bootstrap.mjs:134-139 | the loop's list after one sub-directory is the root, the UI directory and the contributions so far |
| Bootstrap.CollectProjects | sentra-config-ui/scripts/bootstrap.mjs:131-140 | the scan loop computes the project list: root, UI, then each Sentra sub-directory that is a project and its nested projects, in insertion order without duplicates |
| Bootstrap.ToInstallPrefix | sentra-config-ui/scripts/bootstrap.mjs:147-154 | the selection of a prefix of the results is a prefix of the whole selection |
| Bootstrap.SurveyProjects | sentra-config-ui/scripts/bootstrap.mjs:141-146 | the loop records, per project in order, whether `node_modules` exists |
| Bootstrap.EnsureNodeProjects | sentra-config-ui/scripts/bootstrap.mjs:128-155 | the method launches exactly the selected installs in order, stopping at the first failing one; a dry run launches nothing |
| Bootstrap.SelectionStep | sentra-config-ui/scripts/bootstrap.mjs:147-154 | one more result extends the install list by its directory exactly when it is selected |
| Bootstrap.FirstWorking | sentra-config-ui/scripts/bootstrap.mjs:161-175 | no interpreter if and only if no candidate works; otherwise a candidate that works |
| Bootstrap.DetectPython | sentra-config-ui/scripts/bootstrap.mjs:161-175 | the loop returns the first working candidate of `python3`, `python`, `py -3`, `py` |
| Bootstrap.NeedsVenv | sentra-config-ui/scripts/bootstrap.mjs:234 | `needCreate`; Bootstrap.VenvCreatedWhenNeeded and VenvKeptUnlessNeeded state its effect |
| Bootstrap.CreateVenv | sentra-config-ui/scripts/bootstrap.mjs:241-253 | the creation command: `uv venv` or the detected Python's `-m venv`; Bootstrap.CreateVenvStep is proved equal to it, and VenvCreatedWhenNeeded states that it creates `.venv` |
| Bootstrap.Attempts | sentra-config-ui/scripts/bootstrap.mjs:182-202 | the mirror first when a pip index is set, then the official index, then uv when it exists; every attempt runs in `sentra-emo`, and all but uv use the venv interpreter |
| Bootstrap.Commands | sentra-config-ui/scripts/bootstrap.mjs:204-221 | the command of each attempt, in order |
| Bootstrap.Captions | sentra-config-ui/scripts/bootstrap.mjs:206-209 | the caption of each attempt, in order |
| Bootstrap.TryAttempts | sentra-config-ui/scripts/bootstrap.mjs:204-221 | the attempt loop: a dry run launches nothing and reports every caption in order; otherwise it launches the attempts in turn up to the first success |
| Bootstrap.InstallRequirementsWithFallback | sentra-config-ui/scripts/bootstrap.mjs:181-222 | a dry run launches nothing and reports every caption in order; otherwise the attempts are tried in turn |
| Bootstrap.CreateVenvStep | sentra-config-ui/scripts/bootstrap.mjs:236-255 | the venv is created with the chosen or detected interpreter; with none, the script stops with "no Python" |
| Bootstrap.EnsureEmoPython | sentra-config-ui/scripts/bootstrap.mjs:224-273 | the method follows the Python setup: skip without `sentra-emo` or its requirements; create the venv when forced or missing; stop when the venv interpreter is missing; a dry run stops there; otherwise upgrade pip, ignoring its failure, and install with fallback |
| Bootstrap.ExistingVenvIsReused | sentra-config-ui/scripts/bootstrap.mjs:234-269 | with the venv present and no `--force`, the first launch is the pip upgrade of that venv, and nothing launched creates an environment |
| Bootstrap.TryInTurnRunsCandidates | sentra-config-ui/scripts/bootstrap.mjs:204-221 | trying in turn launches at least one candidate when there is one, and nothing but candidates |
| Bootstrap.AttemptsKeepVenv | sentra-config-ui/scripts/bootstrap.mjs:182-202 | no installation attempt creates an environment |
| Bootstrap.VenvCreatedWhenNeeded | sentra-config-ui/scripts/bootstrap.mjs:233-255 | when `--force` is given or `.venv` is missing (and not a dry run), the first launch creates `.venv`, unless no interpreter is found |
| Bootstrap.VenvKeptUnlessNeeded | sentra-config-ui/scripts/bootstrap.mjs:233-272 | without `--force` and with `.venv` present, nothing launched creates an environment, dry run or not; with VenvCreatedWhenNeeded, `.venv` is created exactly when `needCreate` holds |
| Bootstrap.RunBootstrap | sentra-config-ui/scripts/bootstrap.mjs:275-287 | help launches nothing; otherwise the script chooses the package manager, then runs the Node part and/or the Python part as `--only` says |
| Bootstrap.BootstrapTrace | sentra-config-ui/scripts/bootstrap.mjs:275-287 | what `main` launches once the options are known; Bootstrap.RunBootstrap is proved equal to it, and DryRunLaunchesNothing and MissingPackageManagerStopsEarly state its properties |
| Bootstrap.DryRunLaunchesNothing | sentra-config-ui/scripts/bootstrap.mjs:275-287 | a dry run launches no process at all |
| Bootstrap.MissingPackageManagerStopsEarly | sentra-config-ui/scripts/bootstrap.mjs:278 | when no package manager can be chosen, the script stops with that error before launching anything |
| Update.ReadFlag | sentra-config-ui/scripts/update.mjs:17-29 | one round of the parser consumes one argument, or two when the first is a spaced flag with a value |
| Update.ReadArgument | sentra-config-ui/scripts/update.mjs:17-29 | the loop body: `help` exactly when the argument asks for help; otherwise it advances by the count the flag grammar consumes, with the updated options |
| Update.ParseArgs | sentra-config-ui/scripts/update.mjs:13-32 | the loop computes the flag grammar applied from the defaults `safe`, `all`, `node`, `auto`; no arguments give the defaults |
| Update.ReadFlagIsLocal | sentra-config-ui/scripts/update.mjs:17-29 | reading a flag looks no further than its own value |
| Update.ParseAppend | sentra-config-ui/scripts/update.mjs:16-30 | parsing concatenated argument lists is parsing the second from the options the first produced, or help if the first asked for it |
| Update.SpacedFlagIsBare | sentra-config-ui/scripts/update.mjs:17-29 | a spaced flag matches no earlier branch of the if-chain |
| Update.ReadInlineFlag | sentra-config-ui/scripts/update.mjs:18-24 | `--flag=value` sets exactly that option to `value` |
| Update.ReadSpacedFlag | sentra-config-ui/scripts/update.mjs:19-25 | `--flag value` with a non-empty value consumes both words and sets that option |
| Update.ReadLeadingSpacedFlag | sentra-config-ui/scripts/update.mjs:19-25 | a leading `--flag value` with a non-empty value sets that option and parsing goes on with the rest |
| Update.LaterSpacedFlagOverrides | sentra-config-ui/scripts/update.mjs:16-30 | a later `--flag v` with non-empty `v` (which may hold `=`) overrides every earlier setting of that option and changes nothing else |
| Update.LaterInlineFlagOverrides | sentra-config-ui/scripts/update.mjs:16-30 | a later `--flag=v` with `v` free of `=` (possibly empty) overrides every earlier setting of that option and changes nothing else |
| Update.TrailingFlagIgnored | sentra-config-ui/scripts/update.mjs:19-25 | a spaced flag with no value after it is skipped |
| Update.CurrentBranch | sentra-config-ui/scripts/update.mjs:68-79 | never empty; the trimmed `rev-parse` answer when it names a branch (not empty, not `HEAD`); otherwise the branch in `.git/HEAD`; otherwise `main` |
| Update.SafeUpdate | sentra-config-ui/scripts/update.mjs:81-88 | the method launches fetch, then the fast-forward pull, with the rebase pull only if that fails |
| Update.SafeUpdateTrace | sentra-config-ui/scripts/update.mjs:81-88 | what `safeUpdate` launches; Update.SafeUpdate is proved equal to it, and SafeUpdateSteps states its properties |
| Update.SafeUpdateSteps | sentra-config-ui/scripts/update.mjs:81-88 | fetch comes first, and a failed fetch launches nothing else; the rebase pull runs if and only if fetch succeeded and the fast-forward failed; the update fails if and only if fetch fails or both pulls fail, with the last command's error |
| Update.ForceUpdate | sentra-config-ui/scripts/update.mjs:90-95 | the loop runs fetch, hard reset to `origin/<current branch>` and clean in order, stopping at the first failure |
| Update.ForceUpdateTrace | sentra-config-ui/scripts/update.mjs:90-95 | what `forceUpdate` launches; Update.ForceUpdate is proved equal to it, and ForceUpdateSteps states its properties |
| Update.ForceUpdateSteps | sentra-config-ui/scripts/update.mjs:90-95 | the launched commands are a non-empty prefix of fetch, reset, clean, all but the last of which succeeded; success if and only if all three ran; no pull ever runs; the reset targets `origin/<branch>` |
| Update.DependencyCommands | sentra-config-ui/scripts/update.mjs:97-105 | `node` gives the Node bootstrap, `python` the Python bootstrap, `all` both in that order, and any other value nothing |
| Update.EnsureDependencies | sentra-config-ui/scripts/update.mjs:97-105 | what `ensureDependencies` launches: nothing for `none`, otherwise the dependency commands run in order; Update.DependencyCommands and Toolchain.RunInOrderStopsAtFirstFailure state what it launches and how it ends |
| Update.NodeBootstrapReceivesOptions | sentra-config-ui/scripts/update.mjs:100 | the bootstrap parses the Node re-install's arguments as `--only node`, `--force` and the chosen manager, other options at their defaults |
| Update.PythonBootstrapReceivesOptions | sentra-config-ui/scripts/update.mjs:103 | the bootstrap parses the Python re-install's arguments as `--only python` and `--force`, other options at their defaults |
| Update.RunUpdate | sentra-config-ui/scripts/update.mjs:107-127 | help launches nothing; otherwise: choose the package manager, then the git step for the mode (none without `.git`), then the dependency step |
| Update.UpdateTrace | sentra-config-ui/scripts/update.mjs:107-127 | what `main` launches once the options are known; Update.RunUpdate is proved equal to it, and UpdateStepOrder and AnyOtherModeIsSafe state its properties |
| Update.UpdateStepOrder | sentra-config-ui/scripts/update.mjs:107-127 | a missing package manager aborts before any launch; a failed git step means no re-install; without a repository only the re-install runs; `--scope` changes nothing |
| Update.AnyOtherModeIsSafe | sentra-config-ui/scripts/update.mjs:115-121 | every mode other than `force` performs the safe update, and only fetch and pulls are launched |
| TerminalWindow.StatusLineCarriesCode | sentra-config-ui/src/components/TerminalWindow.tsx:57 | the exit status line reads back as the exit code, and as nothing when the code was missing (`unknown`) |
| TerminalWindow.ConvertAll | sentra-config-ui/src/components/TerminalWindow.tsx:45 | each split part is converted, in order |
| TerminalWindow.AfterOutput | sentra-config-ui/src/components/TerminalWindow.tsx:30-54 | a `\r` chunk replaces only the last line (or becomes the only line); any other chunk keeps every line and appends one converted line per newline plus one, in order |
| TerminalWindow.OnMessage | sentra-config-ui/src/components/TerminalWindow.tsx:27-61 | the `onmessage` handler; TerminalWindow.Terminal.HandleMessage is proved equal to it, and AfterOutput, StatusLineCarriesCode, StoppedStaysStopped and EarlierLinesAreStable state its properties |
| TerminalWindow.OnError | sentra-config-ui/src/components/TerminalWindow.tsx:63-66 | the `onerror` handler; TerminalWindow.Terminal.HandleError is proved equal to it, and StoppedStaysStopped and EarlierLinesAreStable state its properties |
| TerminalWindow.StoppedStaysStopped | sentra-config-ui/src/components/TerminalWindow.tsx:55-66 | once stopped, no later event sets the view running again |
| TerminalWindow.EarlierLinesAreStable | sentra-config-ui/src/components/TerminalWindow.tsx:27-66 | lines never disappear, and every line but the last is never rewritten |
| TerminalWindow.Terminal.constructor | sentra-config-ui/src/components/TerminalWindow.tsx:19-20 | no lines and running |
| TerminalWindow.Terminal.HandleMessage | sentra-config-ui/src/components/TerminalWindow.tsx:27-61 | the state follows `OnMessage`: `exit` appends the status line and stops; other types change nothing; output keeps the running flag |
| TerminalWindow.Terminal.HandleError | sentra-config-ui/src/components/TerminalWindow.tsx:63-66 | a stream error stops the view and keeps the lines |
| Launchpad.Keep | sentra-config-ui/src/components/Launchpad.tsx:21-27 | filtering never makes the list longer |
| Launchpad.KeepMembers | sentra-config-ui/src/components/Launchpad.tsx:21-27 | an item is kept if and only if it is in the list and passes the test |
| Launchpad.Matches | sentra-config-ui/src/components/Launchpad.tsx:22-26 | the search test; Launchpad.FilteredItems and EmptySearchKeepsAll state which items it keeps |
| Launchpad.PassingPositions | sentra-config-ui/src/components/Launchpad.tsx:21-27 | the increasing positions of exactly the passing items |
| Launchpad.KeepSelectsPassingPositions | sentra-config-ui/src/components/Launchpad.tsx:21-27 | filtering keeps exactly the items at the passing positions, in their original order |
| Launchpad.FilteredItems | sentra-config-ui/src/components/Launchpad.tsx:21-27 | an item is shown if and only if its display name or its name, lower-cased, contains the lower-cased term |
| Launchpad.EmptySearchKeepsAll | sentra-config-ui/src/components/Launchpad.tsx:21-27 | the empty search shows every item, in order |
| Launchpad.CategorisePages | sentra-config-ui/src/components/Launchpad.tsx:30-60 | the categorising loop computes the pages |
| Launchpad.CategoryOf | sentra-config-ui/src/components/Launchpad.tsx:38-51 | the category of a name; Launchpad.CategoriesPartition and CoreTakesPrecedence state its properties |
| Launchpad.PagesOf | sentra-config-ui/src/components/Launchpad.tsx:30-60 | the `pages` memo; Launchpad.CategorisePages is proved equal to it, and PagesCoverMatches and PagesFollowCategoryOrder state its properties |
| Launchpad.CategoriesPartition | sentra-config-ui/src/components/Launchpad.tsx:37-52 | every item lands in exactly one of core, tools and QQ |
| Launchpad.CoreTakesPrecedence | sentra-config-ui/src/components/Launchpad.tsx:39-46 | a name containing a core marker is core, even when it also contains `qq_` or `qq-` |
| Launchpad.PagesCoverMatches | sentra-config-ui/src/components/Launchpad.tsx:30-60 | there is at least one page; a search gives one page with all matches; the pages hold exactly the matches, none lost or repeated |
| Launchpad.FlattenAppend | sentra-config-ui/src/components/Launchpad.tsx:54-59 | the items of two page lists together are the items of each, in order |
| Launchpad.PagesFollowCategoryOrder | sentra-config-ui/src/components/Launchpad.tsx:54-59 | without a search, no matches give one empty page; otherwise the pages are the non-empty categories, in the order core, tools, QQ |
| Launchpad.SomeCategoryHasItems | sentra-config-ui/src/components/Launchpad.tsx:54-59 | some category of a non-empty match list is non-empty |
| Launchpad.ActiveIndex | sentra-config-ui/src/components/Launchpad.tsx:62-63 | the active page is an existing page: the stored page when that exists, otherwise the last page |
| Launchpad.PrevPage | sentra-config-ui/src/components/Launchpad.tsx:67 | one back, never below 0 |
| Launchpad.NextPage | sentra-config-ui/src/components/Launchpad.tsx:69 | one forward when there is a next page; otherwise the last page |
| Launchpad.StalePrevDoesNotMove | sentra-config-ui/src/components/Launchpad.tsx:62-71 | (as written) with the stored page past the last of two or more pages, the previous-page button is enabled but leaves the same page on screen |
| Launchpad.CorrectedPrevPage | sentra-config-ui/src/components/Launchpad.tsx:65-71 | stepping back from the page on screen always yields an existing page |
| Launchpad.CorrectedPrevMovesBack | sentra-config-ui/src/components/Launchpad.tsx:65-71 | with the corrected step, the previous-page button always moves the screen one page back when it is enabled |
| Launchpad.LaunchpadView.TotalPages | sentra-config-ui/src/components/Launchpad.tsx:62 | there is always at least one page |
| Launchpad.LaunchpadView.ActivePage | sentra-config-ui/src/components/Launchpad.tsx:63 | the page on screen always exists |
| Launchpad.LaunchpadView.constructor | sentra-config-ui/src/components/Launchpad.tsx:15-16 | empty search, first page |
| Launchpad.LaunchpadView.ReceiveItems | sentra-config-ui/src/components/Launchpad.tsx:14-27 | a new items prop keeps the search and the stored page |
| Launchpad.LaunchpadView.ChangeSearch | sentra-config-ui/src/components/Launchpad.tsx:95-98 | typing sets the term and returns to the first page |
| Launchpad.LaunchpadView.PageChange | sentra-config-ui/src/components/Launchpad.tsx:65-71 | previous and next move the page on screen by one within the existing pages, and leave an existing page stored |
| Launchpad.LaunchpadView.SelectPage | sentra-config-ui/src/components/Launchpad.tsx:147-152 | a dot selects its own page, which is then on screen |
| Cors.ConfiguredOrigin | sentra-config-ui/server/index.ts:14 | a set, non-empty `CORS_ORIGIN` is used as is; unset or empty means `*` |
| Cors.TrimmedEntries | sentra-config-ui/server/index.ts:25 | no entry is empty or padded with white space, and there are no more entries than raw parts; its value on any list, blank entries included, follows from Cors.TrimmedEntriesAppend, BlankEntryDropped and TrimmedEntriesOfPadded |
| Cors.TrimmedEntriesCommaFree | sentra-config-ui/server/index.ts:25 | comma-free raw parts give comma-free entries |
| Cors.OriginParts | sentra-config-ui/server/index.ts:25 | every part is a clean origin: non-empty, trimmed, without a comma |
| Cors.CorsOrigin | sentra-config-ui/server/index.ts:23-27 | `*` allows every origin; a single origin or a list of two or more is handed over clean |
| Cors.TrimmedEntriesOfPadded | sentra-config-ui/server/index.ts:25 | padded non-blank entries become their trims, in order |
| Cors.TrimmedEntriesAppend | sentra-config-ui/server/index.ts:25 | trimming and dropping blanks works entry by entry: the entries of a concatenation are the entries of each part, in order |
| Cors.BlankEntryDropped | sentra-config-ui/server/index.ts:25 | a blank entry anywhere in the list (`a,,b`, `a, ,b`) is dropped and the other entries are unchanged |
| Cors.OriginListRoundTrip | sentra-config-ui/server/index.ts:23-27 | a comma-joined list of padded origins reads back as the origins in order: a list for two or more, the origin itself for one |
| Cors.TrailingCommaIgnored | sentra-config-ui/server/index.ts:23-27 | a trailing comma after a list of padded origins is ignored: the parts are the same origins, in order |
| Cors.OriginPartsOfJoin | sentra-config-ui/server/index.ts:25 | the parts of a comma-joined list of padded origins are the origins, in order |
| Cors.SeveralOrigins | sentra-config-ui/server/index.ts:23-27 | two or more padded origins joined by commas are handed over as that list |
| Cors.OneOrigin | sentra-config-ui/server/index.ts:23-27 | one padded origin other than `*` is handed over as that origin alone |
| Cors.EmptySettings | sentra-config-ui/server/index.ts:14-27 | an empty variable allows every origin; a value of only commas and blanks disables CORS |
| Cors.BlankEntriesDropOut | sentra-config-ui/server/index.ts:25 | blank entries are all dropped |
| UpdateDialog.InitialMatchesDefaults | sentra-config-ui/src/components/UpdateDialog.tsx:18-21 | the dialog opens on the update script's own defaults |
| UpdateDialog.Preview | sentra-config-ui/src/components/UpdateDialog.tsx:23-25 | the `preview` string; UpdateDialog.PreviewIsJoin and PreviewRoundTrip state its properties |
| UpdateDialog.Submitted | sentra-config-ui/src/components/UpdateDialog.tsx:80 | the options `onSubmit` receives; UpdateDialog.InitialMatchesDefaults, ValuesMatchUsage, PreviewRoundTrip and SubmittedChoicesDecideSteps state its properties |
| UpdateDialog.ValuesMatchUsage | sentra-config-ui/src/components/UpdateDialog.tsx:4-9 | every offered value is one of the script's documented values, and the submitted options identify the selection |
| UpdateDialog.ValueWords | sentra-config-ui/src/components/UpdateDialog.tsx:4-9 | every offered value is a single non-empty word, with no `=`, that is not itself a flag |
| UpdateDialog.SelectionWords | sentra-config-ui/src/components/UpdateDialog.tsx:23-25 | every preview word is free of spaces, and each value is a word the parser takes whole |
| UpdateDialog.PreviewIsJoin | sentra-config-ui/src/components/UpdateDialog.tsx:23-25 | the preview is its ten words joined by single spaces |
| UpdateDialog.PreviewRoundTrip | sentra-config-ui/src/components/UpdateDialog.tsx:23-25 | split on spaces, the preview gives its words back, and the update script's parser reads exactly the submitted options from them |
| UpdateDialog.ReadFourFlags | sentra-config-ui/src/components/UpdateDialog.tsx:24 | the four spaced flags, each with a non-empty value, set all four options |
| UpdateDialog.SubmittedChoicesDecideSteps | sentra-config-ui/src/components/UpdateDialog.tsx:80 | only `Force` leads to the hard reset, and only `NoInstall` leads to no re-install |

## Left out

- **Processes.** Spawning, the shell, stdio inheritance and the environment
  merge are out of the model. A command's exit code is an oracle
  (`Toolchain.Host.exitCode`). A process killed by a signal (code `null`)
  counts as a non-zero exit.
- **Probes.** `commandExists`, `hasUv` and the interpreter probes of
  `detectPython` are a host oracle (`Toolchain.Host.probe`).
- **Reading `.git/HEAD`.** The regular expression on `.git/HEAD` is not
  modelled. Its match is an input (`Update.Repository.headRef`), and so is
  the output of `git rev-parse`.
- **Directory scans.** `listSentraSubdirs`, `listNestedNodeProjects` and
  `fs.existsSync` read the file system. They are inputs
  (`Bootstrap.Workspace`). Paths are joined with `/`, so Windows
  separators are not modelled.
- **Console output.** Console output, colours, boxes, the spinner and the
  usage text are not modelled. This includes the `Success: <label>` and
  `Failed: <label>` lines of each installation attempt
  (`bootstrap.mjs:215`, `:218`); only the dry run's list of captions is
  kept (`Bootstrap.TryAttempts`). Help is modelled as "nothing runs", which is
  the effect of `process.exit(0)`.
- **Unmodelled helpers.** The `ansi-to-html` converter, `getDisplayName` and
  `getIconForType` are not part of this model. The first two are function
  parameters; the icon is not modelled.
- **Lower-casing.** `toLowerCase` is modelled for ASCII letters only.
- **The terminal's event stream.** `EventSource`, JSON parsing, the
  auto-scroll state and the unmount clean-up are not modelled. Events are
  given as parsed messages. Closing the stream after `exit` or an error is
  not modelled, so the model lets further events arrive after it.
- **The server.** The port (`SERVER_PORT` through `parseInt`), the routes, the
  static files and `dotenv` are not modelled. `server/routes/scripts.ts` is
  not part of this model.
- **UI rendering.** The launcher's `onClick` handlers, the open/close
  overlay, device detection and animations are not modelled. So are the
  dialog's setters and rendering: a selection is a value, and every
  selection can be reached.
- **The venv interpreter after creation.** `bootstrap.mjs:257-260` checks
  for the venv interpreter after `.venv` may have been created. The model
  reads that answer from the same `Workspace.present` snapshot as the
  earlier checks, so it is an input. The model does not derive that a
  successful creation makes the interpreter appear.
- **Which bootstrap `update.mjs` launches.** `update.mjs:11` puts `repoRoot`
  two levels above `scripts/`, so `update.mjs:100` and `:103` launch
  `<repoRoot>/scripts/bootstrap.mjs`. The modelled bootstrap is
  `sentra-config-ui/scripts/bootstrap.mjs`, whose own `repoRoot` is one level
  above its UI directory (`bootstrap.mjs:11-12`).
  `Update.NodeBootstrapReceivesOptions` and `PythonBootstrapReceivesOptions`
  read the launched arguments with that bootstrap's parser, which assumes
  the launched file is the modelled script.
- **Asynchrony.** Every awaited step is sequential in the source. The model
  has no concurrency.
- **Launchpad.LaunchpadView.PageChange:** the previous-page step is taken
  from the page on screen (`CorrectedPrevPage`), not from the stored page as
  `Launchpad.tsx:67` does; the as-written step is kept in
  `StalePrevDoesNotMove` (see Findings).

## Findings

| source | as written | input that shows it | evidently intended | confidence | as-written member | corrected member |
|---|---|---|---|---|---|---|
| sentra-config-ui/src/components/Launchpad.tsx:65-71 | the previous-page handler steps back from the stored `currentPage`, while the screen shows `Math.min(currentPage, totalPages - 1)` and enables the button whenever that is not 0 | the launcher shows 3 pages and the user is on page 2; the `items` prop changes so that only 2 pages remain (the stored page stays 2, and page 1 is on screen); pressing previous stores 1 and page 1 is still on screen | pressing an enabled previous-page button shows the page before the one on screen | medium, not executed | Launchpad.StalePrevDoesNotMove | Launchpad.CorrectedPrevMovesBack |
