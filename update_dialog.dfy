/**
 * The update dialog of the configuration UI. The user picks a mode, a scope,
 * what to install and a package manager; the dialog previews the equivalent
 * command line of the update script and submits the four selections.
 */
module UpdateDialog {

  import opened Text
  import Update

  /** The four option types, one constructor per value the dialog offers. */
  datatype Mode = Safe | Force
  datatype Scope = RootOnly | Everything
  datatype Install = NoInstall | NodeOnly | PythonOnly | NodeAndPython
  datatype PackageManager = Auto | Pnpm | Npm | Cnpm

  function ModeText(m: Mode): string {
    match m
    case Safe => "safe"
    case Force => "force"
  }

  function ScopeText(s: Scope): string {
    match s
    case RootOnly => "root"
    case Everything => "all"
  }

  function InstallText(i: Install): string {
    match i
    case NoInstall => "none"
    case NodeOnly => "node"
    case PythonOnly => "python"
    case NodeAndPython => "all"
  }

  function PackageManagerText(p: PackageManager): string {
    match p
    case Auto => "auto"
    case Pnpm => "pnpm"
    case Npm => "npm"
    case Cnpm => "cnpm"
  }

  /** The dialog state: the four current selections. */
  datatype Selection = Selection(mode: Mode, scope: Scope, install: Install, pm: PackageManager)

  /** The initial selections. */
  const Initial: Selection := Selection(Safe, Everything, NodeOnly, Auto)

  /** `preview`: the command line the selections stand for. */
  function Preview(s: Selection): string {
    "node scripts/update.mjs --mode " + ModeText(s.mode) + " --scope " + ScopeText(s.scope)
      + " --install " + InstallText(s.install) + " --pm " + PackageManagerText(s.pm)
  }

  /** What the confirm button hands to `onSubmit`: `{ mode, scope, install, pm }`. */
  function Submitted(s: Selection): Update.Options {
    Update.Options(ModeText(s.mode), ScopeText(s.scope), InstallText(s.install), PackageManagerText(s.pm))
  }

  /** The words of the preview, in order. */
  function PreviewWords(s: Selection): seq<string> {
    ["node", "scripts/update.mjs", "--mode", ModeText(s.mode), "--scope", ScopeText(s.scope),
     "--install", InstallText(s.install), "--pm", PackageManagerText(s.pm)]
  }

  /** The dialog opens on the update script's own defaults. */
  lemma InitialMatchesDefaults()
    ensures Submitted(Initial) == Update.Defaults
  {
  }

  /**
   * Every value the dialog offers is one the update script's usage lists, and
   * distinct selections have distinct texts, so the texts identify the choice.
   */
  lemma ValuesMatchUsage(s: Selection, t: Selection)
    ensures ModeText(s.mode) in {"safe", "force"}
    ensures ScopeText(s.scope) in {"root", "all"}
    ensures InstallText(s.install) in {"none", "node", "python", "all"}
    ensures PackageManagerText(s.pm) in {"auto", "pnpm", "npm", "cnpm"}
    ensures Submitted(s) == Submitted(t) ==> s == t
  {
  }

  /** A value the dialog offers is a single word that the parser takes whole. */
  predicate Word(v: string) {
    v != "" && ' ' !in v && '=' !in v && v !in Update.SpacedFlags
  }

  lemma SelectionWords(s: Selection)
    ensures forall k :: 0 <= k < |PreviewWords(s)| ==> ' ' !in PreviewWords(s)[k]
    ensures Word(ModeText(s.mode)) && Word(ScopeText(s.scope))
    ensures Word(InstallText(s.install)) && Word(PackageManagerText(s.pm))
  {
    ValueWords(s);
    var w := PreviewWords(s);
    assert ' ' !in "scripts/update.mjs";
    assert forall k :: 0 <= k < |w| ==> w[k] in {"node", "scripts/update.mjs", "--mode", "--scope", "--install", "--pm",
      ModeText(s.mode), ScopeText(s.scope), InstallText(s.install), PackageManagerText(s.pm)};
  }

  /** Each of the four values is a word, one type at a time. */
  lemma ValueWords(s: Selection)
    ensures Word(ModeText(s.mode)) && Word(ScopeText(s.scope))
    ensures Word(InstallText(s.install)) && Word(PackageManagerText(s.pm))
  {
    match s.mode
    case Safe =>
    case Force =>
    match s.scope
    case RootOnly =>
    case Everything =>
    match s.install
    case NoInstall =>
    case NodeOnly =>
    case PythonOnly =>
    case NodeAndPython =>
    match s.pm
    case Auto =>
    case Pnpm =>
    case Npm =>
    case Cnpm =>
  }

  /** Joining from the word at `i` on: that word, a space, and the join of the rest. */
  lemma JoinFrom(w: seq<string>, i: nat)
    requires i + 1 < |w|
    ensures Join(w[i..], ' ') == w[i] + " " + Join(w[i + 1..], ' ')
  {
    assert w[i..] == [w[i]] + w[i + 1..];
    JoinCons(w[i], w[i + 1..], ' ');
  }

  /** Ten words joined by spaces, nested from the right as `Join` builds them. */
  lemma JoinTenWords(w: seq<string>)
    requires |w| == 10
    ensures Join(w, ' ') == w[0] + " " + (w[1] + " " + (w[2] + " " + (w[3] + " " + (w[4] + " "
      + (w[5] + " " + (w[6] + " " + (w[7] + " " + (w[8] + " " + w[9]))))))))
  {
    var j := Join(w[9..], ' ');
    assert w[9..] == [w[9]];
    JoinFrom(w, 8);
    j := w[8] + " " + j;
    assert Join(w[8..], ' ') == j;
    JoinFrom(w, 7);
    j := w[7] + " " + j;
    assert Join(w[7..], ' ') == j;
    JoinFrom(w, 6);
    j := w[6] + " " + j;
    assert Join(w[6..], ' ') == j;
    JoinFrom(w, 5);
    j := w[5] + " " + j;
    assert Join(w[5..], ' ') == j;
    JoinFrom(w, 4);
    j := w[4] + " " + j;
    assert Join(w[4..], ' ') == j;
    JoinFrom(w, 3);
    j := w[3] + " " + j;
    assert Join(w[3..], ' ') == j;
    JoinFrom(w, 2);
    j := w[2] + " " + j;
    assert Join(w[2..], ' ') == j;
    JoinFrom(w, 1);
    j := w[1] + " " + j;
    assert Join(w[1..], ' ') == j;
    JoinFrom(w, 0);
    assert w[0..] == w;
  }

  lemma SpacedConcat(a: string, b: string, c: string, d: string, e: string, f: string, g: string, h: string, i: string, j: string)
    ensures a + " " + b + " " + c + " " + d + " " + e + " " + f + " " + g + " " + h + " " + i + " " + j
      == a + " " + (b + " " + (c + " " + (d + " " + (e + " " + (f + " " + (g + " " + (h + " " + (i + " " + j))))))))
  {
  }

  /** A literal ` <flag> ` between two pieces is a space, the flag and a space. */
  lemma FlagPiece(a: string, lit: string, flag: string, v: string)
    requires lit == " " + flag + " "
    ensures a + lit + v == a + " " + flag + " " + v
  {
  }

  /** The template's opening text is its first three words, each followed by a space. */
  lemma TemplateHead()
    ensures "node scripts/update.mjs --mode " == "node" + " " + "scripts/update.mjs" + " " + "--mode" + " "
  {
  }

  /** The template's fixed text is the fixed words with single spaces around them. */
  lemma TemplatePieces(m: string, sc: string, i: string, p: string)
    ensures "node scripts/update.mjs --mode " + m + " --scope " + sc + " --install " + i + " --pm " + p
      == "node" + " " + "scripts/update.mjs" + " " + "--mode" + " " + m + " " + "--scope" + " " + sc
        + " " + "--install" + " " + i + " " + "--pm" + " " + p
  {
    TemplateHead();
    var b := "node" + " " + "scripts/update.mjs" + " " + "--mode" + " " + m;
    FlagPiece(b, " --scope ", "--scope", sc);
    b := b + " " + "--scope" + " " + sc;
    FlagPiece(b, " --install ", "--install", i);
    b := b + " " + "--install" + " " + i;
    FlagPiece(b, " --pm ", "--pm", p);
  }

  /** The preview is its words joined by single spaces. */
  lemma PreviewIsJoin(s: Selection)
    ensures Join(PreviewWords(s), ' ') == Preview(s)
  {
    var w := PreviewWords(s);
    JoinTenWords(w);
    SpacedConcat(w[0], w[1], w[2], w[3], w[4], w[5], w[6], w[7], w[8], w[9]);
    TemplatePieces(w[3], w[5], w[7], w[9]);
  }

  /**
   * The preview round-trips through the update script: split on spaces it
   * gives back its words, and the words after the script path, read by the
   * script's argument parser, give exactly the four submitted selections.
   */
  lemma PreviewRoundTrip(s: Selection)
    ensures Split(Preview(s), ' ') == PreviewWords(s)
    ensures Update.ParseRest(Split(Preview(s), ' ')[2..], Update.Defaults) == Update.Parsed(Submitted(s))
  {
    var w := PreviewWords(s);
    PreviewIsJoin(s);
    SelectionWords(s);
    SplitJoin(w, ' ');
    ReadFourFlags(w[3], w[5], w[7], w[9]);
    assert w[2..] == ["--mode", w[3], "--scope", w[5], "--install", w[7], "--pm", w[9]];
  }

  /** The four spaced flags, each with a non-empty value, set all four options. */
  lemma ReadFourFlags(m: string, sc: string, i: string, p: string)
    requires m != "" && sc != "" && i != "" && p != ""
    ensures Update.ParseRest(["--mode", m, "--scope", sc, "--install", i, "--pm", p], Update.Defaults)
      == Update.Parsed(Update.Options(m, sc, i, p))
  {
    var d := Update.Defaults;
    var pmPair: seq<string> := ["--pm", p];
    var installPair := ["--install", i] + pmPair;
    var scopePair := ["--scope", sc] + installPair;
    assert ["--mode", m] + scopePair == ["--mode", m, "--scope", sc, "--install", i, "--pm", p];
    Update.ReadLeadingSpacedFlag("--mode", m, scopePair, d);
    Update.ReadLeadingSpacedFlag("--scope", sc, installPair, d.(mode := m));
    Update.ReadLeadingSpacedFlag("--install", i, pmPair, d.(mode := m, scope := sc));
    Update.ReadLeadingSpacedFlag("--pm", p, [], d.(mode := m, scope := sc, install := i));
    assert pmPair == ["--pm", p] + [];
  }

  /**
   * What the update then does with the submitted selections: `Force` is the
   * only choice that hard-resets, and `NoInstall` the only one that runs no
   * bootstrap.
   */
  lemma SubmittedChoicesDecideSteps(s: Selection, l: Update.Launcher, pm: string)
    ensures Submitted(s).mode == "force" <==> s.mode == Force
    ensures Update.DependencyCommands(Submitted(s).install, pm, l) == [] <==> s.install == NoInstall
  {
  }
}
