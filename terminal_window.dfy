/**
 * The terminal viewer of a running script (`TerminalWindow`). It listens to
 * the script's event stream and keeps two pieces of component state: the
 * display lines and whether the script is still running. An `output` chunk
 * that starts with a carriage return redraws the last line (progress
 * spinners); any other chunk is split on newlines and every part is appended,
 * a trailing empty part included; `exit` appends one status line. There is no
 * in-progress partial line.
 *
 * `convert` is the ANSI-to-HTML converter. Its library is not modelled, so it
 * is a parameter of the component; it keeps no state between calls.
 */
module TerminalWindow {

  import opened Wrappers
  import opened Text

  /** A parsed stream message, by its `type` field. */
  datatype Message =
    | Output(data: string)
    | Exit(code: Option<int>)   // `None`: the code was null or missing
    | Other(kind: string)       // any other `type`

  /** What the stream delivers: a message, or a connection error (`onerror`). */
  datatype Event = Delivered(message: Message) | StreamError

  /** The component state: `lines` and `isRunning`. */
  datatype View = View(lines: seq<string>, isRunning: bool)

  /** `useState([])` and `useState(true)`. */
  const Initial: View := View([], true)

  /** The text in the status line around the exit code. */
  const StatusPrefix: string := "\n\U{1B}[32m\U{2713} Process exited with code "
  const StatusSuffix: string := "\U{1B}[0m\n"

  /** `${data.code ?? 'unknown'}` */
  function CodeText(code: Option<int>): string {
    match code
    case Some(c) => IntToDecimal(c)
    case None => "unknown"
  }

  /** The status line, before conversion to HTML. */
  function StatusText(code: Option<int>): string {
    StatusPrefix + CodeText(code) + StatusSuffix
  }

  /**
   * The status line carries the exit code: reading the text between the fixed
   * prefix and suffix back as a number gives the code, and gives nothing when
   * the code was missing (the line then says `unknown`).
   */
  lemma StatusLineCarriesCode(code: Option<int>)
    ensures var t := StatusText(code);
      StartsWith(t, StatusPrefix)
      && t[|StatusPrefix|..|t| - |StatusSuffix|] == CodeText(code)
      && DecimalToInt(CodeText(code)) == code
  {
    var t := StatusText(code);
    assert t[|StatusPrefix|..|t| - |StatusSuffix|] == CodeText(code);
    match code
    case Some(c) => IntDecimalRoundTrip(c);
    case None => assert CodeText(code)[0] == 'u';
  }

  /** `parts.map(part => convert.toHtml(part))` */
  function ConvertAll(convert: string -> string, parts: seq<string>): (r: seq<string>)
    ensures |r| == |parts|
    ensures forall k :: 0 <= k < |parts| ==> r[k] == convert(parts[k])
  {
    seq(|parts|, k requires 0 <= k < |parts| => convert(parts[k]))
  }

  /**
   * The lines after one `output` chunk. A chunk starting with `\r` replaces
   * only the last line (or becomes the only line of an empty list); any other
   * chunk appends one line per newline plus one, in split order, and leaves
   * every existing line in place.
   */
  function AfterOutput(lines: seq<string>, text: string, convert: string -> string): (r: seq<string>)
    ensures StartsWith(text, "\r") && lines == [] ==> r == [convert(text[1..])]
    ensures StartsWith(text, "\r") && lines != [] ==>
      |r| == |lines| && r[..|r| - 1] == lines[..|lines| - 1] && r[|r| - 1] == convert(text[1..])
    ensures !StartsWith(text, "\r") ==>
      |Split(text, '\n')| == Count(text, '\n') + 1
      && |r| == |lines| + |Split(text, '\n')|
      && r[..|lines|] == lines
      && forall k :: 0 <= k < |Split(text, '\n')| ==> r[|lines| + k] == convert(Split(text, '\n')[k])
  {
    if StartsWith(text, "\r") then
      var html := convert(text[1..]);
      if lines == [] then [html] else lines[|lines| - 1 := html]
    else
      SplitCount(text, '\n');
      lines + ConvertAll(convert, Split(text, '\n'))
  }

  /** `onmessage`: what one parsed message does to the state. */
  function OnMessage(v: View, m: Message, convert: string -> string): View {
    match m
    case Output(text) => v.(lines := AfterOutput(v.lines, text, convert))
    case Exit(code) => View(v.lines + [convert(StatusText(code))], false)
    case Other(_) => v
  }

  /** `onerror`: the run is shown as stopped; the lines stay as they are. */
  function OnError(v: View): View {
    v.(isRunning := false)
  }

  function Step(v: View, e: Event, convert: string -> string): View {
    match e
    case Delivered(m) => OnMessage(v, m, convert)
    case StreamError => OnError(v)
  }

  /** The state after the handlers have seen `events` in order. */
  function Replay(v: View, events: seq<Event>, convert: string -> string): View
    decreases |events|
  {
    if events == [] then v else Replay(Step(v, events[0], convert), events[1..], convert)
  }

  /** No handler sets `isRunning` back to true: once stopped, the view stays stopped. */
  lemma {:induction false} StoppedStaysStopped(v: View, events: seq<Event>, convert: string -> string)
    requires !v.isRunning
    ensures !Replay(v, events, convert).isRunning
    decreases |events|
  {
    if events != [] {
      StoppedStaysStopped(Step(v, events[0], convert), events[1..], convert);
    }
  }

  /**
   * The list never shrinks, and every line except the most recent one is never
   * changed again: only the last line can be redrawn.
   */
  lemma {:induction false} EarlierLinesAreStable(v: View, events: seq<Event>, convert: string -> string)
    ensures |Replay(v, events, convert).lines| >= |v.lines|
    ensures forall k :: 0 <= k < |v.lines| - 1 ==> Replay(v, events, convert).lines[k] == v.lines[k]
    decreases |events|
  {
    if events != [] {
      var w := Step(v, events[0], convert);
      assert |w.lines| >= |v.lines|;
      assert forall k :: 0 <= k < |v.lines| - 1 ==> w.lines[k] == v.lines[k] by {
        if events[0].Delivered? && events[0].message.Output? {
          var text := events[0].message.data;
          if !StartsWith(text, "\r") {
            assert w.lines[..|v.lines|] == v.lines;
          } else if v.lines != [] {
            assert w.lines[..|w.lines| - 1] == v.lines[..|v.lines| - 1];
          }
        }
      }
      EarlierLinesAreStable(w, events[1..], convert);
    }
  }

  /** The viewer component, with the state its handlers update in place. */
  class Terminal {
    const convert: string -> string
    var lines: seq<string>
    var isRunning: bool

    function State(): View
      reads this
    {
      View(lines, isRunning)
    }

    constructor (convert: string -> string)
      ensures this.convert == convert
      ensures State() == Initial
    {
      this.convert := convert;
      lines := [];
      isRunning := true;
    }

    /** `eventSource.onmessage` for an already parsed message. */
    method HandleMessage(m: Message)
      modifies this
      ensures State() == OnMessage(old(State()), m, convert)
      ensures m.Exit? ==> lines == old(lines) + [convert(StatusText(m.code))] && !isRunning
      ensures m.Other? ==> lines == old(lines) && isRunning == old(isRunning)
      ensures m.Output? ==> isRunning == old(isRunning)
    {
      match m
      case Output(text) =>
        if StartsWith(text, "\r") {
          var html := convert(text[1..]);
          if |lines| == 0 {
            lines := [html];
          } else {
            var newLines := lines;
            newLines := newLines[|newLines| - 1 := html];
            lines := newLines;
          }
        } else {
          var parts := Split(text, '\n');
          var newHtmlLines := ConvertAll(convert, parts);
          lines := lines + newHtmlLines;
        }
      case Exit(code) =>
        isRunning := false;
        lines := lines + [convert(StatusText(code))];
      case Other(_) =>
    }

    /** `eventSource.onerror` */
    method HandleError()
      modifies this
      ensures State() == OnError(old(State()))
      ensures lines == old(lines) && !isRunning
    {
      isRunning := false;
    }
  }
}
