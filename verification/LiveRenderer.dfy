/** The live tap: agent events written to the terminal as they arrive, colour off. Deltas are streamed without line ends;
    everything else is written line by line. */
module LiveRenderer {
  import opened TextLines

  datatype Class = Assistant | AssistantDelta | Final | Reasoning | Init | Notice | ToolCall | ToolResult | Failure | Other

  datatype Display = Display(class_: Class, tool: string, text: string, lines: int, bytes: int, isError: bool)

  datatype AgentEvent = AgentEvent(live: bool, kind: string, display: Display, payload: string)

  /** What lies outside: sanitizing and redacting text, and the size part of a tool result's header. */
  datatype Env = Env(clean: string -> string, sizes: (int, int) -> string)

  const Thinking := "\U{00B7} thinking: "
  const LiveBanner := "\U{00B7} live agent\n"
  const ReasoningMaxLines := 3
  const TextLineBudget := 200
  const FallbackPreview := 120

  predicate IsDelta(ev: AgentEvent) {
    ev.display.class_ == AssistantDelta
  }

  function Truncate(s: string, n: nat): string {
    if |s| <= n then s else s[..n] + "\U{2026}"
  }

  function OneLine(s: string): string {
    Truncate(Split(s, '\n')[0], TextLineBudget)
  }

  predicate IsSpace(c: char) {
    c == ' ' || '\t' <= c <= '\r' || c == '\U{85}' || c == '\U{A0}' || c == '\U{1680}' || '\U{2000}' <= c <= '\U{200A}'
    || c == '\U{2028}' || c == '\U{2029}' || c == '\U{202F}' || c == '\U{205F}' || c == '\U{3000}'
  }

  predicate IsBlank(line: string) {
    forall i :: 0 <= i < |line| ==> IsSpace(line[i])
  }

  /** The lines that are not blank, in order. */
  function Thoughts(lines: seq<string>): seq<string> {
    if lines == [] then []
    else
      var last := lines[|lines| - 1];
      Thoughts(lines[..|lines| - 1]) + if IsBlank(last) then [] else [last]
  }

  /** The first `n` thoughts, one a line, the first behind the heading. */
  function ThoughtLines(thoughts: seq<string>, n: nat): string
    requires n <= |thoughts|
  {
    if n == 0 then ""
    else ThoughtLines(thoughts, n - 1) + (if n == 1 then Thinking else "  ") + Truncate(thoughts[n - 1], TextLineBudget) + "\n"
  }

  function ReasoningText(text: string): string {
    var thoughts := Thoughts(Split(TrimRight(text, '\n'), '\n'));
    ThoughtLines(thoughts, Shown(|thoughts|))
  }

  function Shown(thoughts: nat): nat {
    if thoughts <= ReasoningMaxLines then thoughts else ReasoningMaxLines
  }

  function BodyLines(lines: seq<string>): string {
    if lines == [] then ""
    else
      var last := lines[|lines| - 1];
      BodyLines(lines[..|lines| - 1]) + BodyLine(last)
  }

  function BodyLine(line: string): string {
    if line == "" then "" else "    " + Truncate(line, TextLineBudget) + "\n"
  }

  function ToolResultHeader(tool: string, d: Display, env: Env): string {
    (if d.isError then "\U{2717} " else "\U{2713} ") + tool + " \U{2014} " + env.sizes(d.lines, d.bytes) + "\n"
  }

  /** What one event shows. */
  function EventText(ev: AgentEvent, env: Env): string {
    var text, tool := env.clean(ev.display.text), env.clean(ev.display.tool);
    match ev.display.class_
    case Assistant | Final => if text == "" then "" else text + "\n"
    case Reasoning => ReasoningText(text)
    case Init | Notice => if text == "" then "" else "\U{00B7} " + OneLine(text) + "\n"
    case ToolCall => if tool == "" && text == "" then "" else "\U{2192} " + tool + "(" + OneLine(text) + ")" + "\n"
    case ToolResult => ToolResultHeader(tool, ev.display, env) + BodyLines(Split(text, '\n'))
    case AssistantDelta => text
    case Failure => "\U{2717} " + OneLine(text) + "\n"
    case Other =>
      var p := env.clean(ev.payload);
      if p == "" then "" else "[" + ev.kind + "] " + Truncate(p, FallbackPreview) + "\n"
  }

  // ----- the loops -----

  method FormatReasoning(text: string) returns (b: string)
    ensures b == ReasoningText(text)
  {
    b := "";
    var shown := 0;
    var lines := Split(TrimRight(text, '\n'), '\n');
    ghost var thoughts := Thoughts(lines);
    for i := 0 to |lines|
      invariant 0 <= shown <= ReasoningMaxLines && shown == |Thoughts(lines[..i])|
      invariant Thoughts(lines[..i]) <= thoughts
      invariant b == ThoughtLines(thoughts, shown)
    {
      var ln := lines[i];
      ThoughtsGrow(lines, i);
      if IsBlank(ln) {
        continue;
      }
      if shown >= ReasoningMaxLines {
        return;
      }
      var prefix := if shown == 0 then Thinking else "  ";
      b := b + (prefix + Truncate(ln, TextLineBudget) + "\n");
      shown := shown + 1;
      assert thoughts[shown - 1] == ln;
    }
    assert lines[..|lines|] == lines;
  }

  lemma ThoughtsGrow(lines: seq<string>, i: nat)
    requires i < |lines|
    ensures Thoughts(lines[..i + 1]) == Thoughts(lines[..i]) + if IsBlank(lines[i]) then [] else [lines[i]]
    ensures Thoughts(lines[..i + 1]) <= Thoughts(lines)
  {
    assert lines[..i + 1][..i] == lines[..i];
    ThoughtsPrefix(lines, i + 1);
  }

  lemma {:induction false} ThoughtsPrefix(lines: seq<string>, i: nat)
    requires i <= |lines|
    ensures Thoughts(lines[..i]) <= Thoughts(lines)
  {
    if i == |lines| {
      assert lines[..i] == lines;
    } else {
      var front := lines[..|lines| - 1];
      ThoughtsPrefix(front, i);
      assert front[..i] == lines[..i];
    }
  }

  method FormatToolResult(tool: string, text: string, d: Display, env: Env) returns (b: string)
    ensures b == ToolResultHeader(tool, d, env) + BodyLines(Split(text, '\n'))
  {
    hide ToolResultHeader, Split, BodyLines, Truncate;
    b := ToolResultHeader(tool, d, env);
    ghost var header := b;
    var lines := Split(text, '\n');
    NoBody();
    for i := 0 to |lines|
      invariant b == header + BodyLines(lines[..i])
    {
      var line := lines[i];
      BodyGrows(lines, i, header);
      if line == "" {
        assert b + "" == b;
        continue;
      }
      b := b + ("    " + Truncate(line, TextLineBudget) + "\n");
    }
    assert lines[..|lines|] == lines;
  }

  lemma NoBody()
    ensures BodyLines([]) == ""
  {
  }

  lemma BodyGrows(lines: seq<string>, i: nat, header: string)
    requires i < |lines|
    ensures header + BodyLines(lines[..i + 1]) == header + BodyLines(lines[..i]) + BodyLine(lines[i])
  {
    hide BodyLine;
    assert lines[..i + 1][..i] == lines[..i];
  }

  method FormatEvent(ev: AgentEvent, env: Env) returns (s: string)
    ensures s == EventText(ev, env)
  {
    var text, tool := env.clean(ev.display.text), env.clean(ev.display.tool);
    match ev.display.class_
    case Reasoning => s := FormatReasoning(text);
    case ToolResult => s := FormatToolResult(tool, text, ev.display, env);
    case _ => s := EventText(ev, env);
  }

  // ----- what the texts say, line by line -----

  /** A line cut to a budget, and marked if it was. */
  ghost predicate CutTo(line: string, budget: nat, shown: string) {
    (|line| <= budget && shown == line) || (|line| > budget && shown == line[..budget] + "\U{2026}")
  }

  /** The first line of a text, cut to 200 characters, whatever comes after it. */
  lemma OneLineIs(line: string, more: string)
    requires '\n' !in line
    ensures CutTo(line, 200, OneLine(line)) && OneLine(line + "\n" + more) == OneLine(line)
    ensures '\n' !in OneLine(line)
  {
    SplitUnbroken(line, '\n');
    FirstLine(line, more);
  }

  lemma {:induction false} FirstLine(line: string, more: string)
    requires '\n' !in line
    ensures Split(line + "\n" + more, '\n')[0] == line
    ensures |Split(line + "\n" + more, '\n')| >= 2
  {
    var text := line + "\n" + more;
    if more == "" {
      assert text[..|text| - 1] == line;
      SplitUnbroken(line, '\n');
    } else {
      FirstLine(line, more[..|more| - 1]);
      assert text[..|text| - 1] == line + "\n" + more[..|more| - 1];
    }
  }

  /** Answers and deltas are shown whole; an answer ends its line, a delta does not, and empty ones show nothing. */
  lemma AnswersAreShownWhole(ev: AgentEvent, env: Env)
    ensures var text := env.clean(ev.display.text);
      && (ev.display.class_ == AssistantDelta ==> EventText(ev, env) == text)
      && (ev.display.class_ in {Assistant, Final} && text != "" ==> EventText(ev, env) == text + "\n")
      && (ev.display.class_ in {Assistant, Final, Init, Notice} && text == "" ==> EventText(ev, env) == "")
  {
  }

  /** Notices, calls and errors are one line each: a mark, and the first line of the text cut to 200 characters. */
  lemma OneLinersShowFirstLine(ev: AgentEvent, env: Env, line: string, more: string)
    requires '\n' !in line && (env.clean(ev.display.text) == line || env.clean(ev.display.text) == line + "\n" + more)
    requires env.clean(ev.display.text) != ""
    ensures exists shown ::
      && CutTo(line, 200, shown)
      && (ev.display.class_ in {Init, Notice} ==> EventText(ev, env) == "\U{00B7} " + shown + "\n")
      && (ev.display.class_ == ToolCall ==> EventText(ev, env) == "\U{2192} " + env.clean(ev.display.tool) + "(" + shown + ")" + "\n")
      && (ev.display.class_ == Failure ==> EventText(ev, env) == "\U{2717} " + shown + "\n")
  {
    OneLineIs(line, more);
    hide OneLine;
    assert CutTo(line, 200, OneLine(line));
  }

  /** Anything else shows its kind and the first 120 characters of its payload. */
  lemma OthersShowPayload(ev: AgentEvent, env: Env)
    requires ev.display.class_ == Other
    ensures env.clean(ev.payload) == "" ==> EventText(ev, env) == ""
    ensures env.clean(ev.payload) != "" ==>
      exists shown :: CutTo(env.clean(ev.payload), 120, shown) && EventText(ev, env) == "[" + ev.kind + "] " + shown + "\n"
  {
    var p := env.clean(ev.payload);
    assert CutTo(p, 120, Truncate(p, 120));
  }

  /** Which lines are thoughts is decided line by line: those with something other than white space in them. */
  lemma {:induction false} ThoughtsLineByLine(a: seq<string>, b: seq<string>, line: string)
    ensures Thoughts(a + b) == Thoughts(a) + Thoughts(b)
    ensures Thoughts([line]) == if exists i :: 0 <= i < |line| && !IsSpace(line[i]) then [line] else []
  {
    assert [line][..0] == [];
    if b == [] {
      assert a + b == a;
    } else {
      var front, last := b[..|b| - 1], b[|b| - 1];
      ThoughtsLineByLine(a, front, line);
      assert (a + b)[..|a + b| - 1] == a + front;
      var tail := if IsBlank(last) then [] else [last];
      assert Thoughts(a) + Thoughts(front) + tail == Thoughts(a) + (Thoughts(front) + tail);
    }
  }

  /** In ASCII, white space is the space and the five control characters from tab to carriage return. */
  lemma AsciiSpaces(c: char)
    requires c < '\U{80}'
    ensures IsSpace(c) <==> c in {' ', '\t', '\n', '\U{0B}', '\U{0C}', '\r'}
  {
  }

  /** A text ends its line, and read line by line it is exactly these lines. */
  ghost predicate ReadsAs(text: string, lines: seq<string>) {
    Split(text, '\n') == lines + [""]
  }

  /** Reasoning reads as its first three thoughts, each cut to 200 characters, the first behind the heading and the others
      indented. */
  lemma ReasoningReadsAs(text: string)
    ensures var thoughts := Thoughts(Split(TrimRight(text, '\n'), '\n'));
      exists lines :: ReadsAs(ReasoningText(text), lines) && ThoughtsShown(thoughts, lines)
        && |lines| == if |thoughts| <= 3 then |thoughts| else 3
  {
    var all := Split(TrimRight(text, '\n'), '\n');
    var thoughts := Thoughts(all);
    SplitIsUnbroken(TrimRight(text, '\n'), '\n');
    ThoughtsUnbroken(all);
    var lines := ThoughtLinesAre(thoughts, Shown(|thoughts|));
    assert ReadsAs(ReasoningText(text), lines);
  }

  ghost predicate ThoughtsShown(thoughts: seq<string>, lines: seq<string>) {
    |lines| <= |thoughts| && forall k :: 0 <= k < |lines| ==> ThoughtShown(thoughts[k], k, lines[k])
  }

  ghost predicate ThoughtShown(thought: string, k: nat, line: string) {
    exists shown :: CutTo(thought, 200, shown) && line == (if k == 0 then "\U{00B7} thinking: " else "  ") + shown
  }

  lemma {:induction false} ThoughtsUnbroken(lines: seq<string>)
    requires Unbroken(lines, '\n')
    ensures Unbroken(Thoughts(lines), '\n')
  {
    if lines != [] {
      ThoughtsUnbroken(lines[..|lines| - 1]);
    }
  }

  lemma {:induction false} ThoughtLinesAre(thoughts: seq<string>, n: nat) returns (lines: seq<string>)
    requires n <= |thoughts| && Unbroken(thoughts, '\n')
    ensures |lines| == n && ReadsAs(ThoughtLines(thoughts, n), lines) && ThoughtsShown(thoughts, lines)
  {
    if n == 0 {
      lines := [];
      assert Split<char>([], '\n') == [[]];
    } else {
      hide ThoughtShown, ThoughtsShown, ReadsAs, Truncate;
      var before := ThoughtLinesAre(thoughts, n - 1);
      var line := ThoughtLineIs(thoughts[n - 1], n - 1);
      lines := before + [line];
      LineAdds(ThoughtLines(thoughts, n - 1), before, line);
      Group(ThoughtLines(thoughts, n - 1), if n == 1 then Thinking else "  ", Truncate(thoughts[n - 1], TextLineBudget));
      OneMoreShown(thoughts, before, line);
    }
  }

  lemma Group(a: string, b: string, c: string)
    ensures a + b + c + "\n" == a + (b + c) + "\n"
  {
  }

  lemma OneMoreShown(thoughts: seq<string>, lines: seq<string>, line: string)
    requires ThoughtsShown(thoughts, lines) && |lines| < |thoughts| && ThoughtShown(thoughts[|lines|], |lines|, line)
    ensures ThoughtsShown(thoughts, lines + [line])
  {
    hide ThoughtShown;
  }

  lemma ThoughtLineIs(thought: string, k: nat) returns (line: string)
    requires '\n' !in thought
    ensures line == (if k == 0 then Thinking else "  ") + Truncate(thought, TextLineBudget)
    ensures ThoughtShown(thought, k, line) && '\n' !in line
  {
    var shown := Truncate(thought, TextLineBudget);
    assert CutTo(thought, 200, shown);
    line := (if k == 0 then Thinking else "  ") + shown;
  }

  /** One more line. */
  lemma LineAdds(text: string, lines: seq<string>, line: string)
    requires ReadsAs(text, lines) && '\n' !in line
    ensures ReadsAs(text + line + "\n", lines + [line])
  {
    TextAdds(text, lines, "", line);
    var longer := text + line + "\n";
    assert longer[..|longer| - 1] == text + line;
    assert "" + line == line;
  }

  lemma {:induction false} TextAdds(text: string, lines: seq<string>, last: string, more: string)
    requires Split(text, '\n') == lines + [last] && '\n' !in more
    ensures Split(text + more, '\n') == lines + [last + more]
  {
    hide Split;
    if more == [] {
      assert text + more == text && last + more == last;
    } else {
      var front, c := more[..|more| - 1], more[|more| - 1];
      TextAdds(text, lines, last, front);
      assert c in more;
      SplitGrows(text + front, lines, last + front, c, '\n');
      assert text + front + [c] == text + more;
      assert last + front + [c] == last + more;
    }
  }

  /** A tool result shows each line of its body on its own: indented and cut to 200 characters, empty lines left out. */
  lemma BodyLineByLine(a: seq<string>, b: seq<string>, line: string)
    ensures BodyLines(a + b) == BodyLines(a) + BodyLines(b)
    ensures BodyLines([""]) == ""
    ensures line != "" ==> exists shown :: CutTo(line, 200, shown) && BodyLines([line]) == "    " + shown + "\n"
  {
    BodyConcat(a, b);
    BodyOfOne(line);
    BodyOfOne("");
    hide BodyLines, CutTo;
  }

  lemma {:induction false} BodyConcat(a: seq<string>, b: seq<string>)
    ensures BodyLines(a + b) == BodyLines(a) + BodyLines(b)
  {
    hide BodyLine;
    if b == [] {
      assert a + b == a;
    } else {
      var front, last := b[..|b| - 1], b[|b| - 1];
      BodyConcat(a, front);
      assert (a + b)[..|a + b| - 1] == a + front;
      assert BodyLines(a) + BodyLines(front) + BodyLine(last) == BodyLines(a) + (BodyLines(front) + BodyLine(last));
    }
  }

  lemma BodyOfOne(line: string)
    ensures line == "" ==> BodyLines([line]) == ""
    ensures line != "" ==> exists shown :: CutTo(line, 200, shown) && BodyLines([line]) == "    " + shown + "\n"
  {
    var lines := [line];
    assert lines[..0] == [] && lines[|lines| - 1] == line;
    if line != "" {
      var shown := Truncate(line, TextLineBudget);
      assert CutTo(line, 200, shown);
      assert BodyLines(lines) == "" + ("    " + shown + "\n");
      assert BodyLines([line]) == "    " + shown + "\n";
    }
  }

  /** The header of a tool result tells success from failure and names the tool; the body follows it. */
  lemma ToolResultShows(ev: AgentEvent, env: Env)
    requires ev.display.class_ == ToolResult
    ensures var mark := if ev.display.isError then "\U{2717} " else "\U{2713} ";
      EventText(ev, env) == mark + env.clean(ev.display.tool) + " \U{2014} " + env.sizes(ev.display.lines, ev.display.bytes) + "\n"
        + BodyLines(Split(env.clean(ev.display.text), '\n'))
  {
  }

  // ----- the stream -----

  predicate EndsLine(s: string) {
    s == "" || s[|s| - 1] == '\n'
  }

  /** Event `i` is the first live one. */
  predicate FirstLive(events: seq<AgentEvent>, i: nat)
    requires i < |events|
  {
    events[i].live && forall j :: 0 <= j < i ==> !events[j].live
  }

  /** The line end that closes a delta stream before event `i`. */
  function Break(events: seq<AgentEvent>, i: nat): string
    requires i < |events|
  {
    if i > 0 && IsDelta(events[i - 1]) && (!IsDelta(events[i]) || FirstLive(events, i)) then "\n" else ""
  }

  function Banner(events: seq<AgentEvent>, i: nat): string
    requires i < |events|
  {
    if FirstLive(events, i) then LiveBanner else ""
  }

  /** All that is written for the first `n` events. */
  function Transcript(events: seq<AgentEvent>, n: nat, env: Env): string
    requires n <= |events|
  {
    if n == 0 then ""
    else Transcript(events, n - 1, env) + Break(events, n - 1) + Banner(events, n - 1) + EventText(events[n - 1], env)
  }

  class Renderer {
    var inDelta: bool
    var liveSeen: bool
    var out: string
    ghost var events: seq<AgentEvent>

    ghost predicate Valid(env: Env)
      reads this
    {
      && out == Transcript(events, |events|, env)
      && (inDelta <==> events != [] && IsDelta(events[|events| - 1]))
      && (liveSeen <==> AnyLive(events))
    }

    constructor (env: Env)
      ensures Valid(env) && events == [] && out == ""
    {
      inDelta, liveSeen, out, events := false, false, "", [];
    }

    /** The closure: one event in, its text out, with the two flags kept. */
    method Emit(ev: AgentEvent, env: Env)
      requires Valid(env)
      modifies this
      ensures Valid(env) && events == old(events) + [ev]
    {
      hide EventText, Transcript, Break, Banner, FirstLive;
      ghost var n := |events|;
      ghost var all := events + [ev];
      TranscriptIgnoresLater(events, [ev], n, env);
      TranscriptStep(all, n, env);
      LeadOfNext(events, ev);
      ghost var gap, banner := Break(all, n), Banner(all, n);
      var isDelta := IsDelta(ev);
      if inDelta && (!isDelta || (ev.live && !liveSeen)) {
        out := out + "\n";
        inDelta := false;
      }
      assert out == old(out) + gap;
      if ev.live && !liveSeen {
        out := out + LiveBanner;
        liveSeen := true;
      }
      assert out == old(out) + gap + banner;
      inDelta := isDelta;
      var text := FormatEvent(ev, env);
      out := out + text;
      events := events + [ev];
    }
  }

  ghost predicate AnyLive(events: seq<AgentEvent>) {
    exists i :: 0 <= i < |events| && events[i].live
  }

  /** What comes before the next event's text, told from the two flags. */
  lemma LeadOfNext(events: seq<AgentEvent>, ev: AgentEvent)
    ensures var n, all := |events|, events + [ev];
      var first := ev.live && !AnyLive(events);
      && Break(all, n) == (if n > 0 && IsDelta(events[n - 1]) && (!IsDelta(ev) || first) then "\n" else "")
      && Banner(all, n) == (if first then LiveBanner else "")
      && (AnyLive(all) <==> AnyLive(events) || ev.live)
  {
    var n, all := |events|, events + [ev];
    assert all[n] == ev;
    assert forall j :: 0 <= j < n ==> all[j] == events[j];
  }

  lemma {:induction false} TranscriptIgnoresLater(events: seq<AgentEvent>, more: seq<AgentEvent>, n: nat, env: Env)
    requires n <= |events|
    ensures Transcript(events + more, n, env) == Transcript(events, n, env)
  {
    if n > 0 {
      TranscriptIgnoresLater(events, more, n - 1, env);
      var all := events + more;
      assert forall j :: 0 <= j < n ==> all[j] == events[j];
      assert FirstLive(all, n - 1) <==> FirstLive(events, n - 1);
    }
  }

  lemma TranscriptStep(events: seq<AgentEvent>, i: nat, env: Env)
    requires i < |events|
    ensures Transcript(events, i + 1, env) ==
      Transcript(events, i, env) + Break(events, i) + Banner(events, i) + EventText(events[i], env)
  {
  }

  /** Text of anything but a delta is nothing, or ends its line. */
  lemma WholeLines(ev: AgentEvent, env: Env)
    requires !IsDelta(ev)
    ensures EndsLine(EventText(ev, env))
  {
    hide ReasoningText, OneLine, Truncate, BodyLines;
    var text := env.clean(ev.display.text);
    ReasoningEndsLine(text);
    BodyEndsLine(Split(text, '\n'));
  }

  lemma ReasoningEndsLine(text: string)
    ensures EndsLine(ReasoningText(text))
  {
  }

  lemma {:induction false} BodyEndsLine(lines: seq<string>)
    ensures EndsLine(BodyLines(lines))
  {
    if lines != [] {
      BodyEndsLine(lines[..|lines| - 1]);
    }
  }

  /** After anything but a delta the output is at the start of a line. */
  lemma {:induction false} LineStartAfter(events: seq<AgentEvent>, n: nat, env: Env)
    requires n <= |events| && (n > 0 ==> !IsDelta(events[n - 1]))
    ensures EndsLine(Transcript(events, n, env))
    decreases n, 0
  {
    hide EventText, Break, Banner;
    if n > 0 {
      LineStart(events, n - 1, env);
      WholeLines(events[n - 1], env);
      TranscriptStep(events, n - 1, env);
      EndsAfter(Transcript(events, n - 1, env) + Break(events, n - 1) + Banner(events, n - 1), EventText(events[n - 1], env));
    }
  }

  lemma EndsAfter(a: string, b: string)
    requires EndsLine(a) && EndsLine(b)
    ensures EndsLine(a + b)
  {
  }

  /** When a non-delta event or the live banner begins, the output so far is empty or ends in a newline. */
  lemma {:induction false} LineStart(events: seq<AgentEvent>, i: nat, env: Env)
    requires i < |events|
    ensures FirstLive(events, i) ==> EndsLine(Transcript(events, i, env) + Break(events, i))
    ensures !IsDelta(events[i]) ==> EndsLine(Transcript(events, i, env) + Break(events, i) + Banner(events, i))
    decreases i, 1
  {
    hide Transcript;
    if i == 0 || !IsDelta(events[i - 1]) {
      LineStartAfter(events, i, env);
      assert Transcript(events, i, env) + "" == Transcript(events, i, env);
    }
    EndsAfter("\n", LiveBanner);
  }

  /** The banner is written for exactly one event if there is a live one, and else for none. */
  lemma OneBanner(events: seq<AgentEvent>)
    ensures AnyLive(events) <==> exists i :: 0 <= i < |events| && Banner(events, i) == LiveBanner
    ensures forall i, j :: 0 <= i < |events| && 0 <= j < |events| && Banner(events, i) == LiveBanner == Banner(events, j) ==> i == j
    ensures forall i :: 0 <= i < |events| ==> Banner(events, i) == LiveBanner || Banner(events, i) == ""
  {
    assert LiveBanner != "";
    if i :| 0 <= i < |events| && events[i].live {
      var k := LeastLive(events, i);
      assert Banner(events, k) == LiveBanner;
    }
  }

  lemma {:induction false} LeastLive(events: seq<AgentEvent>, i: nat) returns (k: nat)
    requires i < |events| && events[i].live
    ensures k < |events| && FirstLive(events, k)
  {
    if j :| 0 <= j < i && events[j].live {
      k := LeastLive(events, j);
    } else {
      k := i;
    }
  }

  function Texts(events: seq<AgentEvent>, i: nat, n: nat, env: Env): string
    requires i <= n <= |events|
    decreases n
  {
    if i == n then "" else Texts(events, i, n - 1, env) + EventText(events[n - 1], env)
  }

  lemma Regroup(a: string, b: string, c: string)
    ensures a + b + "" + "" + c == a + (b + c)
  {
  }

  /** A run of deltas, the first live event not among those that continue it, comes out as their texts and nothing between. */
  lemma {:induction false} DeltasUnbroken(events: seq<AgentEvent>, i: nat, n: nat, env: Env)
    requires 0 < i <= n <= |events| && IsDelta(events[i - 1])
    requires forall k :: i <= k < n ==> IsDelta(events[k]) && !FirstLive(events, k)
    ensures Transcript(events, n, env) == Transcript(events, i, env) + Texts(events, i, n, env)
  {
    hide EventText, Transcript;
    if i < n {
      DeltasUnbroken(events, i, n - 1, env);
      TranscriptStep(events, n - 1, env);
      assert IsDelta(events[n - 1]) && !FirstLive(events, n - 1);
      assert Break(events, n - 1) == "" && Banner(events, n - 1) == "";
      Regroup(Transcript(events, i, env), Texts(events, i, n - 1, env), EventText(events[n - 1], env));
    }
  }

  /** Where a delta stream ends in an event of another kind that is not the first live one, exactly a line end is added. */
  lemma OthersEndDeltas(events: seq<AgentEvent>, i: nat, env: Env)
    requires 0 < i < |events| && IsDelta(events[i - 1]) && !IsDelta(events[i]) && !FirstLive(events, i)
    ensures Transcript(events, i + 1, env) == Transcript(events, i, env) + "\n" + EventText(events[i], env)
  {
  }

  /** After anything but a delta nothing comes between, except the banner before the first live event. */
  lemma WholeLinesAbut(events: seq<AgentEvent>, i: nat, env: Env)
    requires i < |events| && (i == 0 || !IsDelta(events[i - 1]))
    ensures !FirstLive(events, i) ==> Transcript(events, i + 1, env) == Transcript(events, i, env) + EventText(events[i], env)
    ensures FirstLive(events, i) ==>
      Transcript(events, i + 1, env) == Transcript(events, i, env) + "\U{00B7} live agent\n" + EventText(events[i], env)
  {
    hide EventText;
    assert Transcript(events, i, env) + "" == Transcript(events, i, env);
  }

  /** At the first live event the run is broken by exactly a line end and the banner. */
  lemma LiveBreaksDeltas(events: seq<AgentEvent>, i: nat, env: Env)
    requires 0 < i < |events| && IsDelta(events[i - 1]) && FirstLive(events, i)
    ensures Transcript(events, i + 1, env) == Transcript(events, i, env) + "\n" + "\U{00B7} live agent\n" + EventText(events[i], env)
  {
  }
}
