/** The editors, their hook events, and the command string we install: printer and parser. */
module HookCommand {
  import opened Wrappers
  import opened Text

  datatype Editor = ClaudeCode | Codex | Cursor

  datatype Event = SessionStart | Stop | PreCompact | SessionEnd

  function EditorName(editor: Editor): string {
    match editor
    case ClaudeCode => "claude-code"
    case Codex => "codex"
    case Cursor => "cursor"
  }

  function EventName(event: Event): string {
    match event
    case SessionStart => "session-start"
    case Stop => "stop"
    case PreCompact => "pre-compact"
    case SessionEnd => "session-end"
  }

  function ParseEditor(s: string): Option<Editor> {
    if s == "claude-code" then Some(ClaudeCode)
    else if s == "codex" then Some(Codex)
    else if s == "cursor" then Some(Cursor)
    else None
  }

  function ParseEvent(s: string): Option<Event> {
    if s == "session-start" then Some(SessionStart)
    else if s == "stop" then Some(Stop)
    else if s == "pre-compact" then Some(PreCompact)
    else if s == "session-end" then Some(SessionEnd)
    else None
  }

  /******* The command string *******/

  /** `hook <editor> <event>`. */
  function Invocation(editor: Editor, event: Event): string {
    "hook " + EditorName(editor) + " " + EventName(event)
  }

  function Command(editor: Editor, event: Event, bin: string): string {
    "\"" + bin + "\" " + Invocation(editor, event)
  }

  function FindQuote(s: string): (i: Option<nat>)
    ensures i.Some? ==> i.value < |s| && s[i.value] == '"' && '"' !in s[..i.value]
    ensures i.None? ==> '"' !in s
  {
    if s == "" then None
    else if s[0] == '"' then Some(0)
    else
      match FindQuote(s[1..])
      case None => None
      case Some(i) =>
        assert s[..i + 1] == [s[0]] + s[1..][..i];
        Some(i + 1)
  }

  datatype Ours = Ours(bin: string, editor: Editor, event: Event)

  /** The part of a command after the quoted path, already trimmed. */
  function ParseTail(tail: string): Option<(Editor, Event)> {
    var parts := Split(tail, ' ');
    if parts[0] != "hook" || |parts| != 3 then None
    else
      match (ParseEditor(parts[1]), ParseEvent(parts[2]))
      case (Some(editor), Some(event)) => if tail != Invocation(editor, event) then None else Some((editor, event))
      case _ => None
  }

  /** `parse_ours`. */
  function ParseOurs(command: string): Option<Ours> {
    if command == "" || command[0] != '"' then None
    else
      var rest := command[1..];
      match FindQuote(rest)
      case None => None
      case Some(end) =>
        match ParseTail(Trim(rest[end + 1..]))
        case None => None
        case Some((editor, event)) => Some(Ours(rest[..end], editor, event))
  }

  predicate IsOurs(command: string) {
    ParseOurs(command).Some?
  }

  lemma {:induction false} NamesHaveNoSpace(editor: Editor, event: Event)
    ensures ' ' !in EditorName(editor) && ' ' !in EventName(event) && ' ' !in "hook"
    ensures ParseEditor(EditorName(editor)) == Some(editor) && ParseEvent(EventName(event)) == Some(event)
  {
    assert "claude-code"[1] == 'l' && "codex"[1] == 'o' && "cursor"[1] == 'u';
    assert |"session-start"| == 13 && |"stop"| == 4 && |"pre-compact"| == 11 && |"session-end"| == 11;
    assert "pre-compact"[0] == 'p' && "session-end"[0] == 's';
  }

  lemma {:induction false} ThreeParts(a: string, b: string, c: string)
    requires ' ' !in a && ' ' !in b && ' ' !in c
    ensures Split(a + " " + b + " " + c, ' ') == [a, b, c]
  {
    SplitFirst(c, "", ' ');
    SplitFirst(b, c, ' ');
    SplitFirst(a, b + " " + c, ' ');
    assert a + " " + b + " " + c == a + " " + (b + " " + c);
  }

  lemma {:induction false} NameEdges(editor: Editor, event: Event)
    ensures '"' !in EditorName(editor) && '"' !in EventName(event)
    ensures EventName(event) != "" && !IsWhitespace(EventName(event)[|EventName(event)| - 1])
  {
  }

  lemma {:induction false} InvocationParts(editor: Editor, event: Event)
    ensures Split(Invocation(editor, event), ' ') == ["hook", EditorName(editor), EventName(event)]
    ensures Trimmed(Invocation(editor, event)) && '"' !in Invocation(editor, event)
  {
    NamesHaveNoSpace(editor, event);
    NameEdges(editor, event);
    InvocationOf(EditorName(editor), EventName(event));
  }

  lemma {:induction false} InvocationOf(editor: string, event: string)
    requires ' ' !in editor && ' ' !in event && '"' !in editor && '"' !in event
    requires event != "" && !IsWhitespace(event[|event| - 1])
    ensures var whole := "hook " + editor + " " + event;
            Split(whole, ' ') == ["hook", editor, event] && Trimmed(whole) && '"' !in whole
  {
    var whole := "hook " + editor + " " + event;
    ThreeParts("hook", editor, event);
    assert whole == "hook" + " " + editor + " " + event;
    assert whole[0] == 'h' && whole[|whole| - 1] == event[|event| - 1];
  }

  lemma {:induction false} ParseTailMeaning(tail: string, editor: Editor, event: Event)
    ensures ParseTail(tail) == Some((editor, event)) <==> tail == Invocation(editor, event)
  {
    InvocationParts(editor, event);
    NamesHaveNoSpace(editor, event);
  }

  lemma {:induction false} FindQuoteAt(bin: string, after: string)
    requires '"' !in bin
    ensures FindQuote(bin + "\"" + after) == Some(|bin|)
  {
    var s := bin + "\"" + after;
    if bin != "" {
      assert bin[0] in bin;
      assert forall c :: c in bin[1..] ==> c in bin;
      FindQuoteAt(bin[1..], after);
      assert s[1..] == bin[1..] + "\"" + after;
    }
  }

  /** `command` is the quoted path, white space, the invocation, white space. */
  predicate Written(command: string, bin: string, before: string, invocation: string, after: string) {
    && AllWhitespace(before) && AllWhitespace(after)
    && command == "\"" + bin + "\"" + (before + invocation + after)
  }

  ghost predicate IsWritten(command: string, bin: string, invocation: string) {
    exists before, after :: Written(command, bin, before, invocation, after)
  }

  lemma {:induction false} QuotedParts(bin: string, rest: string)
    requires '"' !in bin
    ensures var command := "\"" + bin + "\"" + rest;
            && command != "" && command[0] == '"' && FindQuote(command[1..]) == Some(|bin|)
            && command[1..][..|bin|] == bin && command[1..][|bin| + 1..] == rest
  {
    var command := "\"" + bin + "\"" + rest;
    FindQuoteAt(bin, rest);
    assert command[1..] == bin + "\"" + rest;
  }

  lemma {:induction false} WrittenIsParsed(command: string, ours: Ours, before: string, after: string)
    requires '"' !in ours.bin && Written(command, ours.bin, before, Invocation(ours.editor, ours.event), after)
    ensures ParseOurs(command) == Some(ours)
  {
    var invocation := Invocation(ours.editor, ours.event);
    InvocationParts(ours.editor, ours.event);
    QuotedParts(ours.bin, before + invocation + after);
    TrimUnique(before, invocation, after);
    ParseTailMeaning(invocation, ours.editor, ours.event);
  }

  lemma {:induction false} QuotedShape(command: string, end: nat)
    requires command != "" && command[0] == '"' && end < |command[1..]| && command[1..][end] == '"'
    ensures command == "\"" + command[1..][..end] + "\"" + command[1..][end + 1..]
  {
  }

  lemma {:induction false} ParsedIsWritten(command: string, ours: Ours) returns (before: string, after: string)
    requires ParseOurs(command) == Some(ours)
    ensures '"' !in ours.bin && Written(command, ours.bin, before, Invocation(ours.editor, ours.event), after)
  {
    var rest := command[1..];
    var end := FindQuote(rest).value;
    var tail := rest[end + 1..];
    before, after := TrimMeaning(tail);
    ParseTailMeaning(Trim(tail), ours.editor, ours.event);
    QuotedShape(command, end);
  }

  /**
   A command is recognised exactly when it is our quoted form, up to white space around the
   invocation, and what is read off is what was written.
   */
  lemma {:induction false} ParseOursMeaning(command: string, ours: Ours)
    ensures ParseOurs(command) == Some(ours) <==>
              '"' !in ours.bin && IsWritten(command, ours.bin, Invocation(ours.editor, ours.event))
  {
    var invocation := Invocation(ours.editor, ours.event);
    if ParseOurs(command) == Some(ours) {
      var before, after := ParsedIsWritten(command, ours);
    }
    if '"' !in ours.bin && IsWritten(command, ours.bin, invocation) {
      var before, after :| Written(command, ours.bin, before, invocation, after);
      WrittenIsParsed(command, ours, before, after);
    }
  }

  /** The last double quote splits a string in one way. */
  lemma {:induction false} LastQuote(a: string, b: string, c: string, d: string)
    requires '"' !in b && '"' !in d && a + "\"" + b == c + "\"" + d
    ensures a == c
  {
    var s := a + "\"" + b;
    assert s[|a|] == '"' && s[|c|] == '"';
    assert forall k :: |a| < k < |s| ==> s[k] == b[k - |a| - 1];
    assert forall k :: |c| < k < |s| ==> s[k] == d[k - |c| - 1];
    assert s[..|a|] == a && s[..|c|] == c;
  }

  /** Two quoted forms of one command, with nothing quoted after the path, have the same path. */
  lemma {:induction false} SameBin(bin: string, rest: string, other: string, otherRest: string)
    requires '"' !in rest && '"' !in otherRest
    requires "\"" + bin + "\"" + rest == "\"" + other + "\"" + otherRest
    ensures bin == other
  {
    LastQuote("\"" + bin, rest, "\"" + other, otherRest);
    assert bin == ("\"" + bin)[1..] && other == ("\"" + other)[1..];
  }

  lemma {:induction false} CommandIsWritten(editor: Editor, event: Event, bin: string)
    ensures Written(Command(editor, event, bin), bin, " ", Invocation(editor, event), "")
  {
    var invocation := Invocation(editor, event);
    CommandShape(bin, invocation);
  }

  lemma {:induction false} CommandShape(bin: string, invocation: string)
    ensures "\"" + bin + "\" " + invocation == "\"" + bin + "\"" + (" " + invocation + "")
  {
  }

  lemma {:induction false} AffixesHaveNoQuote(before: string, middle: string, after: string)
    requires AllWhitespace(before) && AllWhitespace(after) && '"' !in middle
    ensures '"' !in before + middle + after
  {
  }

  lemma {:induction false} RecognisedBin(editor: Editor, event: Event, bin: string, ours: Ours)
    requires ParseOurs(Command(editor, event, bin)) == Some(ours)
    ensures ours.bin == bin && '"' !in bin
  {
    var theirs := Invocation(ours.editor, ours.event);
    CommandIsWritten(editor, event, bin);
    var before, after := ParsedIsWritten(Command(editor, event, bin), ours);
    InvocationParts(ours.editor, ours.event);
    InvocationParts(editor, event);
    AffixesHaveNoQuote(" ", Invocation(editor, event), "");
    AffixesHaveNoQuote(before, theirs, after);
    SameBin(bin, " " + Invocation(editor, event) + "", ours.bin, before + theirs + after);
  }

  /** We recognise the command we write, with its binary path, exactly when the path has no double quote. */
  lemma {:induction false} CommandRoundTrip(editor: Editor, event: Event, bin: string)
    ensures IsOurs(Command(editor, event, bin)) <==> '"' !in bin
    ensures '"' !in bin ==> ParseOurs(Command(editor, event, bin)) == Some(Ours(bin, editor, event))
  {
    CommandIsWritten(editor, event, bin);
    if '"' !in bin {
      WrittenIsParsed(Command(editor, event, bin), Ours(bin, editor, event), " ", "");
    }
    if IsOurs(Command(editor, event, bin)) {
      RecognisedBin(editor, event, bin, ParseOurs(Command(editor, event, bin)).value);
    }
  }
}
