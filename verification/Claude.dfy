/** The Claude adapter: blocks as XML text from which source, tags and content can be read back. */
module Claude {
  import opened Wrappers
  import opened Items
  import opened Text

  /******* Escaping *******/

  /** `escape_xml`: three replacements, one after another. */
  function EscapeXml(s: string): string {
    Replace(Replace(Replace(s, '&', "&amp;"), '<', "&lt;"), '>', "&gt;")
  }

  function EscapeChar(c: char): string {
    if c == '&' then "&amp;" else if c == '<' then "&lt;" else if c == '>' then "&gt;" else [c]
  }

  /** Each character on its own, in one pass. */
  function EscapeEach(s: string): string {
    if s == "" then "" else EscapeChar(s[0]) + EscapeEach(s[1..])
  }

  function Unescape(s: string): string
    decreases |s|
  {
    if s == "" then ""
    else if "&amp;" <= s then "&" + Unescape(s[5..])
    else if "&lt;" <= s then "<" + Unescape(s[4..])
    else if "&gt;" <= s then ">" + Unescape(s[4..])
    else [s[0]] + Unescape(s[1..])
  }

  lemma {:induction false} ReplaceOne(c: char, x: char, with: string)
    ensures Replace([c], x, with) == if c == x then with else [c]
  {
    assert [c][1..] == "";
    assert Replace([c], x, with) == (if c == x then with else [c]) + Replace([c][1..], x, with);
  }

  lemma {:induction false} EscapeOfOne(c: char)
    ensures EscapeXml([c]) == EscapeChar(c)
  {
    ReplaceOne(c, '&', "&amp;");
    ReplaceOne(c, '<', "&lt;");
    ReplaceOne(c, '>', "&gt;");
    if c == '&' {
      ReplaceAbsent("&amp;", '<', "&lt;");
      ReplaceAbsent("&amp;", '>', "&gt;");
    } else if c == '<' {
      ReplaceAbsent("&lt;", '>', "&gt;");
    }
  }

  lemma {:induction false} EscapeAppend(a: string, b: string)
    ensures EscapeXml(a + b) == EscapeXml(a) + EscapeXml(b)
  {
    ReplaceAppend(a, b, '&', "&amp;");
    ReplaceAppend(Replace(a, '&', "&amp;"), Replace(b, '&', "&amp;"), '<', "&lt;");
    var (first, second) := (Replace(a, '&', "&amp;"), Replace(b, '&', "&amp;"));
    ReplaceAppend(Replace(first, '<', "&lt;"), Replace(second, '<', "&lt;"), '>', "&gt;");
  }

  /** The three replacements never touch each other's output: together they are the one-pass escape. */
  lemma {:induction false} EscapeIsOnePass(s: string)
    ensures EscapeXml(s) == EscapeEach(s)
  {
    if s != "" {
      assert s == [s[0]] + s[1..];
      EscapeAppend([s[0]], s[1..]);
      EscapeOfOne(s[0]);
      EscapeIsOnePass(s[1..]);
    }
  }

  lemma {:induction false} UnescapeStep(c: char, rest: string)
    ensures Unescape(EscapeChar(c) + rest) == [c] + Unescape(rest)
  {
    var s := EscapeChar(c) + rest;
    if c == '&' {
      assert "&amp;" <= s && s[5..] == rest;
    } else if c == '<' {
      assert s[1] == 'l' && "&amp;"[1] == 'a' && "&lt;" <= s && s[4..] == rest;
    } else if c == '>' {
      assert s[1] == 'g' && "&amp;"[1] == 'a' && "&lt;"[1] == 'l' && "&gt;" <= s && s[4..] == rest;
    } else {
      assert s[0] == c && "&amp;"[0] == '&' && "&lt;"[0] == '&' && "&gt;"[0] == '&' && s[1..] == rest;
    }
  }

  /** Escaping can be undone, and what it produces holds no angle bracket. */
  lemma {:induction false} UnescapeUndoesEscape(s: string)
    ensures Unescape(EscapeXml(s)) == s
    ensures '<' !in EscapeXml(s) && '>' !in EscapeXml(s)
  {
    EscapeIsOnePass(s);
    if s != "" {
      UnescapeUndoesEscape(s[1..]);
      EscapeIsOnePass(s[1..]);
      UnescapeStep(s[0], EscapeEach(s[1..]));
      assert s == [s[0]] + s[1..];
    }
  }

  /******* Formatting *******/

  function SourceLine(block: Row): string {
    match block.source
    case None => ""
    case Some(source) => "<source>" + EscapeXml(source) + "</source>\n"
  }

  function TagsLine(block: Row): string {
    if block.tags == [] then "" else "<tags>" + EscapeXml(Join(block.tags, ", ")) + "</tags>\n"
  }

  function Document(block: Row, index: nat): string {
    "<document index=\"" + Decimal(index) + "\">\n" + SourceLine(block) + TagsLine(block)
    + "<document_content>\n" + (EscapeXml(block.content) + "\n") + "</document_content>\n" + "</document>\n"
  }

  /** The documents from the `i`-th block on, counted from 1. */
  function DocumentsFrom(blocks: seq<Row>, i: nat): string
    requires i <= |blocks|
    decreases |blocks| - i
  {
    if i == |blocks| then "" else Document(blocks[i], i + 1) + DocumentsFrom(blocks, i + 1)
  }

  function Formatted(blocks: seq<Row>): string {
    if blocks == [] then "<documents></documents>\n"
    else "<documents>\n" + (DocumentsFrom(blocks, 0) + "</documents>\n")
  }

  method WriteDocument(block: Row, index: nat) returns (out: string)
    ensures out == Document(block, index)
  {
    out := "<document index=\"" + Decimal(index) + "\">\n";
    var sourceLine, tagsLine := "", "";
    if block.source.Some? {
      sourceLine := "<source>" + EscapeXml(block.source.value) + "</source>\n";
    }
    out := out + sourceLine;
    if block.tags != [] {
      var joined := Join(block.tags, ", ");
      tagsLine := "<tags>" + EscapeXml(joined) + "</tags>\n";
    }
    out := out + tagsLine;
    out := out + "<document_content>\n";
    out := out + (EscapeXml(block.content) + "\n");
    out := out + "</document_content>\n";
    out := out + "</document>\n";
  }

  lemma {:induction false} MoveFirst(before: string, first: string, others: string, close: string)
    ensures before + ((first + others) + close) == (before + first) + (others + close)
  {
    AppendAssociates(first, others, close);
    AppendAssociates(before, first, others + close);
  }

  /** `format`. */
  method Format(blocks: seq<Row>) returns (out: string)
    ensures out == Formatted(blocks)
  {
    if blocks == [] { return "<documents></documents>\n"; }
    var close := "</documents>\n";
    out := "<documents>\n";
    var i := 0;
    while i < |blocks|
      invariant 0 <= i <= |blocks|
      invariant out + (DocumentsFrom(blocks, i) + close) == Formatted(blocks)
    {
      var document := WriteDocument(blocks[i], i + 1);
      MoveFirst(out, document, DocumentsFrom(blocks, i + 1), close);
      out := out + document;
      i := i + 1;
    }
    EmptyFirst(close);
    out := out + close;
  }

  lemma {:induction false} EmptyFirst(s: string)
    ensures "" + s == s
  {
  }

  /******* Reading it back *******/

  /** What a reader gets of a block. */
  datatype Shown = Shown(source: Option<string>, tags: Option<string>, content: string)

  function ShownOf(block: Row): Shown {
    Shown(block.source, if block.tags == [] then None else Some(Join(block.tags, ", ")), block.content)
  }

  function AllShown(blocks: seq<Row>, i: nat): seq<Shown>
    requires i <= |blocks|
    decreases |blocks| - i
  {
    if i == |blocks| then [] else [ShownOf(blocks[i])] + AllShown(blocks, i + 1)
  }

  function After(s: string, prefix: string): (rest: Option<string>)
    ensures rest.Some? ==> |rest.value| == |s| - |prefix|
  {
    if prefix <= s then Some(s[|prefix|..]) else None
  }

  /** The text before the first `c`. */
  function Upto(s: string, c: char): (t: string)
    ensures |t| <= |s|
  {
    if s == "" || s[0] == c then "" else [s[0]] + Upto(s[1..], c)
  }

  datatype Read<T> = Read(value: T, rest: string)

  /** Escaped text and the closing tag right after it. */
  function ReadText(s: string, close: string): (r: Option<Read<string>>)
    ensures r.Some? ==> |r.value.rest| <= |s| - |close|
  {
    var t := Upto(s, '<');
    match After(s[|t|..], close)
    case None => None
    case Some(rest) => Some(Read(Unescape(t), rest))
  }

  /** An element that may be missing. */
  function ReadOptional(s: string, open: string, close: string): (r: Option<Read<Option<string>>>)
    ensures r.Some? ==> |r.value.rest| <= |s|
  {
    match After(s, open)
    case None => Some(Read(None, s))
    case Some(inner) =>
      match ReadText(inner, close)
      case None => None
      case Some(read) => Some(Read(Some(read.value), read.rest))
  }

  function ReadBody(s: string): (r: Option<Read<Shown>>)
    ensures r.Some? ==> |r.value.rest| <= |s|
  {
    match ReadOptional(s, "<source>", "</source>\n")
    case None => None
    case Some(source) =>
      match ReadOptional(source.rest, "<tags>", "</tags>\n")
      case None => None
      case Some(tags) =>
        match After(tags.rest, "<document_content>\n")
        case None => None
        case Some(inner) =>
          match ReadText(inner, "</document_content>\n")
          case None => None
          case Some(content) =>
            match After(content.rest, "</document>\n")
            case None => None
            case Some(rest) =>
              if content.value == "" then None
              else Some(Read(Shown(source.value, tags.value, content.value[..|content.value| - 1]), rest))
  }

  function ReadDocument(s: string): (r: Option<Read<Shown>>)
    ensures r.Some? ==> |r.value.rest| < |s|
  {
    match After(s, "<document index=\"")
    case None => None
    case Some(numbered) =>
      match After(numbered[|Upto(numbered, '"')|..], "\">\n")
      case None => None
      case Some(body) => ReadBody(body)
  }

  function ReadDocuments(s: string): Option<seq<Shown>>
    decreases |s|
  {
    if s == "</documents>\n" then Some([])
    else
      match ReadDocument(s)
      case None => None
      case Some(first) =>
        match ReadDocuments(first.rest)
        case None => None
        case Some(others) => Some([first.value] + others)
  }

  function Parse(s: string): Option<seq<Shown>> {
    if s == "<documents></documents>\n" then Some([])
    else
      match After(s, "<documents>\n")
      case None => None
      case Some(rest) => ReadDocuments(rest)
  }

  lemma {:induction false} AfterPrefix(prefix: string, rest: string)
    ensures After(prefix + rest, prefix) == Some(rest)
  {
    assert (prefix + rest)[|prefix|..] == rest;
  }

  lemma {:induction false} UptoStop(t: string, c: char, rest: string)
    requires c !in t
    ensures Upto(t + ([c] + rest), c) == t
  {
    var s := t + ([c] + rest);
    if t != "" {
      assert t[0] in t && t == [t[0]] + t[1..];
      assert s[1..] == t[1..] + ([c] + rest);
      UptoStop(t[1..], c, rest);
    }
  }

  /** Escaped text followed by a closing tag reads back as the text. */
  lemma {:induction false} ReadEscaped(text: string, close: string, rest: string)
    requires close != "" && close[0] == '<'
    ensures ReadText(EscapeXml(text) + (close + rest), close) == Some(Read(text, rest))
  {
    var t := EscapeXml(text);
    var s := t + (close + rest);
    UnescapeUndoesEscape(text);
    assert close + rest == ['<'] + (close[1..] + rest);
    UptoStop(t, '<', close[1..] + rest);
    assert s[|t|..] == close + rest;
    AfterPrefix(close, rest);
  }

  lemma {:induction false} ReadPresent(text: string, open: string, close: string, rest: string)
    requires close != "" && close[0] == '<'
    ensures ReadOptional(open + EscapeXml(text) + close + rest, open, close) == Some(Read(Some(text), rest))
  {
    var inner := EscapeXml(text) + (close + rest);
    assert open + EscapeXml(text) + close + rest == open + inner;
    AfterPrefix(open, inner);
    ReadEscaped(text, close, rest);
  }

  lemma {:induction false} ReadSource(block: Row, rest: string)
    requires |rest| > 1 && rest[1] != 's'
    ensures ReadOptional(SourceLine(block) + rest, "<source>", "</source>\n") == Some(Read(block.source, rest))
  {
    if block.source.Some? {
      ReadPresent(block.source.value, "<source>", "</source>\n", rest);
    } else {
      assert SourceLine(block) + rest == rest;
      assert "<source>"[1] == 's';
    }
  }

  lemma {:induction false} ReadTags(block: Row, rest: string)
    requires |rest| > 1 && rest[1] != 't'
    ensures ReadOptional(TagsLine(block) + rest, "<tags>", "</tags>\n") == Some(Read(ShownOf(block).tags, rest))
  {
    if block.tags != [] {
      ReadPresent(Join(block.tags, ", "), "<tags>", "</tags>\n", rest);
    } else {
      assert TagsLine(block) + rest == rest;
      assert "<tags>"[1] == 't';
    }
  }

  /** The content and the newline that is written after it. */
  lemma {:induction false} ReadContent(content: string, rest: string)
    ensures ReadText((EscapeXml(content) + "\n") + ("</document_content>\n" + rest), "</document_content>\n")
         == Some(Read(content + "\n", rest))
  {
    EscapeAppend(content, "\n");
    EscapeOfOne('\n');
    ReadEscaped(content + "\n", "</document_content>\n", rest);
  }

  /** A document's text after its number, and whatever follows the document. */
  function Body(block: Row, rest: string): string {
    SourceLine(block) + (TagsLine(block) + ("<document_content>\n"
    + ((EscapeXml(block.content) + "\n") + ("</document_content>\n" + ("</document>\n" + rest)))))
  }

  lemma {:induction false} ReadBackBody(block: Row, rest: string)
    ensures ReadBody(Body(block, rest)) == Some(Read(ShownOf(block), rest))
  {
    var close := "</document>\n" + rest;
    var content := (EscapeXml(block.content) + "\n") + ("</document_content>\n" + close);
    var inner := "<document_content>\n" + content;
    assert inner[1] == "<document_content>\n"[1] == 'd';
    SecondLetter(block, inner);
    ReadSource(block, TagsLine(block) + inner);
    ReadTags(block, inner);
    AfterPrefix("<document_content>\n", content);
    ReadContent(block.content, close);
    AfterPrefix("</document>\n", rest);
    assert (block.content + "\n")[..|block.content|] == block.content;
  }

  lemma {:induction false} RightNested(a: string, b: string, c: string, d: string, e: string, f: string, g: string,
                                       h: string, i: string, rest: string)
    ensures a + b + c + d + e + f + g + h + i + rest == a + (b + (c + (d + (e + (f + (g + (h + (i + rest))))))))
  {
    AppendAssociates(a + b + c + d + e + f + g + h, i, rest);
    AppendAssociates(a + b + c + d + e + f + g, h, i + rest);
    AppendAssociates(a + b + c + d + e + f, g, h + (i + rest));
    AppendAssociates(a + b + c + d + e, f, g + (h + (i + rest)));
    AppendAssociates(a + b + c + d, e, f + (g + (h + (i + rest))));
    AppendAssociates(a + b + c, d, e + (f + (g + (h + (i + rest)))));
    AppendAssociates(a + b, c, d + (e + (f + (g + (h + (i + rest))))));
    AppendAssociates(a, b, c + (d + (e + (f + (g + (h + (i + rest)))))));
  }

  lemma {:induction false} DocumentPieces(block: Row, index: nat, rest: string)
    ensures Document(block, index) + rest == "<document index=\"" + (Decimal(index) + ("\">\n" + Body(block, rest)))
  {
    RightNested("<document index=\"", Decimal(index), "\">\n", SourceLine(block), TagsLine(block),
                "<document_content>\n", EscapeXml(block.content) + "\n", "</document_content>\n",
                "</document>\n", rest);
  }

  lemma {:induction false} SecondLetter(block: Row, inner: string)
    requires |inner| > 1 && inner[1] == 'd'
    ensures |TagsLine(block) + inner| > 1 && (TagsLine(block) + inner)[1] != 's'
  {
    if block.tags != [] {
      assert (TagsLine(block) + inner)[1] == "<tags>"[1] == 't';
    } else {
      assert TagsLine(block) + inner == inner;
    }
  }

  lemma {:induction false} ReadBackDocument(block: Row, index: nat, rest: string)
    ensures ReadDocument(Document(block, index) + rest) == Some(Read(ShownOf(block), rest))
  {
    var body := Body(block, rest);
    var numbered := Decimal(index) + ("\">\n" + body);
    DocumentPieces(block, index, rest);
    AfterPrefix("<document index=\"", numbered);
    assert '"' !in Decimal(index) by { assert !IsDigit('"'); }
    assert "\">\n" + body == ['"'] + (">\n" + body);
    UptoStop(Decimal(index), '"', ">\n" + body);
    assert numbered[|Decimal(index)|..] == "\">\n" + body;
    AfterPrefix("\">\n", body);
    ReadBackBody(block, rest);
  }

  lemma {:induction false} StartsLikeADocument(block: Row, index: nat, rest: string)
    ensures Document(block, index) + rest != "</documents>\n"
  {
    DocumentPieces(block, index, rest);
    assert "</documents>\n"[1] == '/' && (Document(block, index) + rest)[1] == "<document index=\""[1] == 'd';
  }

  lemma {:induction false} ReadBackDocuments(blocks: seq<Row>, i: nat)
    requires i <= |blocks|
    ensures ReadDocuments(DocumentsFrom(blocks, i) + "</documents>\n") == Some(AllShown(blocks, i))
    decreases |blocks| - i
  {
    var close := "</documents>\n";
    if i == |blocks| {
      EmptyFirst(close);
    } else {
      var first, rest := Document(blocks[i], i + 1), DocumentsFrom(blocks, i + 1) + close;
      AppendAssociates(first, DocumentsFrom(blocks, i + 1), close);
      StartsLikeADocument(blocks[i], i + 1, rest);
      ReadBackDocument(blocks[i], i + 1, rest);
      ReadBackDocuments(blocks, i + 1);
    }
  }

  /**
   From the formatted text one reads back every block's source, joined tags and content, in order,
   whatever markup they hold.
   */
  lemma {:induction false} FormatCanBeReadBack(blocks: seq<Row>)
    ensures Parse(Formatted(blocks)) == Some(AllShown(blocks, 0))
  {
    if blocks != [] {
      var rest := DocumentsFrom(blocks, 0) + "</documents>\n";
      assert Formatted(blocks)[10] == "<documents>\n"[10] == '>' && "<documents></documents>\n"[11] == '<';
      assert Formatted(blocks)[11] == "<documents>\n"[11] == '\n';
      AfterPrefix("<documents>\n", rest);
      ReadBackDocuments(blocks, 0);
    }
  }

  /** So two lists of blocks that print the same show the same. */
  lemma {:induction false} FormatIsFaithful(a: seq<Row>, b: seq<Row>)
    requires Formatted(a) == Formatted(b)
    ensures AllShown(a, 0) == AllShown(b, 0)
  {
    FormatCanBeReadBack(a);
    FormatCanBeReadBack(b);
  }
}
