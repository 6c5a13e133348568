/** Paragraph-aware text chunking. */
module Chunk {
  import opened Text

  const BLANK := "\n\n"

  /******* Paragraphs *******/

  /** `str::split("\n\n")`: leftmost, non-overlapping. */
  function SplitBlank(text: string): (parts: seq<string>)
    ensures parts != []
  {
    if |text| < 2 then [text]
    else if text[0] == '\n' && text[1] == '\n' then [""] + SplitBlank(text[2..])
    else
      var rest := SplitBlank(text[1..]);
      [[text[0]] + rest[0]] + rest[1..]
  }

  /** The trimmed, non-empty paragraphs of a text. */
  function Paragraphs(text: string): seq<string> {
    TrimAll(SplitBlank(text))
  }

  predicate NoBlank(s: string) {
    forall i :: 0 <= i < |s| - 1 && s[i] == '\n' ==> s[i + 1] != '\n'
  }

  predicate IsParagraph(p: string) {
    p != "" && Trimmed(p) && NoBlank(p)
  }

  predicate AreParagraphs(paras: seq<string>) {
    forall i :: 0 <= i < |paras| ==> IsParagraph(paras[i])
  }

  /******* Hard splitting *******/

  /** Byte offset of character `k`. */
  function OffsetOf(s: string, k: nat): (offset: nat)
    requires k <= |s|
    ensures k <= offset
  {
    if k == 0 then 0 else OffsetOf(s, k - 1) + Utf8Len(s[k - 1])
  }

  /** How many characters from `i` on fit in `budget` bytes. */
  function FitCount(s: string, i: nat, budget: int): (n: nat)
    requires i <= |s|
    ensures i + n <= |s|
    decreases |s| - i
  {
    if i == |s| || Utf8Len(s[i]) > budget then 0 else 1 + FitCount(s, i + 1, budget - Utf8Len(s[i]))
  }

  /** Characters in the segment that starts at `i`; a character wider than the cap is taken whole. */
  function NextCut(s: string, i: nat, cap: nat): (n: nat)
    requires i < |s|
    ensures 1 <= n && i + n <= |s|
  {
    var n := FitCount(s, i, cap);
    if n == 0 then 1 else n
  }

  /** The untrimmed segments a hard split walks over from character `i` on. */
  function Segments(s: string, i: nat, cap: nat): seq<string>
    requires i <= |s|
    decreases |s| - i
  {
    if i == |s| then []
    else [s[i..i + NextCut(s, i, cap)]] + Segments(s, i + NextCut(s, i, cap), cap)
  }

  /** A trimmed piece, unless it is empty. */
  function Flushed(piece: string): seq<string> {
    if Trim(piece) == "" then [] else [Trim(piece)]
  }

  function TrimAll(parts: seq<string>): seq<string> {
    if parts == [] then [] else Flushed(parts[0]) + TrimAll(parts[1..])
  }

  function PiecesFrom(s: string, i: nat, cap: nat): seq<string>
    requires i <= |s|
  {
    TrimAll(Segments(s, i, cap))
  }

  function Pieces(s: string, cap: nat): seq<string> {
    PiecesFrom(s, 0, cap)
  }

  /******* Packing *******/

  function JoinParagraphs(group: seq<string>): string {
    Join(group, BLANK)
  }

  function Flush(open: seq<string>): seq<string> {
    if open == [] then [] else [JoinParagraphs(open)]
  }

  /** The chunks still to come when `open` is buffered and the paragraphs from `i` on follow. */
  function ChunksFrom(open: seq<string>, paras: seq<string>, i: nat, cap: nat): seq<string>
    requires i <= |paras|
    decreases |paras| - i
  {
    if i == |paras| then Flush(open)
    else if Bytes(paras[i]) > cap then
      Flush(open) + (Pieces(paras[i], cap) + ChunksFrom([], paras, i + 1, cap))
    else if open != [] && Bytes(JoinParagraphs(open + [paras[i]])) > cap then
      Flush(open) + ChunksFrom([paras[i]], paras, i + 1, cap)
    else ChunksFrom(open + [paras[i]], paras, i + 1, cap)
  }

  /** Caps below 4 are raised to 4, so any scalar fits. */
  function Cap(maxBytes: nat): nat {
    if maxBytes < 4 then 4 else maxBytes
  }

  function Chunks(text: string, maxBytes: nat): seq<string> {
    ChunksFrom([], Paragraphs(text), 0, Cap(maxBytes))
  }

  /******* The byte-offset view *******/

  /** `str::is_char_boundary`. */
  predicate IsBoundary(s: string, offset: nat) {
    exists k :: 0 <= k <= |s| && OffsetOf(s, k) == offset
  }

  /** The character at or after `k` that starts at byte `offset`, when there is one. */
  function IndexAt(s: string, k: nat, offset: nat): (i: nat)
    requires k <= |s|
    ensures k <= i <= |s|
    decreases |s| - k
  {
    if k == |s| || OffsetOf(s, k) >= offset then k else IndexAt(s, k + 1, offset)
  }

  lemma {:induction false} OffsetsIncrease(s: string, i: nat, j: nat)
    requires i <= j <= |s|
    ensures OffsetOf(s, i) + (j - i) <= OffsetOf(s, j)
    decreases j
  {
    if i < j { OffsetsIncrease(s, i, j - 1); }
  }

  lemma {:induction false} IndexOfOffset(s: string, k: nat, i: nat)
    requires k <= i <= |s|
    ensures IndexAt(s, k, OffsetOf(s, i)) == i
    decreases i - k
  {
    if k < i {
      OffsetsIncrease(s, k, i);
      IndexOfOffset(s, k + 1, i);
    }
  }

  /** `&s[start..end]`, for offsets on character boundaries. */
  function ByteSlice(s: string, start: nat, end: nat): string {
    if IndexAt(s, 0, start) <= IndexAt(s, 0, end) then s[IndexAt(s, 0, start)..IndexAt(s, 0, end)] else ""
  }

  lemma {:induction false} ByteSliceIs(s: string, i: nat, j: nat)
    requires i <= j <= |s|
    ensures ByteSlice(s, OffsetOf(s, i), OffsetOf(s, j)) == s[i..j]
  {
    IndexOfOffset(s, 0, i);
    IndexOfOffset(s, 0, j);
  }

  /** Offsets measure the bytes in between. */
  lemma {:induction false} OffsetsMeasure(s: string, i: nat, j: nat)
    requires i <= j <= |s|
    ensures OffsetOf(s, j) == OffsetOf(s, i) + Bytes(s[i..j])
    decreases j
  {
    if i < j {
      OffsetsMeasure(s, i, j - 1);
      assert s[i..j] == s[i..j - 1] + [s[j - 1]];
      BytesAppend(s[i..j - 1], [s[j - 1]]);
    }
  }

  lemma {:induction false} OffsetOfEnd(s: string)
    ensures OffsetOf(s, |s|) == Bytes(s)
  {
    OffsetsMeasure(s, 0, |s|);
    assert s[0..|s|] == s;
  }

  /** What `FitCount` counts: the longest run of characters within the budget. */
  lemma {:induction false} FitCountMaximal(s: string, i: nat, budget: nat, k: nat)
    requires i <= k <= |s|
    ensures OffsetOf(s, i + FitCount(s, i, budget)) <= OffsetOf(s, i) + budget
    ensures OffsetOf(s, k) <= OffsetOf(s, i) + budget <==> k <= i + FitCount(s, i, budget)
    decreases |s| - i
  {
    if i == |s| {
    } else if Utf8Len(s[i]) > budget {
      if k > i { OffsetsIncrease(s, i + 1, k); }
    } else if k > i {
      FitCountMaximal(s, i + 1, budget - Utf8Len(s[i]), k);
    } else {
      FitCountMaximal(s, i + 1, budget - Utf8Len(s[i]), i + 1);
    }
  }

  /** The last boundary at most `cap` bytes past character `i`, as an offset. */
  lemma {:induction false} LastBoundary(s: string, i: nat, cap: nat, end: nat)
    requires i <= |s| && IsBoundary(s, end) && OffsetOf(s, i) <= end <= OffsetOf(s, i) + cap
    requires forall k :: i <= k <= |s| && OffsetOf(s, k) <= OffsetOf(s, i) + cap ==> OffsetOf(s, k) <= end
    ensures end == OffsetOf(s, i + FitCount(s, i, cap))
  {
    var n := FitCount(s, i, cap);
    var k :| 0 <= k <= |s| && OffsetOf(s, k) == end;
    if k < i { OffsetsIncrease(s, k, i); }
    FitCountMaximal(s, i, cap, k);
    OffsetsIncrease(s, k, i + n);
  }

  /** The inner loop of `hard_split`: walks the byte offset back to a character boundary. */
  method WalkBack(s: string, start: nat, cap: nat, ghost i: nat) returns (end: nat)
    requires i <= |s| && start == OffsetOf(s, i)
    ensures end == OffsetOf(s, i + FitCount(s, i, cap))
  {
    OffsetOfEnd(s);
    forall k | i <= k <= |s| ensures OffsetOf(s, k) <= Bytes(s) { OffsetsIncrease(s, k, |s|); }
    end := if start + cap < Bytes(s) then start + cap else Bytes(s);
    while end > start && !IsBoundary(s, end)
      invariant start <= end <= start + cap
      invariant forall k :: i <= k <= |s| && OffsetOf(s, k) <= start + cap ==> OffsetOf(s, k) <= end
    {
      end := end - 1;
    }
    LastBoundary(s, i, cap, end);
  }

  /** One turn of `hard_split`: where the segment that starts at character `i` ends. */
  method SegmentEnd(s: string, start: nat, cap: nat, ghost i: nat) returns (end: nat)
    requires i < |s| && start == OffsetOf(s, i)
    ensures end == OffsetOf(s, i + NextCut(s, i, cap))
  {
    end := WalkBack(s, start, cap, i);
    OffsetsIncrease(s, i, i + FitCount(s, i, cap));
    if end == start {
      IndexOfOffset(s, 0, i);
      end := OffsetOf(s, IndexAt(s, 0, start) + 1);
    }
  }

  lemma {:induction false} PiecesStep(s: string, i: nat, cap: nat)
    requires i < |s|
    ensures PiecesFrom(s, i, cap)
         == Flushed(s[i..i + NextCut(s, i, cap)]) + PiecesFrom(s, i + NextCut(s, i, cap), cap)
  {
  }

  /** One turn of `hard_split`: the segment that starts at character `i`, trimmed, and the offset of the next. */
  method CutPiece(s: string, start: nat, cap: nat, ghost i: nat) returns (piece: seq<string>, end: nat, ghost j: nat)
    requires i < |s| && start == OffsetOf(s, i)
    ensures i < j <= |s| && end == OffsetOf(s, j)
    ensures PiecesFrom(s, i, cap) == piece + PiecesFrom(s, j, cap)
  {
    j := i + NextCut(s, i, cap);
    end := SegmentEnd(s, start, cap, i);
    PiecesStep(s, i, cap);
    ByteSliceIs(s, i, j);
    piece := Flushed(ByteSlice(s, start, end));
  }

  /** `hard_split`, on byte offsets. */
  method HardSplit(s: string, maxBytes: nat) returns (out: seq<string>)
    ensures out == Pieces(s, maxBytes)
  {
    out := [];
    var start, size := 0, Bytes(s);
    ghost var i := 0;
    OffsetOfEnd(s);
    while start < size
      invariant 0 <= i <= |s| && start == OffsetOf(s, i)
      invariant out + PiecesFrom(s, i, maxBytes) == Pieces(s, maxBytes)
      decreases |s| - i
    {
      var piece, end;
      ghost var j;
      piece, end, j := CutPiece(s, start, maxBytes, i);
      AppendAssociates(out, piece, PiecesFrom(s, j, maxBytes));
      out, start, i := out + piece, end, j;
    }
    OffsetsIncrease(s, i, |s|);
  }

  /******* Paragraphs are trimmed, non-empty and free of blank lines *******/

  lemma {:induction false} SplitParts(text: string)
    ensures forall i :: 0 <= i < |SplitBlank(text)| ==> NoBlank(SplitBlank(text)[i])
    ensures text != "" && SplitBlank(text)[0] != "" ==> SplitBlank(text)[0][0] == text[0]
  {
    if |text| < 2 {
    } else if text[0] == '\n' && text[1] == '\n' {
      SplitParts(text[2..]);
    } else {
      SplitParts(text[1..]);
      var rest := SplitBlank(text[1..])[0];
      var first := [text[0]] + rest;
      forall k | 0 <= k < |first| - 1 && first[k] == '\n' ensures first[k + 1] != '\n' {
        if k > 0 { assert rest[k - 1] == first[k]; }
      }
    }
  }

  lemma {:induction false} SliceNoBlank(s: string, i: nat, j: nat)
    requires i <= j <= |s| && NoBlank(s)
    ensures NoBlank(s[i..j])
  {
    var t := s[i..j];
    forall k | 0 <= k < |t| - 1 && t[k] == '\n' ensures t[k + 1] != '\n' {
      assert s[i + k] == t[k] && s[i + k + 1] == t[k + 1];
    }
  }

  lemma {:induction false} TrimNoBlank(s: string)
    requires NoBlank(s)
    ensures NoBlank(Trim(s)) && Trimmed(Trim(s))
  {
    var before, after := TrimMeaning(s);
    assert Trim(s) == s[|before|..|before| + |Trim(s)|];
    SliceNoBlank(s, |before|, |before| + |Trim(s)|);
  }

  lemma {:induction false} TrimAllParagraphs(parts: seq<string>)
    requires forall i :: 0 <= i < |parts| ==> NoBlank(parts[i])
    ensures AreParagraphs(TrimAll(parts))
  {
    if parts != [] {
      TrimNoBlank(parts[0]);
      TrimAllParagraphs(parts[1..]);
    }
  }

  lemma {:induction false} ParagraphsAreParagraphs(text: string)
    ensures AreParagraphs(Paragraphs(text))
  {
    SplitParts(text);
    TrimAllParagraphs(SplitBlank(text));
  }

  lemma {:induction false} JoinIsTrimmed(group: seq<string>)
    requires AreParagraphs(group) && group != []
    ensures JoinParagraphs(group) != "" && Trimmed(JoinParagraphs(group))
    ensures Trim(JoinParagraphs(group)) == JoinParagraphs(group)
  {
    if |group| > 1 {
      JoinIsTrimmed(group[1..]);
      var joined, rest := JoinParagraphs(group), JoinParagraphs(group[1..]);
      assert joined == group[0] + BLANK + rest;
      assert joined[|joined| - 1] == rest[|rest| - 1];
    }
    TrimOfTrimmed(JoinParagraphs(group));
  }

  lemma {:induction false} JoinBytes(open: seq<string>, para: string)
    requires open != []
    ensures JoinParagraphs(open + [para]) == JoinParagraphs(open) + BLANK + para
    ensures Bytes(JoinParagraphs(open + [para])) == Bytes(JoinParagraphs(open)) + 2 + Bytes(para)
  {
    JoinSnoc(open, para, BLANK);
    BytesAppend(JoinParagraphs(open) + BLANK, para);
    BytesAppend(JoinParagraphs(open), BLANK);
    BytesAscii(BLANK);
  }

  /** The `flush` closure: the buffer trimmed, unless nothing is left of it. */
  method FlushBuffer(current: string, chunks: seq<string>, ghost open: seq<string>) returns (flushed: seq<string>)
    requires AreParagraphs(open) && current == JoinParagraphs(open)
    ensures flushed == chunks + Flush(open)
  {
    if open != [] { JoinIsTrimmed(open); }
    var t := Trim(current);
    flushed := if t == "" then chunks else chunks + [t];
  }

  /** One paragraph of the greedy packing, with the chunks so far in front. */
  lemma {:induction false} PackStep(chunks: seq<string>, open: seq<string>, paras: seq<string>, i: nat, cap: nat)
    requires i < |paras|
    ensures var p := paras[i];
            chunks + ChunksFrom(open, paras, i, cap)
            == if Bytes(p) > cap then
                 ((chunks + Flush(open)) + Pieces(p, cap)) + ChunksFrom([], paras, i + 1, cap)
               else if open != [] && Bytes(JoinParagraphs(open + [p])) > cap then
                 (chunks + Flush(open)) + ChunksFrom([p], paras, i + 1, cap)
               else chunks + ChunksFrom(open + [p], paras, i + 1, cap)
  {
    var p := paras[i];
    if Bytes(p) > cap {
      var tail := ChunksFrom([], paras, i + 1, cap);
      AppendAssociates(chunks + Flush(open), Pieces(p, cap), tail);
      AppendAssociates(chunks, Flush(open), Pieces(p, cap) + tail);
    } else if open != [] && Bytes(JoinParagraphs(open + [p])) > cap {
      AppendAssociates(chunks, Flush(open), ChunksFrom([p], paras, i + 1, cap));
    }
  }

  /** The tail of the loop body of `chunk_text`: flush if the paragraph does not fit, then buffer it. */
  method BufferParagraph(current: string, chunks: seq<string>, para: string, cap: nat, ghost open: seq<string>)
    returns (buffer: string, done: seq<string>, ghost group: seq<string>)
    requires AreParagraphs(open) && current == JoinParagraphs(open) && (current == "" <==> open == [])
    requires IsParagraph(para) && Bytes(para) <= cap
    ensures AreParagraphs(group) && buffer == JoinParagraphs(group) && (buffer == "" <==> group == [])
    ensures if open != [] && Bytes(JoinParagraphs(open + [para])) > cap
            then done == chunks + Flush(open) && group == [para]
            else done == chunks && group == open + [para]
  {
    buffer, done, group := current, chunks, open;
    var needed := if current == "" then Bytes(para) else Bytes(current) + 2 + Bytes(para);
    if open != [] { JoinBytes(open, para); }
    if needed > cap {
      done := FlushBuffer(current, chunks, open);
      buffer, group := "", [];
    }
    if buffer != "" {
      buffer := buffer + BLANK;
    }
    assert group == [] ==> group + [para] == [para];
    buffer, group := buffer + para, group + [para];
    JoinIsTrimmed(group);
  }

  /** `chunk_text`. */
  method ChunkText(text: string, maxBytes: nat) returns (chunks: seq<string>)
    ensures chunks == Chunks(text, maxBytes)
  {
    var cap := Cap(maxBytes);
    var paras := Paragraphs(text);
    ParagraphsAreParagraphs(text);
    chunks := [];
    var current := "";
    ghost var open: seq<string> := [];
    var i := 0;
    while i < |paras|
      invariant 0 <= i <= |paras|
      invariant AreParagraphs(open) && current == JoinParagraphs(open) && (current == "" <==> open == [])
      invariant chunks + ChunksFrom(open, paras, i, cap) == Chunks(text, maxBytes)
    {
      PackStep(chunks, open, paras, i, cap);
      if Bytes(paras[i]) > cap {
        chunks := FlushBuffer(current, chunks, open);
        current, open := "", [];
        var pieces := HardSplit(paras[i], cap);
        chunks := chunks + pieces;
      } else {
        current, chunks, open := BufferParagraph(current, chunks, paras[i], cap, open);
      }
      i := i + 1;
    }
    chunks := FlushBuffer(current, chunks, open);
  }

  /******* Hard-split segments tile the paragraph and are as long as the cap allows *******/

  lemma {:induction false} SegmentsTile(s: string, i: nat, cap: nat)
    requires i <= |s|
    ensures Concat(Segments(s, i, cap)) == s[i..]
    decreases |s| - i
  {
    if i < |s| {
      var j := i + NextCut(s, i, cap);
      SegmentsTile(s, j, cap);
      assert s[i..] == s[i..j] + s[j..];
    }
  }

  /** With a cap of at least 4 some character always fits, so the one-wide-character fallback never runs. */
  lemma {:induction false} FallbackNeverTaken(s: string, i: nat, cap: nat)
    requires i < |s| && cap >= 4
    ensures FitCount(s, i, cap) > 0 && NextCut(s, i, cap) == FitCount(s, i, cap)
  {
  }

  lemma {:induction false} SegmentIsMaximal(s: string, i: nat, cap: nat)
    requires i < |s| && cap >= 4
    ensures var j := i + NextCut(s, i, cap);
            && Bytes(s[i..j]) <= cap
            && (j < |s| ==> Bytes(s[i..j]) + Utf8Len(s[j]) > cap)
  {
    var j := i + NextCut(s, i, cap);
    FallbackNeverTaken(s, i, cap);
    FitCountMaximal(s, i, cap, j);
    OffsetsMeasure(s, i, j);
    if j < |s| { FitCountMaximal(s, i, cap, j + 1); }
  }

  predicate Maximal(segments: seq<string>, cap: nat) {
    && (forall k :: 0 <= k < |segments| ==> segments[k] != "" && Bytes(segments[k]) <= cap)
    && (forall k :: 0 <= k < |segments| - 1 && segments[k + 1] != "" ==>
          Bytes(segments[k]) + Utf8Len(segments[k + 1][0]) > cap)
  }

  lemma {:induction false} SegmentsMaximal(s: string, i: nat, cap: nat)
    requires i <= |s| && cap >= 4
    ensures Maximal(Segments(s, i, cap), cap)
    ensures i < |s| ==> Segments(s, i, cap) != [] && Segments(s, i, cap)[0] != "" && Segments(s, i, cap)[0][0] == s[i]
    decreases |s| - i
  {
    if i < |s| {
      var j := i + NextCut(s, i, cap);
      var segments := Segments(s, i, cap);
      var rest := Segments(s, j, cap);
      SegmentsMaximal(s, j, cap);
      SegmentIsMaximal(s, i, cap);
      assert segments == [s[i..j]] + rest;
      forall k | 0 <= k < |segments| ensures segments[k] != "" && Bytes(segments[k]) <= cap {
        if k > 0 { assert segments[k] == rest[k - 1]; }
      }
      forall k | 0 <= k < |segments| - 1 && segments[k + 1] != ""
        ensures Bytes(segments[k]) + Utf8Len(segments[k + 1][0]) > cap
      {
        assert segments[k + 1] == rest[k];
        if k > 0 { assert segments[k] == rest[k - 1]; }
      }
    }
  }

  /**
   The segments of a hard split, put back together, are the paragraph; each is non-empty and within the
   cap, and none but the last could have taken one character more.
   */
  lemma {:induction false} HardSplitTiles(s: string, cap: nat)
    requires cap >= 4
    ensures Concat(Segments(s, 0, cap)) == s && Maximal(Segments(s, 0, cap), cap)
  {
    SegmentsTile(s, 0, cap);
    assert s[0..] == s;
    SegmentsMaximal(s, 0, cap);
  }

  /******* Nothing but white space is lost *******/

  /** The non-white-space characters of the parts from `i` on. */
  function SolidFrom(parts: seq<string>, i: nat): string
    requires i <= |parts|
    decreases |parts| - i
  {
    if i == |parts| then "" else Solid(parts[i]) + SolidFrom(parts, i + 1)
  }

  lemma {:induction false} SolidConcat(parts: seq<string>, i: nat)
    requires i <= |parts|
    ensures SolidFrom(parts, i) == Solid(Concat(parts[i..]))
    decreases |parts| - i
  {
    if i < |parts| {
      assert parts[i..][1..] == parts[i + 1..];
      SolidConcat(parts, i + 1);
      SolidAppend(parts[i], Concat(parts[i + 1..]));
    }
  }

  lemma {:induction false} SolidTrimAll(parts: seq<string>)
    ensures Solid(Concat(TrimAll(parts))) == Solid(Concat(parts))
  {
    if parts != [] {
      var first, rest := Flushed(parts[0]), TrimAll(parts[1..]);
      SolidTrimAll(parts[1..]);
      SolidTrim(parts[0]);
      ConcatAppend(first, rest);
      assert first != [] ==> first[1..] == [] && first[0] + Concat([]) == first[0];
      assert Concat(first) == Trim(parts[0]);
      SolidAppend(Concat(first), Concat(rest));
      SolidAppend(parts[0], Concat(parts[1..]));
    }
  }

  lemma {:induction false} SolidSplit(text: string)
    ensures Solid(Concat(SplitBlank(text))) == Solid(text)
  {
    var parts := SplitBlank(text);
    if |text| < 2 {
      assert parts[0] + Concat(parts[1..]) == text;
    } else if text[0] == '\n' && text[1] == '\n' {
      SolidSplit(text[2..]);
      assert Concat(parts) == "" + Concat(parts[1..]) == Concat(SplitBlank(text[2..]));
      assert text[1..][1..] == text[2..];
      assert Solid(text) == Solid(text[1..]) == Solid(text[1..][1..]);
    } else {
      var rest := SplitBlank(text[1..]);
      SolidSplit(text[1..]);
      assert Concat(parts) == [text[0]] + Concat(rest);
      assert text == [text[0]] + text[1..];
      SolidAppend([text[0]], Concat(rest));
      SolidAppend([text[0]], text[1..]);
    }
  }

  lemma {:induction false} SolidJoin(group: seq<string>)
    ensures Solid(JoinParagraphs(group)) == Solid(Concat(group))
  {
    if |group| == 1 {
      assert group[0] + Concat(group[1..]) == group[0];
    } else if |group| > 1 {
      var rest := JoinParagraphs(group[1..]);
      SolidJoin(group[1..]);
      SolidAppend(group[0] + BLANK, rest);
      SolidAppend(group[0], BLANK);
      SolidOfWhitespace(BLANK);
      SolidAppend(group[0], Concat(group[1..]));
    }
  }

  lemma {:induction false} SolidFlush(open: seq<string>)
    ensures Solid(Concat(Flush(open))) == Solid(Concat(open))
  {
    SolidJoin(open);
    if open != [] {
      var joined := JoinParagraphs(open);
      assert Flush(open)[1..] == [] && joined + "" == joined;
      assert Concat(Flush(open)) == joined;
    }
  }

  lemma {:induction false} SolidPieces(s: string, cap: nat)
    ensures Solid(Concat(Pieces(s, cap))) == Solid(s)
  {
    SolidTrimAll(Segments(s, 0, cap));
    SegmentsTile(s, 0, cap);
    assert s[0..] == s;
  }

  lemma {:induction false} SolidOfTwo(a: seq<string>, b: seq<string>)
    ensures Solid(Concat(a + b)) == Solid(Concat(a)) + Solid(Concat(b))
  {
    ConcatAppend(a, b);
    SolidAppend(Concat(a), Concat(b));
  }

  lemma {:induction false} SolidOne(p: string)
    ensures Solid(Concat([p])) == Solid(p)
  {
    assert [p][1..] == [] && p + "" == p;
  }

  lemma {:induction false} SolidThree(a: seq<string>, b: seq<string>, c: seq<string>)
    ensures Solid(Concat(a + (b + c))) == Solid(Concat(a)) + (Solid(Concat(b)) + Solid(Concat(c)))
  {
    SolidOfTwo(a, b + c);
    SolidOfTwo(b, c);
  }

  /** The solid text of what is buffered and of the paragraphs from `i` on is that of the chunks still to come. */
  predicate SolidKept(open: seq<string>, paras: seq<string>, i: nat, cap: nat)
    requires i <= |paras|
  {
    Solid(Concat(ChunksFrom(open, paras, i, cap))) == Solid(Concat(open)) + SolidFrom(paras, i)
  }

  lemma {:induction false} SolidOversized(open: seq<string>, paras: seq<string>, i: nat, cap: nat)
    requires i < |paras| && Bytes(paras[i]) > cap && SolidKept([], paras, i + 1, cap)
    ensures SolidKept(open, paras, i, cap)
  {
    var rest := SolidFrom(paras, i + 1);
    SolidFlush(open);
    SolidPieces(paras[i], cap);
    SolidThree(Flush(open), Pieces(paras[i], cap), ChunksFrom([], paras, i + 1, cap));
    assert Solid(Concat([])) + rest == rest;
  }

  lemma {:induction false} SolidFlushed(open: seq<string>, paras: seq<string>, i: nat, cap: nat)
    requires i < |paras| && Bytes(paras[i]) <= cap && SolidKept([paras[i]], paras, i + 1, cap)
    requires open != [] && Bytes(JoinParagraphs(open + [paras[i]])) > cap
    ensures SolidKept(open, paras, i, cap)
  {
    SolidFlush(open);
    SolidOne(paras[i]);
    SolidOfTwo(Flush(open), ChunksFrom([paras[i]], paras, i + 1, cap));
  }

  lemma {:induction false} SolidAdded(open: seq<string>, paras: seq<string>, i: nat, cap: nat)
    requires i < |paras| && Bytes(paras[i]) <= cap && SolidKept(open + [paras[i]], paras, i + 1, cap)
    requires open == [] || Bytes(JoinParagraphs(open + [paras[i]])) <= cap
    ensures SolidKept(open, paras, i, cap)
  {
    SolidOne(paras[i]);
    SolidOfTwo(open, [paras[i]]);
    AppendAssociates(Solid(Concat(open)), Solid(paras[i]), SolidFrom(paras, i + 1));
  }

  lemma {:induction false} SolidChunks(open: seq<string>, paras: seq<string>, i: nat, cap: nat)
    requires i <= |paras|
    ensures SolidKept(open, paras, i, cap)
    decreases |paras| - i
  {
    if i == |paras| {
      SolidFlush(open);
    } else if Bytes(paras[i]) > cap {
      SolidChunks([], paras, i + 1, cap);
      SolidOversized(open, paras, i, cap);
    } else if open != [] && Bytes(JoinParagraphs(open + [paras[i]])) > cap {
      SolidChunks([paras[i]], paras, i + 1, cap);
      SolidFlushed(open, paras, i, cap);
    } else {
      SolidChunks(open + [paras[i]], paras, i + 1, cap);
      SolidAdded(open, paras, i, cap);
    }
  }

  /** The chunks hold the text's non-white-space characters, all of them, in order. */
  lemma {:induction false} NothingSolidIsLost(text: string, maxBytes: nat)
    ensures Solid(Concat(Chunks(text, maxBytes))) == Solid(text)
  {
    var paras := Paragraphs(text);
    SolidChunks([], paras, 0, Cap(maxBytes));
    SolidConcat(paras, 0);
    assert paras[0..] == paras;
    SolidTrimAll(SplitBlank(text));
    SolidSplit(text);
  }

  /******* The shape of a chunk *******/

  /** A chunk is one or more paragraphs joined by blank lines, within the cap. */
  ghost predicate IsChunk(chunk: string, cap: nat) {
    exists group :: IsGroup(group, cap) && chunk == JoinParagraphs(group)
  }

  predicate IsGroup(group: seq<string>, cap: nat) {
    group != [] && AreParagraphs(group) && Bytes(JoinParagraphs(group)) <= cap
  }

  lemma {:induction false} PiecesAreChunks(s: string, i: nat, cap: nat)
    requires i <= |s| && NoBlank(s) && cap >= 4
    ensures forall c :: c in PiecesFrom(s, i, cap) ==> IsChunk(c, cap)
    decreases |s| - i
  {
    if i < |s| {
      var j := i + NextCut(s, i, cap);
      PiecesAreChunks(s, j, cap);
      PiecesStep(s, i, cap);
      SliceNoBlank(s, i, j);
      TrimNoBlank(s[i..j]);
      SegmentIsMaximal(s, i, cap);
      TrimBytes(s[i..j]);
      var piece := Trim(s[i..j]);
      if piece != "" {
        assert IsGroup([piece], cap) && JoinParagraphs([piece]) == piece;
      }
    }
  }

  lemma {:induction false} ChunksFromAreChunks(open: seq<string>, paras: seq<string>, i: nat, cap: nat)
    requires i <= |paras| && AreParagraphs(paras) && cap >= 4
    requires open == [] || IsGroup(open, cap)
    ensures forall c :: c in ChunksFrom(open, paras, i, cap) ==> IsChunk(c, cap)
    decreases |paras| - i
  {
    assert forall c :: c in Flush(open) ==> IsChunk(c, cap);
    if i < |paras| {
      var p := paras[i];
      assert JoinParagraphs([p]) == p;
      if Bytes(p) > cap {
        PiecesAreChunks(p, 0, cap);
        ChunksFromAreChunks([], paras, i + 1, cap);
      } else if open != [] && Bytes(JoinParagraphs(open + [p])) > cap {
        ChunksFromAreChunks([p], paras, i + 1, cap);
      } else {
        assert open == [] ==> open + [p] == [p];
        ChunksFromAreChunks(open + [p], paras, i + 1, cap);
      }
    }
  }

  /** Every chunk is non-empty, trimmed and at most `max(maxBytes, 4)` bytes. */
  lemma {:induction false} ChunksAreWellFormed(text: string, maxBytes: nat, chunk: string)
    requires chunk in Chunks(text, maxBytes)
    ensures IsChunk(chunk, Cap(maxBytes))
    ensures chunk != "" && Trimmed(chunk) && Bytes(chunk) <= Cap(maxBytes)
  {
    ParagraphsAreParagraphs(text);
    ChunksFromAreChunks([], Paragraphs(text), 0, Cap(maxBytes));
    var group :| IsGroup(group, Cap(maxBytes)) && chunk == JoinParagraphs(group);
    JoinIsTrimmed(group);
  }

  /******* Chunking a chunk gives it back *******/

  lemma {:induction false} SplitParagraph(p: string, rest: string)
    requires p != "" && NoBlank(p) && p[|p| - 1] != '\n'
    ensures SplitBlank(p) == [p]
    ensures SplitBlank(p + BLANK + rest) == [p] + SplitBlank(rest)
  {
    var whole := p + BLANK + rest;
    if |p| == 1 {
      assert whole[1..] == BLANK + rest && whole[1..][2..] == rest;
      assert SplitBlank(whole[1..]) == [""] + SplitBlank(rest);
      assert [p[0]] + "" == p;
    } else {
      SliceNoBlank(p, 1, |p|);
      SplitParagraph(p[1..], rest);
      assert whole[1..] == p[1..] + BLANK + rest;
      assert [p[0]] + p[1..] == p;
    }
  }

  lemma {:induction false} ParagraphsOfJoin(group: seq<string>)
    requires AreParagraphs(group) && group != []
    ensures Paragraphs(JoinParagraphs(group)) == group
  {
    var p := group[0];
    TrimOfTrimmed(p);
    assert !IsWhitespace(p[|p| - 1]);
    if |group| == 1 {
      SplitParagraph(p, "");
      assert TrimAll([p]) == Flushed(p) + TrimAll([]);
      assert group == [p];
    } else {
      var rest := JoinParagraphs(group[1..]);
      SplitParagraph(p, rest);
      ParagraphsOfJoin(group[1..]);
      assert ([p] + SplitBlank(rest))[1..] == SplitBlank(rest);
      assert group == [p] + group[1..];
    }
  }

  /** Bytes of a joined group, plus two: additive, so packings can be compared by sums. */
  function Weight(group: seq<string>): nat {
    if group == [] then 0 else Bytes(group[0]) + 2 + Weight(group[1..])
  }

  lemma {:induction false} WeightAppend(a: seq<string>, b: seq<string>)
    ensures Weight(a + b) == Weight(a) + Weight(b)
  {
    if a == [] {
      assert a + b == b;
    } else {
      assert (a + b)[1..] == a[1..] + b;
      WeightAppend(a[1..], b);
    }
  }

  lemma {:induction false} WeightOfGroup(group: seq<string>)
    requires group != []
    ensures Weight(group) == Bytes(JoinParagraphs(group)) + 2
  {
    if |group| > 1 {
      var rest := JoinParagraphs(group[1..]);
      WeightOfGroup(group[1..]);
      BytesAppend(group[0] + BLANK, rest);
      BytesAppend(group[0], BLANK);
      BytesAscii(BLANK);
    }
  }

  lemma {:induction false} WeightOne(p: string)
    ensures Weight([p]) == Bytes(p) + 2
  {
    assert [p][1..] == [];
  }

  lemma {:induction false} FittingGroupIsOneChunk(group: seq<string>, i: nat, cap: nat)
    requires IsGroup(group, cap) && i <= |group|
    ensures ChunksFrom(group[..i], group, i, cap) == [JoinParagraphs(group)]
    decreases |group| - i
  {
    if i == |group| {
      assert group[..i] == group;
    } else {
      var p, next := group[i], group[..i + 1];
      assert next == group[..i] + [p] && group == next + group[i + 1..];
      WeightAppend(next, group[i + 1..]);
      WeightAppend(group[..i], [p]);
      WeightOfGroup(group);
      WeightOfGroup(next);
      WeightOne(p);
      FittingGroupIsOneChunk(group, i + 1, cap);
    }
  }

  /** Every chunk is a fixed point: chunking it again, with the same cap, gives just that chunk. */
  lemma {:induction false} ChunksAreFixedPoints(text: string, maxBytes: nat, chunk: string)
    requires chunk in Chunks(text, maxBytes)
    ensures Chunks(chunk, maxBytes) == [chunk]
  {
    ChunksAreWellFormed(text, maxBytes, chunk);
    var group :| IsGroup(group, Cap(maxBytes)) && chunk == JoinParagraphs(group);
    ParagraphsOfJoin(group);
    FittingGroupIsOneChunk(group, 0, Cap(maxBytes));
    assert group[..0] == [];
  }

  /******* Greedy packing uses the fewest chunks *******/

  function Flatten(groups: seq<seq<string>>): seq<string> {
    if groups == [] then [] else groups[0] + Flatten(groups[1..])
  }

  /** Non-empty groups of consecutive paragraphs, each within the cap when joined. */
  predicate IsPacking(groups: seq<seq<string>>, paras: seq<string>, cap: nat) {
    && Flatten(groups) == paras
    && forall k :: 0 <= k < |groups| ==> groups[k] != [] && Bytes(JoinParagraphs(groups[k])) <= cap
  }

  predicate NoneOversized(paras: seq<string>, cap: nat) {
    forall k :: 0 <= k < |paras| ==> Bytes(paras[k]) <= cap
  }

  /** A rival packing in progress: `held` is closed with `rest`, then come the groups of `later`. */
  predicate Rival(held: seq<string>, rest: seq<string>, later: seq<seq<string>>, paras: seq<string>, i: nat, cap: nat)
    requires i <= |paras|
  {
    && held != [] && Weight(held) + Weight(rest) <= cap + 2
    && rest + Flatten(later) == paras[i..]
    && forall k :: 0 <= k < |later| ==> later[k] != [] && Weight(later[k]) <= cap + 2
  }

  /** The rival takes paragraph `i`, into the group it holds or as the first of its next group. */
  lemma {:induction false} RivalSteps(held: seq<string>, rest: seq<string>, later: seq<seq<string>>, paras: seq<string>,
                                      i: nat, cap: nat)
    requires i < |paras| && Rival(held, rest, later, paras, i, cap)
    ensures rest != [] ==> rest[0] == paras[i] && Rival(held + [paras[i]], rest[1..], later, paras, i + 1, cap)
    ensures rest == [] ==> later != [] && Rival([paras[i]], later[0][1..], later[1..], paras, i + 1, cap)
  {
    var p := paras[i];
    assert paras[i..][0] == p && paras[i..][1..] == paras[i + 1..];
    WeightOne(p);
    if rest != [] {
      assert (rest + Flatten(later))[0] == rest[0] && (rest + Flatten(later))[1..] == rest[1..] + Flatten(later);
      WeightAppend(held, [p]);
    } else {
      assert rest + Flatten(later) == Flatten(later);
      assert (later[0] + Flatten(later[1..]))[1..] == later[0][1..] + Flatten(later[1..]);
    }
  }

  /** The greedy packing's next move, in weights. */
  lemma {:induction false} GreedySteps(open: seq<string>, paras: seq<string>, i: nat, cap: nat)
    requires i < |paras| && Bytes(paras[i]) <= cap && open != []
    ensures var p := paras[i];
            ChunksFrom(open, paras, i, cap)
            == if Weight(open) + Bytes(p) > cap then Flush(open) + ChunksFrom([p], paras, i + 1, cap)
               else ChunksFrom(open + [p], paras, i + 1, cap)
  {
    WeightOfGroup(open + [paras[i]]);
    WeightAppend(open, [paras[i]]);
    WeightOne(paras[i]);
  }

  /** A greedy packing whose buffer is no heavier than what the rival holds needs no more chunks. */
  lemma {:induction false} GreedyAhead(open: seq<string>, held: seq<string>, rest: seq<string>, later: seq<seq<string>>,
                                       paras: seq<string>, i: nat, cap: nat)
    requires i <= |paras| && NoneOversized(paras, cap) && Rival(held, rest, later, paras, i, cap)
    requires open != [] && Weight(open) <= Weight(held)
    ensures |ChunksFrom(open, paras, i, cap)| <= 1 + |later|
    decreases |paras| - i
  {
    if i < |paras| {
      var p := paras[i];
      GreedySteps(open, paras, i, cap);
      RivalSteps(held, rest, later, paras, i, cap);
      WeightOne(p);
      if rest != [] {
        assert rest == [p] + rest[1..];
        WeightAppend([p], rest[1..]);
        WeightAppend(open, [p]);
        WeightAppend(held, [p]);
        GreedyAhead(open + [p], held + [p], rest[1..], later, paras, i + 1, cap);
      } else if Weight(open) + Bytes(p) > cap {
        GreedyAhead([p], [p], later[0][1..], later[1..], paras, i + 1, cap);
      } else {
        GreedyBehind(open + [p], [p], later[0][1..], later[1..], paras, i + 1, cap);
      }
    }
  }

  /** Whatever the greedy packing has buffered, it needs at most one chunk more than the rival. */
  lemma {:induction false} GreedyBehind(open: seq<string>, held: seq<string>, rest: seq<string>,
                                        later: seq<seq<string>>, paras: seq<string>, i: nat, cap: nat)
    requires i <= |paras| && NoneOversized(paras, cap) && Rival(held, rest, later, paras, i, cap)
    requires open != []
    ensures |ChunksFrom(open, paras, i, cap)| <= 2 + |later|
    decreases |paras| - i
  {
    if i < |paras| {
      var p := paras[i];
      GreedySteps(open, paras, i, cap);
      RivalSteps(held, rest, later, paras, i, cap);
      WeightOne(p);
      if rest != [] {
        WeightAppend(held, [p]);
        if Weight(open) + Bytes(p) > cap {
          GreedyAhead([p], held + [p], rest[1..], later, paras, i + 1, cap);
        } else {
          GreedyBehind(open + [p], held + [p], rest[1..], later, paras, i + 1, cap);
        }
      } else if Weight(open) + Bytes(p) > cap {
        GreedyAhead([p], [p], later[0][1..], later[1..], paras, i + 1, cap);
      } else {
        GreedyBehind(open + [p], [p], later[0][1..], later[1..], paras, i + 1, cap);
      }
    }
  }

  /** No order-preserving packing of the paragraphs has fewer groups than the greedy one has chunks. */
  lemma {:induction false} GreedyIsOptimal(paras: seq<string>, cap: nat, groups: seq<seq<string>>)
    requires NoneOversized(paras, cap) && IsPacking(groups, paras, cap)
    ensures |ChunksFrom([], paras, 0, cap)| <= |groups|
  {
    if groups != [] {
      var first, p := groups[0], groups[0][0];
      assert paras[0] == p && [] + [p] == [p];
      forall k | 0 <= k < |groups| ensures Weight(groups[k]) <= cap + 2 { WeightOfGroup(groups[k]); }
      assert first == [p] + first[1..];
      WeightAppend([p], first[1..]);
      assert paras[1..] == first[1..] + Flatten(groups[1..]);
      GreedyAhead([p], [p], first[1..], groups[1..], paras, 1, cap);
    }
  }

  /** The groups behind the chunks, when no paragraph is over the cap. */
  function GroupsFrom(open: seq<string>, paras: seq<string>, i: nat, cap: nat): seq<seq<string>>
    requires i <= |paras|
    decreases |paras| - i
  {
    if i == |paras| then if open == [] then [] else [open]
    else if open != [] && Bytes(JoinParagraphs(open + [paras[i]])) > cap then
      [open] + GroupsFrom([paras[i]], paras, i + 1, cap)
    else GroupsFrom(open + [paras[i]], paras, i + 1, cap)
  }

  function JoinGroups(groups: seq<seq<string>>): seq<string> {
    if groups == [] then [] else [JoinParagraphs(groups[0])] + JoinGroups(groups[1..])
  }

  lemma {:induction false} PackingCons(open: seq<string>, rest: seq<seq<string>>, paras: seq<string>, cap: nat)
    requires IsPacking(rest, paras, cap) && open != [] && Bytes(JoinParagraphs(open)) <= cap
    ensures IsPacking([open] + rest, open + paras, cap)
    ensures JoinGroups([open] + rest) == [JoinParagraphs(open)] + JoinGroups(rest)
  {
    assert ([open] + rest)[1..] == rest;
  }

  lemma {:induction false} ChunksAreGroups(open: seq<string>, paras: seq<string>, i: nat, cap: nat)
    requires i <= |paras| && NoneOversized(paras, cap)
    requires open == [] || Bytes(JoinParagraphs(open)) <= cap
    ensures ChunksFrom(open, paras, i, cap) == JoinGroups(GroupsFrom(open, paras, i, cap))
    ensures IsPacking(GroupsFrom(open, paras, i, cap), open + paras[i..], cap)
    decreases |paras| - i
  {
    if i == |paras| {
      assert open + paras[i..] == open;
      if open != [] {
        PackingCons(open, [], [], cap);
        assert [open] + [] == [open] && open + [] == open;
      }
    } else {
      var p, later := paras[i], paras[i + 1..];
      assert paras[i..] == [p] + later;
      if open != [] && Bytes(JoinParagraphs(open + [p])) > cap {
        ChunksAreGroups([p], paras, i + 1, cap);
        PackingCons(open, GroupsFrom([p], paras, i + 1, cap), [p] + later, cap);
      } else {
        ChunksAreGroups(open + [p], paras, i + 1, cap);
        assert open == [] ==> open + [p] == [p];
        AppendAssociates(open, [p], later);
      }
    }
  }

  /**
   When no paragraph is over the cap, the chunks are a packing of the paragraphs, in order, and no
   order-preserving packing uses fewer.
   */
  lemma {:induction false} ChunksAreFewest(text: string, maxBytes: nat, rival: seq<seq<string>>)
    requires NoneOversized(Paragraphs(text), Cap(maxBytes))
    requires IsPacking(rival, Paragraphs(text), Cap(maxBytes))
    ensures |Chunks(text, maxBytes)| <= |rival|
    ensures exists groups :: IsPacking(groups, Paragraphs(text), Cap(maxBytes))
                             && Chunks(text, maxBytes) == JoinGroups(groups)
  {
    var paras, cap := Paragraphs(text), Cap(maxBytes);
    GreedyIsOptimal(paras, cap, rival);
    ChunksAreGroups([], paras, 0, cap);
    assert [] + paras[0..] == paras;
  }

  /******* An oversized paragraph, wherever it stands *******/

  lemma {:induction false} FirstPart(parts: seq<string>, s: string, i: nat)
    requires i <= |s| && parts != [] && Concat(parts) == s[i..]
    ensures i + |parts[0]| <= |s| && parts[0] == s[i..i + |parts[0]|]
    ensures Concat(parts[1..]) == s[i + |parts[0]|..]
  {
    var n := |parts[0]|;
    assert parts[0] == (parts[0] + Concat(parts[1..]))[..n] == s[i..][..n];
    assert Concat(parts[1..]) == (parts[0] + Concat(parts[1..]))[n..] == s[i..][n..];
  }

  /** The first of several maximal parts is as long as the cap allows. */
  lemma {:induction false} FirstPartIsCut(parts: seq<string>, s: string, i: nat, cap: nat)
    requires i < |s| && cap >= 4 && parts != [] && Concat(parts) == s[i..] && Maximal(parts, cap)
    ensures |parts[0]| == NextCut(s, i, cap)
  {
    FirstPart(parts, s, i);
    var j := i + |parts[0]|;
    OffsetsMeasure(s, i, j);
    FallbackNeverTaken(s, i, cap);
    FitCountMaximal(s, i, cap, j);
    if j < |s| {
      assert |parts| > 1;
      FirstPart(parts[1..], s, j);
      assert parts[1][0] == s[j];
      FitCountMaximal(s, i, cap, j + 1);
    }
  }

  /** There is only one way to tile a text with maximal parts. */
  lemma {:induction false} TilingIsUnique(parts: seq<string>, s: string, i: nat, cap: nat)
    requires i <= |s| && cap >= 4 && Concat(parts) == s[i..] && Maximal(parts, cap)
    ensures parts == Segments(s, i, cap)
    decreases |s| - i
  {
    if i == |s| {
      if parts != [] { FirstPart(parts, s, i); }
    } else {
      FirstPart(parts, s, i);
      FirstPartIsCut(parts, s, i, cap);
      var j := i + |parts[0]|;
      assert forall k :: 0 <= k < |parts[1..]| ==> parts[1..][k] == parts[k + 1];
      TilingIsUnique(parts[1..], s, j, cap);
      assert parts == [parts[0]] + parts[1..];
    }
  }

  /** A hard split yields the trimmed parts, but for blank ones, of the one tiling with maximal parts. */
  lemma {:induction false} PiecesAreTheTiling(s: string, cap: nat, parts: seq<string>)
    requires cap >= 4 && Concat(parts) == s && Maximal(parts, cap)
    ensures Pieces(s, cap) == TrimAll(parts)
  {
    assert s[0..] == s;
    TilingIsUnique(parts, s, 0, cap);
  }

  /** What `TrimAll` keeps: of each part that is not blank the trimmed text, in order. */
  lemma {:induction false} TrimAllMeaning(before: seq<string>, part: string, after: seq<string>)
    ensures TrimAll([]) == []
    ensures TrimAll(before + [part] + after)
         == TrimAll(before) + (if AllWhitespace(part) then [] else [Trim(part)]) + TrimAll(after)
  {
    if before == [] {
      assert before + [part] + after == [part] + after;
      if AllWhitespace(part) { TrimAllWhitespace(part); }
      var lead, trail := TrimMeaning(part);
      if Trim(part) == "" { assert part == lead + trail; }
    } else {
      assert (before + [part] + after)[1..] == before[1..] + [part] + after;
      TrimAllMeaning(before[1..], part, after);
      AppendAssociates(Flushed(before[0]), TrimAll(before[1..]), if AllWhitespace(part) then [] else [Trim(part)]);
      AppendAssociates(Flushed(before[0]), TrimAll(before[1..])
                                           + (if AllWhitespace(part) then [] else [Trim(part)]), TrimAll(after));
    }
  }

  /** Chunks depend on the paragraphs still to come only. */
  lemma {:induction false} ChunksOfTail(open: seq<string>, paras: seq<string>, i: nat, cap: nat)
    requires i <= |paras|
    ensures ChunksFrom(open, paras, i, cap) == ChunksFrom(open, paras[i..], 0, cap)
  {
    ChunksShift(open, paras, i, paras[i..], 0, cap);
  }

  lemma {:induction false} ChunksShift(open: seq<string>, a: seq<string>, i: nat, b: seq<string>, j: nat, cap: nat)
    requires i <= |a| && j <= |b| && a[i..] == b[j..]
    ensures ChunksFrom(open, a, i, cap) == ChunksFrom(open, b, j, cap)
    decreases |a| - i
  {
    assert |a| - i == |a[i..]| == |b[j..]| == |b| - j;
    if i < |a| {
      var p := a[i];
      assert p == a[i..][0] == b[j..][0] == b[j];
      assert a[i + 1..] == a[i..][1..] == b[j..][1..] == b[j + 1..];
      if Bytes(p) > cap {
        ChunksShift([], a, i + 1, b, j + 1, cap);
      } else if open != [] && Bytes(JoinParagraphs(open + [p])) > cap {
        ChunksShift([p], a, i + 1, b, j + 1, cap);
      } else {
        ChunksShift(open + [p], a, i + 1, b, j + 1, cap);
      }
    }
  }

  /** An oversized paragraph parts what comes before from what comes after. */
  lemma {:induction false} OversizedParts(open: seq<string>, before: seq<string>, i: nat, big: string,
                                          after: seq<string>, cap: nat)
    requires i <= |before| && Bytes(big) > cap
    ensures ChunksFrom(open, before + [big] + after, i, cap)
         == ChunksFrom(open, before, i, cap) + Pieces(big, cap) + ChunksFrom([], after, 0, cap)
    decreases |before| - i
  {
    var all := before + [big] + after;
    if i == |before| {
      assert all[i] == big && all[i + 1..] == after;
      ChunksOfTail([], all, i + 1, cap);
      AppendAssociates(Flush(open), Pieces(big, cap), ChunksFrom([], after, 0, cap));
    } else {
      OversizedStep(open, before, i, big, after, cap);
    }
  }

  lemma {:induction false} OversizedStep(open: seq<string>, before: seq<string>, i: nat, big: string,
                                         after: seq<string>, cap: nat)
    requires i < |before| && Bytes(big) > cap
    ensures ChunksFrom(open, before + [big] + after, i, cap)
         == ChunksFrom(open, before, i, cap) + Pieces(big, cap) + ChunksFrom([], after, 0, cap)
    decreases |before| - i, 0
  {
    var p, all := before[i], before + [big] + after;
    var pieces, last := Pieces(big, cap), ChunksFrom([], after, 0, cap);
    assert all[i] == p;
    if Bytes(p) > cap {
      OversizedParts([], before, i + 1, big, after, cap);
      var rest := ChunksFrom([], before, i + 1, cap);
      FourParts(Flush(open), Pieces(p, cap), rest, pieces, last);
    } else if open != [] && Bytes(JoinParagraphs(open + [p])) > cap {
      OversizedParts([p], before, i + 1, big, after, cap);
      FourParts(Flush(open), [], ChunksFrom([p], before, i + 1, cap), pieces, last);
    } else {
      OversizedParts(open + [p], before, i + 1, big, after, cap);
    }
  }

  lemma {:induction false} FourParts<T>(a: seq<T>, b: seq<T>, c: seq<T>, d: seq<T>, e: seq<T>)
    ensures a + (b + (c + d + e)) == a + (b + c) + d + e
    ensures a + (c + d + e) == a + c + d + e
  {
  }

  /** The chunks of a list of paragraphs, on the text that has them. */
  lemma {:induction false} ChunksOfJoin(paras: seq<string>, maxBytes: nat)
    requires AreParagraphs(paras)
    ensures Chunks(JoinParagraphs(paras), maxBytes) == ChunksFrom([], paras, 0, Cap(maxBytes))
  {
    if paras == [] {
      assert Trim("") == "" && SplitBlank("") == [""] && [""][1..] == [];
    } else {
      ParagraphsOfJoin(paras);
    }
  }

  /** The larger of the two. */
  predicate IsCap(cap: nat, maxBytes: nat) {
    cap >= 4 && cap >= maxBytes && (cap == 4 || cap == maxBytes)
  }

  /**
   In any text, a paragraph over the cap becomes the trimmed parts, but for blank ones, of its tiling
   with maximal parts, and the paragraphs before and after it are chunked as if each were all the text.
   */
  lemma {:induction false} OversizedParagraph(text: string, maxBytes: nat, cap: nat, i: nat, parts: seq<string>)
    requires IsCap(cap, maxBytes) && i < |Paragraphs(text)| && Bytes(Paragraphs(text)[i]) > cap
    requires Concat(parts) == Paragraphs(text)[i] && Maximal(parts, cap)
    ensures var paras := Paragraphs(text);
            Chunks(text, maxBytes)
            == Chunks(JoinParagraphs(paras[..i]), maxBytes) + TrimAll(parts)
               + Chunks(JoinParagraphs(paras[i + 1..]), maxBytes)
  {
    var paras := Paragraphs(text);
    ParagraphsAreParagraphs(text);
    PiecesAreTheTiling(paras[i], cap, parts);
    assert paras == paras[..i] + [paras[i]] + paras[i + 1..];
    OversizedParts([], paras[..i], 0, paras[i], paras[i + 1..], cap);
    ChunksOfJoin(paras[..i], maxBytes);
    ChunksOfJoin(paras[i + 1..], maxBytes);
  }

  /******* The packing is the greedy one *******/

  /** A packing in which no group could take the first paragraph of the next. */
  predicate IsGreedy(groups: seq<seq<string>>, paras: seq<string>, cap: nat) {
    && IsPacking(groups, paras, cap)
    && forall k :: 0 <= k < |groups| - 1 ==> Bytes(JoinParagraphs(groups[k] + [groups[k + 1][0]])) > cap
  }

  lemma {:induction false} GroupStaysOpen(group: seq<string>, n: nat, cap: nat)
    requires 0 < n <= |group| && Bytes(JoinParagraphs(group)) <= cap
    ensures Bytes(JoinParagraphs(group[..n])) <= cap
  {
    assert group == group[..n] + group[n..];
    WeightAppend(group[..n], group[n..]);
    WeightOfGroup(group);
    WeightOfGroup(group[..n]);
  }

  lemma {:induction false} SingleFits(p: string, group: seq<string>, n: nat, cap: nat)
    requires n < |group| && group[n] == p && Bytes(JoinParagraphs(group)) <= cap
    ensures Bytes(p) <= cap
  {
    assert group == group[..n] + [p] + group[n + 1..];
    WeightAppend(group[..n] + [p], group[n + 1..]);
    WeightAppend(group[..n], [p]);
    WeightOne(p);
    WeightOfGroup(group);
  }

  lemma {:induction false} NextOf<T>(s: seq<T>, i: nat, x: T, rest: seq<T>)
    requires i <= |s| && s[i..] == [x] + rest
    ensures i < |s| && s[i] == x && s[i + 1..] == rest
  {
    assert s[i] == s[i..][0] && s[i + 1..] == s[i..][1..];
  }

  lemma {:induction false} FirstAndRest<T>(group: seq<T>, n: nat, later: seq<T>)
    requires n < |group|
    ensures group[n..] + later == [group[n]] + (group[n + 1..] + later) && group[..n] + [group[n]] == group[..n + 1]
  {
  }

  lemma {:induction false} GreedyRest(groups: seq<seq<string>>, cap: nat)
    requires |groups| > 1 && IsGreedy(groups, Flatten(groups), cap)
    ensures groups[1] != [] && IsGreedy(groups[1..], Flatten(groups[1..]), cap)
    ensures Flatten(groups[1..]) == groups[1] + Flatten(groups[2..])
    ensures Bytes(JoinParagraphs(groups[0] + [groups[1][0]])) > cap
  {
    assert forall k :: 0 <= k < |groups[1..]| ==> groups[1..][k] == groups[k + 1];
    assert groups[1..][1..] == groups[2..];
  }

  /** Part way through the first group of a greedy packing. */
  lemma {:induction false} GreedyFollows(groups: seq<seq<string>>, n: nat, paras: seq<string>, i: nat, cap: nat)
    requires groups != [] && 0 < n <= |groups[0]| && i <= |paras|
    requires paras[i..] == groups[0][n..] + Flatten(groups[1..]) && IsGreedy(groups, Flatten(groups), cap)
    ensures ChunksFrom(groups[0][..n], paras, i, cap) == JoinGroups(groups)
    decreases |paras| - i
  {
    var first, later := groups[0], Flatten(groups[1..]);
    if n < |first| {
      FirstAndRest(first, n, later);
      NextOf(paras, i, first[n], first[n + 1..] + later);
      GroupStaysOpen(first, n + 1, cap);
      SingleFits(first[n], first, n, cap);
      GreedyFollows(groups, n + 1, paras, i + 1, cap);
    } else if |groups| == 1 {
      assert first[..n] == first && paras[i..] == [];
    } else {
      var second := groups[1];
      GreedyRest(groups, cap);
      assert first[..n] == first && paras[i..] == later;
      FirstAndRest(second, 0, Flatten(groups[2..]));
      assert second[0..] == second && second[..0] == [] && [] + [second[0]] == [second[0]];
      NextOf(paras, i, second[0], second[1..] + Flatten(groups[2..]));
      SingleFits(second[0], second, 0, cap);
      assert groups[1..][1..] == groups[2..];
      GreedyFollows(groups[1..], 1, paras, i + 1, cap);
    }
  }

  /** When no paragraph is over the cap, the chunks are the groups of the one greedy packing, joined. */
  lemma {:induction false} ChunksAreTheGreedyPacking(text: string, maxBytes: nat, cap: nat, groups: seq<seq<string>>)
    requires IsCap(cap, maxBytes) && IsGreedy(groups, Paragraphs(text), cap)
    ensures Chunks(text, maxBytes) == JoinGroups(groups)
  {
    if groups != [] {
      var paras, p := Paragraphs(text), groups[0][0];
      assert paras == groups[0] + Flatten(groups[1..]);
      assert paras[1..] == groups[0][1..] + Flatten(groups[1..]) && [] + [p] == [p] == groups[0][..1];
      SingleFits(p, groups[0], 0, cap);
      GreedyFollows(groups, 1, paras, 1, cap);
    }
  }

  /******* Splitting at blank lines *******/

  /** No part but the last ends in a line break. */
  predicate EndsClear(parts: seq<string>) {
    forall k :: 0 <= k < |parts| - 1 && parts[k] != "" ==> parts[k][|parts[k]| - 1] != '\n'
  }

  /** Each separator is the first that could be taken. */
  predicate IsLeftmost(parts: seq<string>) {
    (forall k :: 0 <= k < |parts| ==> NoBlank(parts[k])) && EndsClear(parts)
  }

  /** A character in front of the first part is one in front of the joined text. */
  lemma {:induction false} JoinWithFirst(c: char, parts: seq<string>, separator: string)
    requires parts != []
    ensures Join([[c] + parts[0]] + parts[1..], separator) == [c] + Join(parts, separator)
  {
    var longer := [[c] + parts[0]] + parts[1..];
    assert longer[1..] == parts[1..];
    if |parts| > 1 {
      var rest := Join(parts[1..], separator);
      assert ([c] + parts[0]) + separator + rest == [c] + (parts[0] + separator + rest);
    }
  }

  lemma {:induction false} ClearWithFirst(c: char, parts: seq<string>)
    requires parts != [] && EndsClear(parts) && (|parts| > 1 && parts[0] == "" ==> c != '\n')
    ensures EndsClear([[c] + parts[0]] + parts[1..])
  {
  }

  lemma {:induction false} ClearWithEmpty(parts: seq<string>)
    requires EndsClear(parts)
    ensures EndsClear([""] + parts)
  {
  }

  /** An empty first part puts the separator at the start of the text. */
  lemma {:induction false} StartsWithBreak(parts: seq<string>)
    requires |parts| > 1 && parts[0] == ""
    ensures Join(parts, "\n\n") != "" && Join(parts, "\n\n")[0] == '\n'
  {
    assert Join(parts, "\n\n") == "" + "\n\n" + Join(parts[1..], "\n\n");
  }

  lemma {:induction false} SplitIsLeftmost(text: string)
    ensures Join(SplitBlank(text), "\n\n") == text && IsLeftmost(SplitBlank(text))
  {
    SplitParts(text);
    if |text| < 2 {
    } else if text[0] == '\n' && text[1] == '\n' {
      var rest := SplitBlank(text[2..]);
      SplitIsLeftmost(text[2..]);
      ClearWithEmpty(rest);
      assert ([""] + rest)[1..] == rest;
      assert text == "" + "\n\n" + text[2..];
    } else {
      var rest := SplitBlank(text[1..]);
      SplitIsLeftmost(text[1..]);
      if |rest| > 1 && rest[0] == "" { StartsWithBreak(rest); }
      ClearWithFirst(text[0], rest);
      JoinWithFirst(text[0], rest, "\n\n");
      assert text == [text[0]] + text[1..];
    }
  }

  /** The split is the only one of its kind: joined it gives the text, and every separator is the first possible. */
  lemma {:induction false} SplitIsUnique(parts: seq<string>)
    requires parts != [] && IsLeftmost(parts)
    ensures SplitBlank(Join(parts, "\n\n")) == parts
    ensures Paragraphs(Join(parts, "\n\n")) == TrimAll(parts)
  {
    var first := parts[0];
    if |parts| == 1 {
      SplitNoBlank(first);
    } else {
      assert forall k :: 0 <= k < |parts[1..]| ==> parts[1..][k] == parts[k + 1];
      SplitIsUnique(parts[1..]);
      var rest := Join(parts[1..], "\n\n");
      assert parts == [first] + parts[1..];
      if first == "" {
        var whole := first + "\n\n" + rest;
        assert whole[2..] == rest && whole[0] == '\n' && whole[1] == '\n';
      } else {
        SplitParagraph(first, rest);
      }
    }
  }

  lemma {:induction false} SplitNoBlank(s: string)
    requires NoBlank(s)
    ensures SplitBlank(s) == [s]
  {
    if |s| >= 2 {
      SliceNoBlank(s, 1, |s|);
      SplitNoBlank(s[1..]);
      assert [s[0]] + s[1..] == s;
    }
  }
}
