/** Scope paths: normalisation, ancestors, and the three implementations of a scope filter. */
module Scope {
  import opened Wrappers
  import opened Text

  const MAX_SEGMENTS := 8
  const MAX_SEGMENT_BYTES := 64
  const MAX_SCOPE_BYTES := 512

  datatype Rule =
    | RawTooLong | NoSegment | EmptySegment | DotSegment | SegmentTooLong | BadCharacter
    | TooManySegments | PathTooLong

  /******* Validation *******/

  function LowerChar(c: char): char {
    if 'A' <= c <= 'Z' then c - 'A' + 'a' else c
  }

  /** `to_ascii_lowercase`. */
  function Lower(s: string): (t: string)
    ensures |t| == |s|
  {
    if s == "" then "" else [LowerChar(s[0])] + Lower(s[1..])
  }

  /** `trim_matches('/')`. */
  function TrimSlashes(s: string): string
    decreases |s|
  {
    if s != "" && s[0] == '/' then TrimSlashes(s[1..])
    else if s != "" && s[|s| - 1] == '/' then TrimSlashes(s[..|s| - 1])
    else s
  }

  predicate IsScopeChar(c: char) {
    'a' <= c <= 'z' || '0' <= c <= '9' || c == '.' || c == '_' || c == '-'
  }

  predicate AllScopeChars(s: string) {
    forall i :: 0 <= i < |s| ==> IsScopeChar(s[i])
  }

  /** The first rule a segment breaks. */
  function SegmentFault(segment: string): Option<Rule> {
    if segment == "" then Some(EmptySegment)
    else if segment == "." || segment == ".." then Some(DotSegment)
    else if Bytes(segment) > MAX_SEGMENT_BYTES then Some(SegmentTooLong)
    else if !AllScopeChars(Lower(segment)) then Some(BadCharacter)
    else None
  }

  /** The segments from `i` on, checked in order and lower-cased behind those already `done`. */
  function LowerSegments(done: seq<string>, segments: seq<string>, i: nat): Result<seq<string>, Rule>
    requires i <= |segments|
    decreases |segments| - i
  {
    if i == |segments| then Ok(done)
    else
      match SegmentFault(segments[i])
      case Some(rule) => Err(rule)
      case None => LowerSegments(done + [Lower(segments[i])], segments, i + 1)
  }

  function Normalise(raw: string): Result<string, Rule> {
    if Bytes(raw) > MAX_SCOPE_BYTES + 2 then Err(RawTooLong)
    else if TrimSlashes(raw) == "" then Err(NoSegment)
    else
      match LowerSegments([], Split(TrimSlashes(raw), '/'), 0)
      case Err(rule) => Err(rule)
      case Ok(segments) =>
        if |segments| > MAX_SEGMENTS then Err(TooManySegments)
        else if Bytes(Join(segments, "/")) > MAX_SCOPE_BYTES then Err(PathTooLong)
        else Ok(Join(segments, "/"))
  }

  /** `validate`. */
  method Validate(raw: string) returns (r: Result<string, Rule>)
    ensures r == Normalise(raw)
  {
    if Bytes(raw) > MAX_SCOPE_BYTES + 2 { return Err(RawTooLong); }
    var trimmed := TrimSlashes(raw);
    if trimmed == "" { return Err(NoSegment); }
    var parts := Split(trimmed, '/');
    var segments: seq<string> := [];
    var i := 0;
    while i < |parts|
      invariant 0 <= i <= |parts|
      invariant LowerSegments(segments, parts, i) == LowerSegments([], parts, 0)
    {
      var segment := parts[i];
      if segment == "" { return Err(EmptySegment); }
      if segment == "." || segment == ".." { return Err(DotSegment); }
      if Bytes(segment) > MAX_SEGMENT_BYTES { return Err(SegmentTooLong); }
      var lower := Lower(segment);
      if !AllScopeChars(lower) { return Err(BadCharacter); }
      segments := segments + [lower];
      i := i + 1;
    }
    if |segments| > MAX_SEGMENTS { return Err(TooManySegments); }
    var joined := Join(segments, "/");
    if Bytes(joined) > MAX_SCOPE_BYTES { return Err(PathTooLong); }
    return Ok(joined);
  }

  /******* Normal forms *******/

  predicate IsSegment(segment: string) {
    segment != "" && segment != "." && segment != ".." && |segment| <= MAX_SEGMENT_BYTES && AllScopeChars(segment)
  }

  /** One to eight segments of `[a-z0-9._-]`, none of them `.` or `..`, at most 512 bytes in all. */
  predicate IsNormal(scope: string) {
    var segments := Split(scope, '/');
    && |segments| <= MAX_SEGMENTS && |scope| <= MAX_SCOPE_BYTES
    && forall i :: 0 <= i < |segments| ==> IsSegment(segments[i])
  }

  lemma {:induction false} LowerAppend(a: string, b: string)
    ensures Lower(a + b) == Lower(a) + Lower(b)
  {
    if a == "" {
      assert a + b == b;
    } else {
      assert (a + b)[1..] == a[1..] + b;
      LowerAppend(a[1..], b);
    }
  }

  lemma {:induction false} LowerAt(s: string, i: nat)
    requires i < |s|
    ensures Lower(s)[i] == LowerChar(s[i])
  {
    if i > 0 { LowerAt(s[1..], i - 1); }
  }

  lemma {:induction false} LowerBytes(s: string)
    ensures Bytes(Lower(s)) == Bytes(s)
  {
    if s != "" { LowerBytes(s[1..]); }
  }

  /** A string without ASCII capitals is its own lower-case form. */
  predicate NoCapitals(s: string) {
    forall i :: 0 <= i < |s| ==> !('A' <= s[i] <= 'Z')
  }

  lemma {:induction false} LowerNoCapitals(s: string)
    requires NoCapitals(s)
    ensures Lower(s) == s
  {
    if s != "" { LowerNoCapitals(s[1..]); }
  }

  function LowerEach(parts: seq<string>): (lowered: seq<string>)
    ensures |lowered| == |parts|
    ensures forall i :: 0 <= i < |parts| ==> lowered[i] == Lower(parts[i])
  {
    if parts == [] then [] else [Lower(parts[0])] + LowerEach(parts[1..])
  }

  lemma {:induction false} SplitLower(s: string)
    ensures Split(Lower(s), '/') == LowerEach(Split(s, '/'))
  {
    if s != "" {
      assert Lower(s)[1..] == Lower(s[1..]);
      assert LowerChar(s[0]) == '/' <==> s[0] == '/';
      SplitLower(s[1..]);
      var rest := Split(s[1..], '/');
      if s[0] != '/' {
        var first := [s[0]] + rest[0];
        assert Lower(first) == [LowerChar(s[0])] + Lower(rest[0]) by { assert first[1..] == rest[0]; }
        assert LowerEach(rest)[1..] == LowerEach(rest[1..]);
        assert Split(s, '/')[1..] == rest[1..];
      } else {
        assert Split(s, '/')[1..] == rest;
      }
    }
  }

  lemma {:induction false} SegmentFaultMeaning(segment: string)
    ensures SegmentFault(segment) == None <==> IsSegment(Lower(segment))
  {
    var lower := Lower(segment);
    LowerBytes(segment);
    if segment == "." || segment == ".." { LowerNoCapitals(segment); }
    if lower == "." { LowerAt(segment, 0); assert segment == "."; }
    if lower == ".." { LowerAt(segment, 0); LowerAt(segment, 1); assert segment == ".."; }
    if AllScopeChars(lower) {
      assert forall i :: 0 <= i < |lower| ==> IsScopeChar(lower[i]) && lower[i] < '\U{80}';
      BytesAscii(lower);
    }
  }

  lemma {:induction false} LowerEachStep(segments: seq<string>, i: nat)
    requires i < |segments|
    ensures LowerEach(segments[i..]) == [Lower(segments[i])] + LowerEach(segments[i + 1..])
  {
    assert segments[i..][1..] == segments[i + 1..];
  }

  lemma {:induction false} LowerSegmentsAppend(done: seq<string>, segments: seq<string>, i: nat)
    requires i <= |segments| && LowerSegments(done, segments, i).Ok?
    ensures LowerSegments(done, segments, i).value == done + LowerEach(segments[i..])
    decreases |segments| - i
  {
    if i < |segments| {
      var head := Lower(segments[i]);
      LowerSegmentsAppend(done + [head], segments, i + 1);
      LowerEachStep(segments, i);
      AppendAssociates(done, [head], LowerEach(segments[i + 1..]));
    }
  }

  lemma {:induction false} LowerSegmentsMeaning(done: seq<string>, segments: seq<string>, i: nat)
    requires i <= |segments|
    ensures var r := LowerSegments(done, segments, i);
            && (r.Ok? <==> forall k :: i <= k < |segments| ==> IsSegment(Lower(segments[k])))
            && (r.Ok? ==> r.value == done + LowerEach(segments[i..]))
    decreases |segments| - i
  {
    if LowerSegments(done, segments, i).Ok? { LowerSegmentsAppend(done, segments, i); }
    if i < |segments| {
      SegmentFaultMeaning(segments[i]);
      LowerSegmentsMeaning(done + [Lower(segments[i])], segments, i + 1);
    }
  }

  lemma {:induction false} NormalIsAscii(scope: string)
    requires IsNormal(scope)
    ensures forall i :: 0 <= i < |scope| ==> IsScopeChar(scope[i]) || scope[i] == '/'
    ensures Bytes(scope) == |scope| && NoCapitals(scope)
  {
    SegmentsAreScopeChars(scope);
    BytesAscii(scope);
  }

  lemma {:induction false} SegmentsAreScopeChars(s: string)
    requires forall k :: 0 <= k < |Split(s, '/')| ==> AllScopeChars(Split(s, '/')[k])
    ensures forall i :: 0 <= i < |s| ==> IsScopeChar(s[i]) || s[i] == '/'
  {
    if s != "" {
      var rest := Split(s[1..], '/');
      if s[0] == '/' {
        assert forall k :: 0 <= k < |rest| ==> rest[k] == Split(s, '/')[k + 1];
      } else {
        var first := Split(s, '/')[0];
        assert first[0] == s[0];
        assert forall k :: 0 <= k < |rest[0]| ==> rest[0][k] == first[k + 1];
        assert forall k :: 1 <= k < |rest| ==> rest[k] == Split(s, '/')[k];
      }
      SegmentsAreScopeChars(s[1..]);
    }
  }

  lemma {:induction false} SplitEnds(s: string)
    requires s != ""
    ensures s[0] == '/' ==> Split(s, '/')[0] == ""
    ensures s[|s| - 1] == '/' ==> Split(s, '/')[|Split(s, '/')| - 1] == ""
  {
    if |s| > 1 { SplitEnds(s[1..]); }
  }

  lemma {:induction false} SegmentLoopMeaning(trimmed: string)
    ensures var r := LowerSegments([], Split(trimmed, '/'), 0);
            var segments := Split(Lower(trimmed), '/');
            && (r.Ok? <==> forall k :: 0 <= k < |segments| ==> IsSegment(segments[k]))
            && (r.Ok? ==> r.value == segments && Join(r.value, "/") == Lower(trimmed))
            && (r.Ok? ==> Bytes(Lower(trimmed)) == |trimmed|)
  {
    var parts := Split(trimmed, '/');
    LowerSegmentsMeaning([], parts, 0);
    SplitLower(trimmed);
    assert parts[0..] == parts && [] + LowerEach(parts) == LowerEach(parts);
    JoinOfSplit(Lower(trimmed), '/');
    if LowerSegments([], parts, 0).Ok? {
      SegmentsAreScopeChars(Lower(trimmed));
      BytesAscii(Lower(trimmed));
    }
  }

  /**
   What validation accepts and what it returns: a raw path within 514 bytes whose slash-trimmed
   lower-case form is normal, and that form. Hence every output is normal, and every normal form is
   its own output.
   */
  lemma {:induction false} ValidationMeaning(raw: string)
    ensures var candidate := Lower(TrimSlashes(raw));
            && (Normalise(raw).Ok? <==> Bytes(raw) <= MAX_SCOPE_BYTES + 2 && IsNormal(candidate))
            && (Normalise(raw).Ok? ==> Normalise(raw).value == candidate)
  {
    var candidate := Lower(TrimSlashes(raw));
    SegmentLoopMeaning(TrimSlashes(raw));
    if candidate == "" { assert !IsSegment(Split(candidate, '/')[0]); }
  }

  lemma {:induction false} NormalHasNoOuterSlash(scope: string)
    requires IsNormal(scope)
    ensures scope != "" && scope[0] != '/' && scope[|scope| - 1] != '/' && TrimSlashes(scope) == scope
  {
    assert IsSegment(Split(scope, '/')[0]);
    if scope != "" { SplitEnds(scope); }
  }

  lemma {:induction false} NormalFormsAreFixed(scope: string)
    requires IsNormal(scope)
    ensures Normalise(scope) == Ok(scope)
  {
    NormalHasNoOuterSlash(scope);
    NormalIsAscii(scope);
    LowerNoCapitals(scope);
    ValidationMeaning(scope);
  }

  /** Validating twice is validating once, and the accepted outputs are exactly the normal forms. */
  lemma {:induction false} ValidationIsIdempotent(raw: string)
    ensures Normalise(raw).Ok? ==> IsNormal(Normalise(raw).value) && Normalise(Normalise(raw).value) == Normalise(raw)
    ensures IsNormal(raw) <==> Normalise(raw) == Ok(raw)
  {
    ValidationMeaning(raw);
    if Normalise(raw).Ok? { NormalFormsAreFixed(Normalise(raw).value); }
    if IsNormal(raw) { NormalFormsAreFixed(raw); }
  }

  /******* Ancestors *******/

  /** The prefixes still to come after `path`, given the segments from `i` on. */
  function AncestorsFrom(path: string, segments: seq<string>, i: nat): seq<string>
    requires i <= |segments|
    decreases |segments| - i
  {
    if i == |segments| then []
    else
      var next := (if path == "" then "" else path + "/") + segments[i];
      [next] + AncestorsFrom(next, segments, i + 1)
  }

  function AncestorsOf(scope: string): seq<string> {
    AncestorsFrom("", Split(scope, '/'), 0)
  }

  /** `ancestors`. */
  method Ancestors(scope: string) returns (out: seq<string>)
    ensures out == AncestorsOf(scope)
  {
    var segments := Split(scope, '/');
    out := [];
    var acc := "";
    var i := 0;
    while i < |segments|
      invariant 0 <= i <= |segments|
      invariant out + AncestorsFrom(acc, segments, i) == AncestorsOf(scope)
    {
      if acc != "" {
        acc := acc + "/";
      }
      acc := acc + segments[i];
      AppendAssociates(out, [acc], AncestorsFrom(acc, segments, i + 1));
      out := out + [acc];
      i := i + 1;
    }
  }

  /** `path` is the scope itself or ends just before one of its slashes. */
  predicate Under(path: string, scope: string) {
    path == scope || path + "/" <= scope
  }

  lemma {:induction false} UnderSplits(path: string, segment: string, rest: string) returns (tail: string)
    requires '/' !in segment && Under(path, segment + "/" + rest) && path != segment
    ensures path == segment + "/" + tail && Under(tail, rest)
  {
    var scope := segment + "/" + rest;
    assert forall k :: 0 <= k < |segment| ==> scope[k] == segment[k] && segment[k] in segment;
    if path != scope { assert scope[|path|] == (path + "/")[|path|]; }
    assert path == scope[..|path|] && segment == scope[..|segment|];
    tail := path[|segment| + 1..];
    assert path == segment + "/" + tail;
    if path != scope {
      assert (path + "/")[|segment| + 1..] == tail + "/" && scope[|segment| + 1..] == rest;
      assert tail + "/" == rest[..|tail| + 1];
    } else {
      assert tail == rest;
    }
  }

  lemma {:induction false} UnderExtends(tail: string, segment: string, rest: string)
    ensures Under(segment, segment + "/" + rest)
    ensures Under(tail, rest) ==> Under(segment + "/" + tail, segment + "/" + rest)
  {
    var scope := segment + "/" + rest;
    assert scope[..|segment| + 1] == segment + "/";
    if tail + "/" <= rest {
      var path := segment + "/" + tail;
      assert path + "/" == segment + "/" + (tail + "/") == scope[..|path| + 1];
    }
  }

  /** What precedes the segments still to come: nothing, or the path so far and a slash. */
  function Lead(path: string): string {
    if path == "" then "" else path + "/"
  }

  predicate Segmented(segments: seq<string>) {
    forall k :: 0 <= k < |segments| ==> segments[k] != "" && '/' !in segments[k]
  }

  lemma {:induction false} LeadStep(path: string, segment: string, tail: string)
    requires segment != ""
    ensures Lead(Lead(path) + segment) + tail == Lead(path) + (segment + "/" + tail)
  {
  }

  lemma {:induction false} AncestorsAreUnder(path: string, segments: seq<string>, i: nat, target: string)
    returns (tail: string)
    requires i < |segments| && Segmented(segments) && target in AncestorsFrom(path, segments, i)
    ensures target == Lead(path) + tail && Under(tail, Join(segments[i..], "/"))
    decreases |segments| - i
  {
    var next, rest := Lead(path) + segments[i], Join(segments[i + 1..], "/");
    assert segments[i..][1..] == segments[i + 1..];
    if i + 1 < |segments| {
      UnderExtends("", segments[i], rest);
    }
    if target == next {
      tail := segments[i];
    } else {
      var shorter := AncestorsAreUnder(next, segments, i + 1, target);
      LeadStep(path, segments[i], shorter);
      UnderExtends(shorter, segments[i], rest);
      tail := segments[i] + "/" + shorter;
    }
  }

  lemma {:induction false} UnderAreAncestors(path: string, segments: seq<string>, i: nat, tail: string)
    requires i < |segments| && Segmented(segments) && Under(tail, Join(segments[i..], "/"))
    ensures Lead(path) + tail in AncestorsFrom(path, segments, i)
    decreases |segments| - i
  {
    var next, rest := Lead(path) + segments[i], Join(segments[i + 1..], "/");
    assert segments[i..][1..] == segments[i + 1..];
    if i + 1 == |segments| {
      LastSegmentUnder(tail, segments[i]);
    } else if tail != segments[i] {
      var shorter := UnderSplits(tail, segments[i], rest);
      UnderAreAncestors(next, segments, i + 1, shorter);
      LeadStep(path, segments[i], shorter);
    }
  }

  lemma {:induction false} PrefixHasSlash(path: string, s: string)
    requires path + "/" <= s
    ensures '/' in s
  {
    assert s[|path|] == (path + "/")[|path|];
  }

  lemma {:induction false} LastSegmentUnder(path: string, segment: string)
    requires '/' !in segment
    ensures Under(path, segment) <==> path == segment
  {
    if path + "/" <= segment { PrefixHasSlash(path, segment); }
  }

  /** The ancestors of a normal scope are exactly the paths it lies under. */
  lemma {:induction false} AncestorsMeaning(scope: string, path: string)
    requires IsNormal(scope)
    ensures path in AncestorsOf(scope) <==> Under(path, scope)
  {
    var segments := Split(scope, '/');
    JoinOfSplit(scope, '/');
    assert segments[0..] == segments;
    if path in AncestorsOf(scope) {
      var tail := AncestorsAreUnder("", segments, 0, path);
    }
    if Under(path, scope) {
      UnderAreAncestors("", segments, 0, path);
      assert Lead("") + path == path;
    }
  }

  /******* The three filters *******/

  datatype Filter = Filter(path: string, exact: bool)

  /** `ScopeFilter::matches`. */
  predicate Matches(filter: Filter, scope: Option<string>) {
    match scope
    case None => false
    case Some(s) =>
      if filter.exact then s == filter.path
      else s == filter.path || (filter.path <= s && s[|filter.path|..] != "" && s[|filter.path|] == '/')
  }

  /** `sql_clause`'s escaping of LIKE wildcards, with `\` as the escape character. */
  function EscapeLike(path: string): string {
    Replace(Replace(Replace(path, '\\', "\\\\"), '%', "\\%"), '_', "\\_")
  }

  /** SQLite's LIKE with `ESCAPE '\'`: `%` any run, `_` any character, letters without ASCII case. */
  predicate Like(pattern: string, text: string)
    decreases |pattern| + |text|
  {
    if pattern == "" then text == ""
    else if pattern[0] == '\\' then
      |pattern| >= 2 && text != "" && LowerChar(pattern[1]) == LowerChar(text[0]) && Like(pattern[2..], text[1..])
    else if pattern[0] == '%' then
      Like(pattern[1..], text) || (text != "" && Like(pattern, text[1..]))
    else if pattern[0] == '_' then text != "" && Like(pattern[1..], text[1..])
    else text != "" && LowerChar(pattern[0]) == LowerChar(text[0]) && Like(pattern[1..], text[1..])
  }

  /** The WHERE clause of `sql_clause`; a NULL scope satisfies neither comparison. */
  predicate SqlAccepts(filter: Filter, scope: Option<string>) {
    match scope
    case None => false
    case Some(s) =>
      if filter.exact then s == filter.path
      else s == filter.path || Like(EscapeLike(filter.path) + "/%", s)
  }

  /** The term lookup of the lexical index, over the `scope` and `scope_ancestors` fields of a document. */
  predicate TermAccepts(filter: Filter, scopeField: Option<string>, ancestorField: seq<string>) {
    if filter.exact then scopeField == Some(filter.path) else filter.path in ancestorField
  }

  /** The fields the index stores for an item's scope. */
  function AncestorField(scope: Option<string>): seq<string> {
    match scope
    case None => []
    case Some(s) => AncestorsOf(s)
  }

  function EscapeOne(c: char): string {
    if c == '\\' || c == '%' || c == '_' then ['\\', c] else [c]
  }

  /** The three replacements, taken one after another, escape each character once. */
  lemma {:induction false} EscapeIsOnePass(c: char, rest: string)
    ensures EscapeLike([c] + rest) == EscapeOne(c) + EscapeLike(rest)
  {
    var back, percent := "\\\\", "\\%";
    var first := Replace(rest, '\\', back);
    assert ([c] + rest)[1..] == rest;
    var head := if c == '\\' then back else [c];
    assert Replace([c] + rest, '\\', back) == head + first;
    ReplaceAppend(head, first, '%', percent);
    var head' := if c == '%' then percent else head;
    ReplaceShort(head, '%', percent);
    ReplaceAppend(head', Replace(first, '%', percent), '_', "\\_");
    ReplaceShort(head', '_', "\\_");
  }

  lemma {:induction false} ReplaceShort(s: string, c: char, with: string)
    requires |s| <= 2
    ensures |s| == 1 ==> Replace(s, c, with) == if s[0] == c then with else s
    ensures c !in s ==> Replace(s, c, with) == s
  {
    if c !in s { ReplaceAbsent(s, c, with); }
    if |s| == 1 { assert s[1..] == "" && with + "" == with; }
  }

  lemma {:induction false} LikeEverything(text: string)
    ensures Like("%", text)
  {
    assert "%"[1..] == "";
    if text != "" { LikeEverything(text[1..]); }
  }

  /** What the escaped pattern matches: the path, literally but without ASCII case, then a slash. */
  lemma {:induction false} LikeMeaning(path: string, text: string)
    ensures Like(EscapeLike(path) + "/%", text) <==>
              |text| > |path| && Lower(text[..|path|]) == Lower(path) && text[|path|] == '/'
  {
    if path == "" {
      var pattern := EscapeLike("") + "/%";
      assert pattern == "/%" && pattern[1..] == "%";
      if text != "" {
        LikeEverything(text[1..]);
        assert LowerChar('/') == '/' && (LowerChar(text[0]) == '/' <==> text[0] == '/');
      }
    } else {
      var tail := EscapeLike(path[1..]) + "/%";
      assert path == [path[0]] + path[1..];
      EscapeIsOnePass(path[0], path[1..]);
      var pattern := EscapeLike(path) + "/%";
      assert pattern == EscapeOne(path[0]) + tail;
      assert if |EscapeOne(path[0])| == 2 then pattern[2..] == tail else pattern[1..] == tail;
      if text != "" {
        LikeMeaning(path[1..], text[1..]);
        if |text| > |path| {
          var front := text[..|path|];
          assert front[1..] == text[1..][..|path[1..]|];
          assert Lower(front)[1..] == Lower(front[1..]) && Lower(path)[1..] == Lower(path[1..]);
          assert Lower(front) == Lower(path) <==>
            LowerChar(text[0]) == LowerChar(path[0]) && Lower(front[1..]) == Lower(path[1..]);
        }
      }
    }
  }

  /** The SQL clause for a descendants filter, on any path and any stored scope. */
  lemma {:induction false} SqlMeaning(path: string, scope: string)
    ensures SqlAccepts(Filter(path, false), Some(scope)) <==>
              scope == path || (|scope| > |path| && Lower(scope[..|path|]) == Lower(path) && scope[|path|] == '/')
  {
    LikeMeaning(path, scope);
  }

  /**
   The predicate in the library and the SQL clause accept the same scopes whenever neither side has
   ASCII capitals, whatever wildcards the path holds.
   */
  lemma {:induction false} SqlAgreesWithMatches(filter: Filter, scope: Option<string>)
    requires NoCapitals(filter.path) && (scope.Some? ==> NoCapitals(scope.value))
    ensures SqlAccepts(filter, scope) <==> Matches(filter, scope)
  {
    if scope.Some? && !filter.exact {
      var s, path := scope.value, filter.path;
      SqlMeaning(path, s);
      if |s| > |path| {
        LowerNoCapitals(path);
        LowerNoCapitals(s[..|path|]);
      }
    }
  }

  /**
   On any path and any scope, normalised or not, the two differ exactly when the scope continues, after a
   slash, a spelling of the path that differs from it in ASCII case alone.
   */
  lemma {:induction false} WhenFiltersDiffer(filter: Filter, scope: Option<string>)
    ensures (SqlAccepts(filter, scope) <==> Matches(filter, scope)) <==>
              !(scope.Some? && !filter.exact && OtherSpelling(filter.path, scope.value))
  {
    if scope.Some? && !filter.exact {
      var path, s := filter.path, scope.value;
      SqlMeaning(path, s);
      assert filter == Filter(path, false);
      if |s| > |path| {
        assert path <= s <==> s[..|path|] == path;
        assert s[|path|..][0] == s[|path|];
      }
    }
  }

  /** `scope` lies below the path as LIKE compares it, but not as it is spelled. */
  predicate OtherSpelling(path: string, scope: string) {
    && |scope| > |path| && scope[|path|] == '/'
    && Lower(scope[..|path|]) == Lower(path) && scope[..|path|] != path
  }

  predicate IsLetter(c: char) {
    'A' <= c <= 'Z' || 'a' <= c <= 'z'
  }

  predicate HasLetter(path: string) {
    exists i :: 0 <= i < |path| && IsLetter(path[i])
  }

  function SwapCase(c: char): char
    requires IsLetter(c)
  {
    if 'A' <= c <= 'Z' then c - 'A' + 'a' else c - 'a' + 'A'
  }

  lemma {:induction false} LowerPointwise(a: string, b: string)
    requires |a| == |b|
    ensures Lower(a) == Lower(b) <==> forall i :: 0 <= i < |a| ==> LowerChar(a[i]) == LowerChar(b[i])
  {
    forall i | 0 <= i < |a| ensures Lower(a)[i] == LowerChar(a[i]) && Lower(b)[i] == LowerChar(b[i]) {
      LowerAt(a, i);
      LowerAt(b, i);
    }
    if forall i :: 0 <= i < |a| ==> LowerChar(a[i]) == LowerChar(b[i]) {
      assert forall i :: 0 <= i < |a| ==> Lower(a)[i] == Lower(b)[i];
    }
  }

  ghost predicate AgreesEverywhere(filter: Filter) {
    forall scope :: SqlAccepts(filter, scope) <==> Matches(filter, scope)
  }

  /** The two agree on every scope exactly for exact filters and for paths without an ASCII letter. */
  lemma {:induction false} WhichFiltersAgree(filter: Filter)
    ensures AgreesEverywhere(filter) <==> filter.exact || !HasLetter(filter.path)
  {
    var path := filter.path;
    if filter.exact || !HasLetter(path) {
      forall scope ensures SqlAccepts(filter, scope) <==> Matches(filter, scope) {
        WhenFiltersDiffer(filter, scope);
        if scope.Some? && |scope.value| > |path| { LowerPointwise(scope.value[..|path|], path); }
      }
    } else {
      var i :| 0 <= i < |path| && IsLetter(path[i]);
      var other := path[i := SwapCase(path[i])];
      var scope := other + "/";
      assert scope[..|path|] == other;
      LowerPointwise(other, path);
      WhenFiltersDiffer(filter, Some(scope));
    }
  }

  /** A witness: LIKE ignores ASCII case and the predicate does not. */
  lemma {:induction false} CapitalsSeparateTheFilters()
    ensures SqlAccepts(Filter("a", false), Some("A/x")) && !Matches(Filter("a", false), Some("A/x"))
  {
    SqlMeaning("a", "A/x");
    assert "A/x"[..1] == "A";
    LowerAt("A", 0);
    LowerAt("a", 0);
    assert Lower("A") == Lower("a");
  }

  /**
   On normal paths and scopes the three filters are one: the predicate, the escaped LIKE clause, and the
   lookup among the scope's ancestors.
   */
  lemma {:induction false} FiltersAgree(filter: Filter, scope: Option<string>)
    requires IsNormal(filter.path) && (scope.Some? ==> IsNormal(scope.value))
    ensures Matches(filter, scope) <==> SqlAccepts(filter, scope)
    ensures Matches(filter, scope) <==> TermAccepts(filter, scope, AncestorField(scope))
  {
    NormalIsAscii(filter.path);
    if scope.Some? {
      var s, path := scope.value, filter.path;
      NormalIsAscii(s);
      AncestorsMeaning(s, path);
      if path + "/" <= s { assert s[|path|] == (path + "/")[|path|]; assert s[..|path|] == (path + "/")[..|path|]; }
      if Matches(Filter(path, false), scope) && s != path {
        assert s[..|path| + 1] == path + "/";
      }
    }
    SqlAgreesWithMatches(filter, scope);
  }
}
