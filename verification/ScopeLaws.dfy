/** Which scopes are accepted and how a rejected one is reported, written out. */
module ScopeLaws {
  import opened Wrappers
  import opened Text
  import opened TextLaws
  import opened Scope

  /******* Characters *******/

  const SMALL := "abcdefghijklmnopqrstuvwxyz"
  const CAPITALS := "ABCDEFGHIJKLMNOPQRSTUVWXYZ"
  const ALPHABET := SMALL + "0123456789" + "._-"

  lemma {:induction false} LetterAt(k: nat)
    requires k < 26
    ensures SMALL[k] as int == 'a' as int + k
  {
  }

  lemma {:induction false} CapitalAt(k: nat)
    requires k < 26
    ensures CAPITALS[k] as int == 'A' as int + k
  {
  }

  lemma {:induction false} SmallMeaning(c: char)
    ensures c in SMALL <==> 'a' <= c <= 'z'
  {
    if c in SMALL {
      var k :| 0 <= k < 26 && SMALL[k] == c;
      LetterAt(k);
    }
    if 'a' <= c <= 'z' { LetterAt(c as int - 'a' as int); }
  }

  lemma {:induction false} CapitalMeaning(c: char)
    ensures c in CAPITALS <==> 'A' <= c <= 'Z'
  {
    if c in CAPITALS {
      var k :| 0 <= k < 26 && CAPITALS[k] == c;
      CapitalAt(k);
    }
    if 'A' <= c <= 'Z' { CapitalAt(c as int - 'A' as int); }
  }

  lemma {:induction false} DigitMeaning(c: char)
    ensures c in "0123456789" <==> '0' <= c <= '9'
  {
    var digits := "0123456789";
    if '0' <= c <= '9' { assert digits[c as int - '0' as int] == c; }
  }

  lemma {:induction false} ScopeCharMeaning(c: char)
    ensures IsScopeChar(c) <==> c in ALPHABET
  {
    SmallMeaning(c);
    DigitMeaning(c);
    assert c in "._-" <==> c == '.' || c == '_' || c == '-';
  }

  /** Lower-casing replaces each of the twenty-six capitals by its small letter and keeps everything else. */
  lemma {:induction false} LowerMeaning(s: string, i: nat)
    requires i < |s|
    ensures forall k :: 0 <= k < 26 && s[i] == CAPITALS[k] ==> Lower(s)[i] == SMALL[k]
    ensures s[i] !in CAPITALS ==> Lower(s)[i] == s[i]
  {
    LowerAt(s, i);
    CapitalMeaning(s[i]);
    forall k | 0 <= k < 26 && s[i] == CAPITALS[k] ensures Lower(s)[i] == SMALL[k] {
      CapitalAt(k);
      LetterAt(k);
    }
  }

  predicate AllSlashes(s: string) {
    forall c :: c in s ==> c == '/'
  }

  /** What trimming slashes is: they come off both ends, and nothing else changes. */
  lemma {:induction false} TrimSlashesMeaning(s: string) returns (before: string, after: string)
    ensures s == before + TrimSlashes(s) + after && AllSlashes(before) && AllSlashes(after)
    ensures TrimSlashes(s) != "" ==> TrimSlashes(s)[0] != '/' && TrimSlashes(s)[|TrimSlashes(s)| - 1] != '/'
    decreases |s|
  {
    if s != "" && s[0] == '/' {
      before, after := TrimSlashesMeaning(s[1..]);
      before := "/" + before;
    } else if s != "" && s[|s| - 1] == '/' {
      before, after := TrimSlashesMeaning(s[..|s| - 1]);
      assert s == s[..|s| - 1] + "/";
      after := after + "/";
    } else {
      before, after := "", "";
    }
  }

  /******* Normal forms *******/

  ghost predicate IsName(segment: string) {
    && 1 <= |segment| <= 64 && segment != "." && segment != ".."
    && forall c :: c in segment ==> c in ALPHABET
  }

  ghost predicate IsPathOf(scope: string, segments: seq<string>) {
    && scope == Join(segments, "/") && 1 <= |segments| <= 8 && |scope| <= 512
    && forall segment :: segment in segments ==> IsName(segment)
  }

  lemma {:induction false} SegmentMeaning(segment: string)
    ensures IsSegment(segment) <==> IsName(segment)
  {
    forall i | 0 <= i < |segment| ensures IsScopeChar(segment[i]) <==> segment[i] in ALPHABET {
      ScopeCharMeaning(segment[i]);
    }
  }

  lemma {:induction false} NamesHaveNoSlash(segments: seq<string>)
    requires forall segment :: segment in segments ==> IsName(segment)
    ensures forall i :: 0 <= i < |segments| ==> '/' !in segments[i]
  {
    ScopeCharMeaning('/');
    forall i | 0 <= i < |segments| ensures '/' !in segments[i] {
      assert IsName(segments[i]);
    }
  }

  /** A scope is normal exactly when it is one to eight names joined by slashes, of at most 512 characters. */
  lemma {:induction false} NormalMeaning(scope: string)
    ensures IsNormal(scope) <==> exists segments :: IsPathOf(scope, segments)
  {
    if IsNormal(scope) {
      var segments := Split(scope, '/');
      JoinOfSplit(scope, '/');
      forall segment | segment in segments ensures IsName(segment) {
        SegmentMeaning(segment);
      }
      assert IsPathOf(scope, segments);
    }
    if segments :| IsPathOf(scope, segments) {
      NamesHaveNoSlash(segments);
      SplitOfJoin(segments, '/');
      forall i | 0 <= i < |segments| ensures IsSegment(segments[i]) {
        SegmentMeaning(segments[i]);
      }
    }
  }

  /******* The rule a rejected scope is reported under *******/

  ghost predicate InAlphabet(segment: string) {
    forall c :: c in segment ==> c in ALPHABET || c in CAPITALS
  }

  /** `segment` breaks `rule` and none that is checked before it. */
  ghost predicate FirstBroken(segment: string, rule: Rule) {
    match rule
    case EmptySegment => segment == ""
    case DotSegment => segment == "." || segment == ".."
    case SegmentTooLong => Bytes(segment) > 64
    case BadCharacter => segment != "" && Bytes(segment) <= 64 && !InAlphabet(segment)
    case _ => false
  }

  lemma {:induction false} AlphabetMeaning(segment: string)
    ensures AllScopeChars(Lower(segment)) <==> InAlphabet(segment)
  {
    forall i | 0 <= i < |segment|
      ensures IsScopeChar(Lower(segment)[i]) <==> segment[i] in ALPHABET || segment[i] in CAPITALS
    {
      LowerAt(segment, i);
      ScopeCharMeaning(segment[i]);
      CapitalMeaning(segment[i]);
    }
  }

  lemma {:induction false} FaultMeaning(segment: string, rule: Rule)
    ensures SegmentFault(segment) == Some(rule) <==> FirstBroken(segment, rule)
  {
    AlphabetMeaning(segment);
    ScopeCharMeaning('.');
    if segment == "." || segment == ".." { BytesAscii(segment); }
  }

  /** The segments before `k` break no rule, and `k` breaks this one first. */
  ghost predicate FirstFaultAt(segments: seq<string>, k: nat, rule: Rule) {
    && k < |segments| && FirstBroken(segments[k], rule)
    && forall j :: 0 <= j < k ==> IsName(Lower(segments[j]))
  }

  lemma {:induction false} LoopFault(done: seq<string>, segments: seq<string>, i: nat) returns (k: nat)
    requires i <= |segments| && LowerSegments(done, segments, i).Err?
    requires forall j :: 0 <= j < i ==> IsName(Lower(segments[j]))
    ensures FirstFaultAt(segments, k, LowerSegments(done, segments, i).error)
    decreases |segments| - i
  {
    SegmentFaultMeaning(segments[i]);
    SegmentMeaning(Lower(segments[i]));
    if SegmentFault(segments[i]).Some? {
      k := i;
      FaultMeaning(segments[k], SegmentFault(segments[k]).value);
    } else {
      k := LoopFault(done + [Lower(segments[i])], segments, i + 1);
    }
  }

  ghost predicate AllNames(segments: seq<string>) {
    forall j :: 0 <= j < |segments| ==> IsName(Lower(segments[j]))
  }

  lemma {:induction false} LoopAccepts(segments: seq<string>)
    ensures LowerSegments([], segments, 0).Ok? <==> AllNames(segments)
  {
    LowerSegmentsMeaning([], segments, 0);
    forall j | 0 <= j < |segments| ensures IsSegment(Lower(segments[j])) <==> IsName(Lower(segments[j])) {
      SegmentMeaning(Lower(segments[j]));
    }
  }

  /** Whether `rule` is the first one, in the order in which they are checked, that `raw` breaks. */
  ghost predicate IsFirstBroken(raw: string, rule: Rule) {
    var trimmed := TrimSlashes(raw);
    var segments := Split(trimmed, '/');
    match rule
    case RawTooLong => Bytes(raw) > 514
    case NoSegment => Bytes(raw) <= 514 && AllSlashes(raw)
    case TooManySegments => Bytes(raw) <= 514 && AllNames(segments) && |segments| > 8
    case PathTooLong => Bytes(raw) <= 514 && AllNames(segments) && |segments| <= 8 && |trimmed| > 512
    case _ => Bytes(raw) <= 514 && !AllSlashes(raw) && exists k: nat :: FirstFaultAt(segments, k, rule)
  }

  lemma {:induction false} NothingButSlashes(raw: string)
    ensures TrimSlashes(raw) == "" <==> AllSlashes(raw)
  {
    var before, after := TrimSlashesMeaning(raw);
    if TrimSlashes(raw) != "" { assert raw[|before|] == TrimSlashes(raw)[0] && raw[|before|] in raw; }
  }

  lemma {:induction false} OneFirstFault(segments: seq<string>, k: nat, rule: Rule)
    requires FirstFaultAt(segments, k, rule)
    ensures LowerSegments([], segments, 0) == Err(rule)
  {
    NotAName(segments[k], rule);
    LoopAccepts(segments);
    var first := LoopFault([], segments, 0);
    var found := LowerSegments([], segments, 0).error;
    NotAName(segments[first], found);
    assert first == k;
    FaultMeaning(segments[k], rule);
    FaultMeaning(segments[k], found);
  }

  lemma {:induction false} NotAName(segment: string, rule: Rule)
    requires FirstBroken(segment, rule)
    ensures !IsName(Lower(segment))
  {
    FaultMeaning(segment, rule);
    SegmentFaultMeaning(segment);
    SegmentMeaning(Lower(segment));
  }

  lemma {:induction false} SegmentRejection(segments: seq<string>, rule: Rule)
    ensures LowerSegments([], segments, 0) == Err(rule) <==> exists k: nat :: FirstFaultAt(segments, k, rule)
  {
    if LowerSegments([], segments, 0).Err? { var k := LoopFault([], segments, 0); }
    if k: nat :| FirstFaultAt(segments, k, rule) { OneFirstFault(segments, k, rule); }
  }

  lemma {:induction false} SegmentRules(segments: seq<string>, k: nat, rule: Rule)
    requires FirstFaultAt(segments, k, rule)
    ensures rule.EmptySegment? || rule.DotSegment? || rule.SegmentTooLong? || rule.BadCharacter?
  {
  }

  /** The error names the first rule broken: of the whole text, then segment by segment, then of the path. */
  lemma {:induction false} RejectionMeaning(raw: string, rule: Rule)
    ensures Normalise(raw) == Err(rule) <==> IsFirstBroken(raw, rule)
  {
    var trimmed := TrimSlashes(raw);
    var segments := Split(trimmed, '/');
    NothingButSlashes(raw);
    LoopAccepts(segments);
    SegmentRejection(segments, rule);
    if LowerSegments([], segments, 0).Ok? {
      SegmentLoopMeaning(trimmed);
      SplitLower(trimmed);
      LowerBytes(trimmed);
    } else {
      var k := LoopFault([], segments, 0);
      SegmentRules(segments, k, LowerSegments([], segments, 0).error);
    }
    if trimmed == "" { NotAName("", EmptySegment); assert Lower("") == "" && !IsName(Lower(segments[0])); }
  }

  /******* Ancestors and filters *******/

  lemma {:induction false} AncestorsFromAt(path: string, segments: seq<string>, i: nat, k: nat)
    requires i <= k < |segments| && Segmented(segments) && path == Join(segments[..i], "/")
    ensures |AncestorsFrom(path, segments, i)| == |segments| - i
    ensures AncestorsFrom(path, segments, i)[k - i] == Join(segments[..k + 1], "/")
    decreases |segments| - i
  {
    var next := Lead(path) + segments[i];
    assert segments[..i + 1] == segments[..i] + [segments[i]];
    if i > 0 { JoinSnoc(segments[..i], segments[i], "/"); JoinIsNotEmpty(segments[..i]); }
    assert next == Join(segments[..i + 1], "/");
    if i + 1 < |segments| {
      AncestorsFromAt(next, segments, i + 1, if k == i then k + 1 else k);
    }
  }

  lemma {:induction false} JoinIsNotEmpty(segments: seq<string>)
    requires segments != [] && Segmented(segments)
    ensures Join(segments, "/") != ""
  {
  }

  /** The ancestors of a normal scope, shortest first: one for each segment, ending with the scope itself. */
  lemma {:induction false} AncestorsInOrder(scope: string, k: nat)
    requires IsNormal(scope) && k < |Split(scope, '/')|
    ensures |AncestorsOf(scope)| == |Split(scope, '/')|
    ensures AncestorsOf(scope)[k] == Join(Split(scope, '/')[..k + 1], "/")
  {
    var segments := Split(scope, '/');
    JoinOfSplit(scope, '/');
    AncestorsFromAt("", segments, 0, k);
  }

  /** The library's filter: the path itself, and unless it is exact every continuation after a slash. */
  lemma {:induction false} MatchesMeaning(filter: Filter, scope: Option<string>)
    ensures Matches(filter, scope) <==>
              scope.Some? && (scope.value == filter.path || (!filter.exact && filter.path + "/" <= scope.value))
  {
    if scope.Some? {
      var s, path := scope.value, filter.path;
      if path + "/" <= s { assert s[..|path| + 1] == path + "/" && s[..|path|] == path && s[|path|] == '/'; }
      if path <= s && |s| > |path| && s[|path|] == '/' { assert s[..|path| + 1] == path + "/"; }
    }
  }
}
