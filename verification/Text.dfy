/**
 UTF-8 text as Rust's standard library sees it: a string is a sequence of Unicode
 scalar values, its length is counted in bytes, and trimming removes Unicode white space.
 */
module Text {

  lemma {:induction false} AppendAssociates<T>(a: seq<T>, b: seq<T>, c: seq<T>)
    ensures (a + b) + c == a + (b + c)
  {
  }

  /** Bytes the scalar takes in UTF-8. */
  function Utf8Len(c: char): (n: nat)
    ensures 1 <= n <= 4
  {
    if c < '\U{80}' then 1 else if c < '\U{800}' then 2 else if c < '\U{10000}' then 3 else 4
  }

  /** `str::len`. */
  function Bytes(s: string): (n: nat)
    ensures n >= |s|
  {
    if s == "" then 0 else Utf8Len(s[0]) + Bytes(s[1..])
  }

  lemma {:induction false} BytesAppend(a: string, b: string)
    ensures Bytes(a + b) == Bytes(a) + Bytes(b)
  {
    if a == "" {
      assert a + b == b;
    } else {
      assert (a + b)[1..] == a[1..] + b;
      BytesAppend(a[1..], b);
    }
  }

  /** A string of ASCII characters has as many bytes as characters. */
  lemma {:induction false} BytesAscii(s: string)
    requires forall c :: c in s ==> c < '\U{80}'
    ensures Bytes(s) == |s|
  {
    if s != "" {
      assert s[0] in s;
      assert forall c :: c in s[1..] ==> c in s;
      BytesAscii(s[1..]);
    }
  }

  /** `char::is_whitespace`: the Unicode White_Space property. */
  predicate IsWhitespace(c: char) {
    || '\U{9}' <= c <= '\U{d}' || c == ' ' || c == '\U{85}' || c == '\U{a0}' || c == '\U{1680}'
    || '\U{2000}' <= c <= '\U{200a}' || c == '\U{2028}' || c == '\U{2029}' || c == '\U{202f}'
    || c == '\U{205f}' || c == '\U{3000}'
  }

  predicate AllWhitespace(s: string) {
    forall i :: 0 <= i < |s| ==> IsWhitespace(s[i])
  }

  predicate Trimmed(s: string) {
    s != "" ==> !IsWhitespace(s[0]) && !IsWhitespace(s[|s| - 1])
  }

  function TrimStart(s: string): (t: string)
    ensures |t| <= |s|
  {
    if s != "" && IsWhitespace(s[0]) then TrimStart(s[1..]) else s
  }

  function TrimEnd(s: string): (t: string)
    ensures |t| <= |s|
  {
    if s != "" && IsWhitespace(s[|s| - 1]) then TrimEnd(s[..|s| - 1]) else s
  }

  lemma {:induction false} TrimStartMeaning(s: string)
    ensures var t := TrimStart(s); t == s[|s| - |t|..] && AllWhitespace(s[..|s| - |t|])
    ensures TrimStart(s) != "" ==> !IsWhitespace(TrimStart(s)[0])
  {
    if s != "" && IsWhitespace(s[0]) {
      TrimStartMeaning(s[1..]);
      var t := TrimStart(s);
      assert s[..|s| - |t|] == [s[0]] + s[1..][..|s[1..]| - |t|];
    }
  }

  lemma {:induction false} TrimEndMeaning(s: string)
    ensures var t := TrimEnd(s); t == s[..|t|] && AllWhitespace(s[|t|..])
    ensures TrimEnd(s) != "" ==> !IsWhitespace(TrimEnd(s)[|TrimEnd(s)| - 1])
  {
    if s != "" && IsWhitespace(s[|s| - 1]) {
      TrimEndMeaning(s[..|s| - 1]);
      var t := TrimEnd(s);
      assert s[|t|..] == s[..|s| - 1][|t|..] + [s[|s| - 1]];
    }
  }

  /** `str::trim`. */
  function Trim(s: string): string {
    TrimEnd(TrimStart(s))
  }

  /** What trimming is: white space comes off both ends, and nothing else changes. */
  lemma {:induction false} TrimMeaning(s: string) returns (before: string, after: string)
    ensures s == before + Trim(s) + after
    ensures AllWhitespace(before) && AllWhitespace(after) && Trimmed(Trim(s))
  {
    var t := TrimStart(s);
    TrimStartMeaning(s);
    TrimEndMeaning(t);
    before := s[..|s| - |t|];
    after := t[|Trim(s)|..];
  }

  lemma {:induction false} TrimOfTrimmed(s: string)
    requires Trimmed(s)
    ensures Trim(s) == s
  {
  }

  lemma {:induction false} TrimStartOf(before: string, rest: string)
    requires AllWhitespace(before) && (rest != "" ==> !IsWhitespace(rest[0]))
    ensures TrimStart(before + rest) == rest
  {
    if before == "" {
      assert before + rest == rest;
    } else {
      assert IsWhitespace(before[0]) && (before + rest)[1..] == before[1..] + rest;
      TrimStartOf(before[1..], rest);
    }
  }

  lemma {:induction false} TrimEndOf(rest: string, after: string)
    requires AllWhitespace(after) && (rest != "" ==> !IsWhitespace(rest[|rest| - 1]))
    ensures TrimEnd(rest + after) == rest
    decreases |after|
  {
    if after == "" {
      assert rest + after == rest;
    } else {
      var shorter := after[..|after| - 1];
      assert IsWhitespace(after[|after| - 1]) && (rest + after)[..|rest + after| - 1] == rest + shorter;
      TrimEndOf(rest, shorter);
    }
  }

  lemma {:induction false} TrimAllWhitespace(s: string)
    requires AllWhitespace(s)
    ensures Trim(s) == ""
  {
    TrimStartOf(s, "");
    assert s + "" == s;
  }

  /** Trimming is determined by its meaning. */
  lemma {:induction false} TrimUnique(before: string, middle: string, after: string)
    requires AllWhitespace(before) && AllWhitespace(after) && Trimmed(middle)
    ensures Trim(before + middle + after) == middle
  {
    if middle == "" {
      assert before + middle + after == before + after;
      TrimAllWhitespace(before + after);
    } else {
      assert before + middle + after == before + (middle + after);
      TrimStartOf(before, middle + after);
      TrimEndOf(middle, after);
    }
  }

  lemma {:induction false} TrimBytes(s: string)
    ensures Bytes(Trim(s)) <= Bytes(s)
  {
    var before, after := TrimMeaning(s);
    BytesAppend(before + Trim(s), after);
    BytesAppend(before, Trim(s));
  }

  /** The characters that are not white space, in order. */
  function Solid(s: string): string {
    if s == "" then ""
    else if IsWhitespace(s[0]) then Solid(s[1..])
    else [s[0]] + Solid(s[1..])
  }

  lemma {:induction false} SolidAppend(a: string, b: string)
    ensures Solid(a + b) == Solid(a) + Solid(b)
  {
    if a == "" {
      assert a + b == b;
    } else {
      assert (a + b)[1..] == a[1..] + b;
      SolidAppend(a[1..], b);
    }
  }

  lemma {:induction false} SolidOfWhitespace(s: string)
    requires AllWhitespace(s)
    ensures Solid(s) == ""
  {
    if s != "" { SolidOfWhitespace(s[1..]); }
  }

  lemma {:induction false} SolidTrim(s: string)
    ensures Solid(Trim(s)) == Solid(s)
  {
    var before, after := TrimMeaning(s);
    SolidAppend(before + Trim(s), after);
    SolidAppend(before, Trim(s));
    SolidOfWhitespace(before);
    SolidOfWhitespace(after);
  }

  function Concat(parts: seq<string>): string {
    if parts == [] then "" else parts[0] + Concat(parts[1..])
  }

  lemma {:induction false} ConcatAppend(a: seq<string>, b: seq<string>)
    ensures Concat(a + b) == Concat(a) + Concat(b)
  {
    if a == [] {
      assert a + b == b;
    } else {
      assert (a + b)[1..] == a[1..] + b;
      ConcatAppend(a[1..], b);
    }
  }

  /** The parts with `separator` between neighbours. */
  function Join(parts: seq<string>, separator: string): string {
    if parts == [] then ""
    else if |parts| == 1 then parts[0]
    else parts[0] + separator + Join(parts[1..], separator)
  }

  lemma {:induction false} JoinSnoc(parts: seq<string>, last: string, separator: string)
    requires parts != []
    ensures Join(parts + [last], separator) == Join(parts, separator) + separator + last
  {
    if |parts| == 1 {
      assert (parts + [last])[1..] == [last];
    } else {
      assert (parts + [last])[1..] == parts[1..] + [last];
      JoinSnoc(parts[1..], last, separator);
    }
  }

  /** `str::replace` of one character. */
  function Replace(s: string, c: char, with: string): string {
    if s == "" then "" else (if s[0] == c then with else [s[0]]) + Replace(s[1..], c, with)
  }

  lemma {:induction false} ReplaceAppend(a: string, b: string, c: char, with: string)
    ensures Replace(a + b, c, with) == Replace(a, c, with) + Replace(b, c, with)
  {
    if a == "" {
      assert a + b == b;
    } else {
      assert (a + b)[1..] == a[1..] + b;
      ReplaceAppend(a[1..], b, c, with);
    }
  }

  lemma {:induction false} ReplaceAbsent(s: string, c: char, with: string)
    requires c !in s
    ensures Replace(s, c, with) == s
  {
    if s != "" {
      assert s[0] in s;
      assert forall x :: x in s[1..] ==> x in s;
      ReplaceAbsent(s[1..], c, with);
    }
  }

  /** `str::split` on one character; there is always at least one part. */
  function Split(s: string, c: char): (parts: seq<string>)
    ensures parts != []
  {
    if s == "" then [""]
    else if s[0] == c then [""] + Split(s[1..], c)
    else
      var rest := Split(s[1..], c);
      [[s[0]] + rest[0]] + rest[1..]
  }

  lemma {:induction false} JoinOfSplit(s: string, c: char)
    ensures Join(Split(s, c), [c]) == s
    ensures forall i :: 0 <= i < |Split(s, c)| ==> c !in Split(s, c)[i]
  {
    if s != "" {
      var rest := Split(s[1..], c);
      JoinOfSplit(s[1..], c);
      if s[0] == c {
        assert Split(s, c)[1..] == rest;
        assert Join(Split(s, c), [c]) == "" + [c] + Join(rest, [c]);
      } else {
        var first := [s[0]] + rest[0];
        assert c !in first;
        if |rest| > 1 {
          assert Split(s, c)[1..] == rest[1..];
          assert Join(Split(s, c), [c]) == first + [c] + Join(rest[1..], [c]);
          assert Join(rest, [c]) == rest[0] + [c] + Join(rest[1..], [c]);
        }
      }
    }
  }

  /** Splitting at a separator that follows a separator-free part. */
  lemma {:induction false} SplitFirst(part: string, rest: string, c: char)
    requires c !in part
    ensures Split(part, c) == [part]
    ensures Split(part + [c] + rest, c) == [part] + Split(rest, c)
  {
    var whole := part + [c] + rest;
    if part == "" {
      assert whole[1..] == rest;
    } else {
      assert part[0] in part;
      assert forall x :: x in part[1..] ==> x in part;
      SplitFirst(part[1..], rest, c);
      assert whole[1..] == part[1..] + [c] + rest;
      assert [part[0]] + part[1..] == part;
    }
  }

  /** Byte order of UTF-8 strings, which is the order of their scalars. */
  predicate Less(a: string, b: string) {
    if b == "" then false
    else if a == "" then true
    else a[0] < b[0] || (a[0] == b[0] && Less(a[1..], b[1..]))
  }

  lemma {:induction false} LessTotal(a: string, b: string)
    ensures Less(a, b) || a == b || Less(b, a)
    ensures !(Less(a, b) && Less(b, a)) && !Less(a, a)
  {
    if a != "" && b != "" {
      LessTotal(a[1..], b[1..]);
      assert a == [a[0]] + a[1..] && b == [b[0]] + b[1..];
    }
    if a != "" { LessTotal(a[1..], a[1..]); }
  }

  lemma {:induction false} LessTransitive(a: string, b: string, c: string)
    requires Less(a, b) && Less(b, c)
    ensures Less(a, c)
  {
    if a != "" && a[0] == b[0] && b[0] == c[0] { LessTransitive(a[1..], b[1..], c[1..]); }
  }

  function DigitChar(d: nat): char
    requires d < 10
  {
    ('0' as int + d) as char
  }

  predicate IsDigit(c: char) {
    '0' <= c <= '9'
  }

  predicate AllDigits(s: string) {
    forall i :: 0 <= i < |s| ==> IsDigit(s[i])
  }

  /** A number in decimal, as it prints. */
  function Decimal(n: nat): (s: string)
    ensures s != "" && AllDigits(s)
  {
    if n < 10 then [DigitChar(n)] else Decimal(n / 10) + [DigitChar(n % 10)]
  }
}
