/** What the text primitives mean, independently of how they are computed. */
module TextLaws {
  import opened Text

  /** Payload bits of a UTF-8 sequence of `n` bytes (section 3 of RFC 3629). */
  function Capacity(n: nat): nat {
    match n
    case 1 => 7
    case 2 => 5 + 6
    case 3 => 4 + 6 + 6
    case _ => 3 + 6 + 6 + 6
  }

  function PowerOfTwo(n: nat): nat {
    if n == 0 then 1 else 2 * PowerOfTwo(n - 1)
  }

  /** A scalar takes the fewest bytes whose payload bits hold it. */
  lemma {:induction false} Utf8LenIsShortest(c: char, n: nat)
    requires 1 <= n <= 4
    ensures (c as int) < PowerOfTwo(Capacity(n)) <==> Utf8Len(c) <= n
  {
    assert PowerOfTwo(7) == 0x80;
    assert PowerOfTwo(11) == 16 * PowerOfTwo(7);
    assert PowerOfTwo(16) == 32 * PowerOfTwo(11);
    assert PowerOfTwo(21) == 32 * PowerOfTwo(16);
  }

  /** The characters with the property White_Space in the Unicode Character Database. */
  const WHITE_SPACE: seq<char> := [
    '\U{9}', '\U{a}', '\U{b}', '\U{c}', '\U{d}', ' ', '\U{85}', '\U{a0}', '\U{1680}', '\U{2000}', '\U{2001}',
    '\U{2002}', '\U{2003}', '\U{2004}', '\U{2005}', '\U{2006}', '\U{2007}', '\U{2008}', '\U{2009}', '\U{200a}',
    '\U{2028}', '\U{2029}', '\U{202f}', '\U{205f}', '\U{3000}'
  ]

  lemma {:induction false} WhitespaceIsListed(c: char)
    ensures IsWhitespace(c) <==> c in WHITE_SPACE
  {
    if '\U{9}' <= c <= '\U{d}' { assert WHITE_SPACE[c as int - 9] == c; }
    if '\U{2000}' <= c <= '\U{200a}' { assert WHITE_SPACE[c as int - 0x2000 + 9] == c; }
    assert WHITE_SPACE[5] == ' ' && WHITE_SPACE[6] == '\U{85}' && WHITE_SPACE[7] == '\U{a0}';
    assert WHITE_SPACE[8] == '\U{1680}' && WHITE_SPACE[20] == '\U{2028}' && WHITE_SPACE[21] == '\U{2029}';
    assert WHITE_SPACE[22] == '\U{202f}' && WHITE_SPACE[23] == '\U{205f}' && WHITE_SPACE[24] == '\U{3000}';
  }

  /** Where two strings first differ, the first is smaller there or has ended. */
  ghost predicate FirstDifference(a: string, b: string, i: nat) {
    && i <= |a| && i < |b| && a[..i] == b[..i]
    && (i == |a| || a[i] < b[i])
  }

  /** `Less` is the lexicographic order. */
  lemma {:induction false} LessMeaning(a: string, b: string)
    ensures Less(a, b) <==> exists i: nat :: FirstDifference(a, b, i)
  {
    if b != "" && a == "" {
      assert FirstDifference(a, b, 0);
    } else if b != "" && a[0] < b[0] {
      assert FirstDifference(a, b, 0);
    } else if b != "" && a[0] == b[0] {
      LessMeaning(a[1..], b[1..]);
      if i: nat :| FirstDifference(a[1..], b[1..], i) {
        assert a[..i + 1] == [a[0]] + a[1..][..i] && b[..i + 1] == [b[0]] + b[1..][..i];
        assert FirstDifference(a, b, i + 1);
      }
      if i: nat :| FirstDifference(a, b, i) {
        assert i > 0;
        assert a[1..][..i - 1] == a[..i][1..] && b[1..][..i - 1] == b[..i][1..];
        assert FirstDifference(a[1..], b[1..], i - 1);
      }
    } else {
      forall i: nat | 0 < i <= |a| && i < |b| ensures a[..i] != b[..i] {
        assert a[..i][0] == a[0] && b[..i][0] == b[0];
      }
    }
  }

  /** Splitting undoes joining, so a text splits in one way into parts without the separator. */
  lemma {:induction false} SplitOfJoin(parts: seq<string>, c: char)
    requires parts != [] && forall i :: 0 <= i < |parts| ==> c !in parts[i]
    ensures Split(Join(parts, [c]), c) == parts
  {
    if |parts| == 1 {
      SplitFirst(parts[0], "", c);
    } else {
      SplitOfJoin(parts[1..], c);
      SplitFirst(parts[0], Join(parts[1..], [c]), c);
      assert parts == [parts[0]] + parts[1..];
    }
  }

  /** Exactly the white space goes, and the rest keeps its order. */
  lemma {:induction false} SolidMeaning(a: string, c: char, b: string)
    ensures Solid("") == ""
    ensures Solid(a + [c] + b) == Solid(a) + (if c in WHITE_SPACE then "" else [c]) + Solid(b)
  {
    SolidAppend(a + [c], b);
    SolidAppend(a, [c]);
    WhitespaceIsListed(c);
    assert [c][1..] == "";
  }

  /** Exactly one character is replaced, wherever it stands. */
  lemma {:induction false} ReplaceMeaning(a: string, x: char, b: string, c: char, with: string)
    ensures Replace("", c, with) == ""
    ensures Replace(a + [x] + b, c, with)
         == Replace(a, c, with) + (if x == c then with else [x]) + Replace(b, c, with)
  {
    ReplaceAppend(a + [x], b, c, with);
    ReplaceAppend(a, [x], c, with);
    assert [x][1..] == "" && Replace("", c, with) == "";
    if x == c { assert Replace([x], c, with) == with + ""; }
  }
}
