/** What a rendered time reads, digit by digit, and which texts are read as times. */
module TimeLaws {
  import opened Wrappers
  import opened Text
  import opened Time

  /******* The calendar *******/

  const MONTH_LENGTHS: seq<nat> := [31, 28, 31, 30, 31, 30, 31, 31, 30, 31, 30, 31]

  /** The Gregorian leap years: every fourth, but of the centuries every fourth too. */
  predicate HasLeapDay(year: nat) {
    if year % 100 == 0 then year % 400 == 0 else year % 4 == 0
  }

  lemma {:induction false} MonthLength(year: nat, month: nat)
    requires 1 <= month <= 12
    ensures DaysInMonth(year, month) == MONTH_LENGTHS[month - 1] + if month == 2 && HasLeapDay(year) then 1 else 0
  {
    CyclesAreCenturiesAreFourths(year);
  }

  /** The day before the first of a month is the last of the month before; a year begins with day 0. */
  lemma {:induction false} MonthStarts(year: nat, month: nat)
    requires 1 <= month <= 12
    ensures DaysBeforeMonth(year, 1) == 0
    ensures DaysBeforeMonth(year, month + 1)
         == DaysBeforeMonth(year, month) + MONTH_LENGTHS[month - 1] + if month == 2 && HasLeapDay(year) then 1 else 0
  {
    MonthLength(year, month);
  }

  /******* Digits *******/

  /** Position `i` of a fixed-width number holds the digit of its power of ten. */
  lemma {:induction false} DigitAt(n: nat, width: nat, i: nat)
    requires i < width
    ensures Digits(n, width)[i] as int == '0' as int + n / Pow10(width - 1 - i) % 10
    decreases width
  {
    if i < width - 1 {
      DigitAt(n / 10, width - 1, i);
      DivideTenFirst(n, Pow10(width - 2 - i), Pow10(width - 1 - i));
    }
  }

  lemma {:induction false} Multiply(a: nat, b: nat, d: nat)
    requires a < b
    ensures a * d + d <= b * d
    decreases b
  {
    assert b * d == (b - 1) * d + d;
    if a + 1 < b { Multiply(a, b - 1, d); }
  }

  lemma {:induction false} OneQuotient(p: nat, r: nat, q: nat, s: nat, d: nat)
    requires p * d + r == q * d + s && r < d && s < d
    ensures p == q
  {
    if p < q { Multiply(p, q, d); }
    if q < p { Multiply(q, p, d); }
  }

  lemma {:induction false} TensOf(q: nat, b: nat, s: nat, k: nat)
    requires s < b && k < 10
    ensures 10 * (q * b + s) + k == q * (10 * b) + (10 * s + k) && 10 * s + k < 10 * b
  {
  }

  lemma {:induction false} Quotient(n: nat, d: nat) returns (q: nat, r: nat)
    requires d > 0
    ensures q == n / d && n == q * d + r && r < d
  {
    q, r := n / d, n % d;
  }

  lemma {:induction false} DivideTenFirst(n: nat, b: nat, d: nat)
    requires b > 0 && d == 10 * b
    ensures n / 10 / b == n / d
  {
    var m, k := Quotient(n, 10);
    var q, s := Quotient(m, b);
    var p, r := Quotient(n, d);
    TensOf(q, b, s, k);
    OneQuotient(q, 10 * s + k, p, r, d);
  }

  /******* Rendering *******/

  /** A rendered instant shows its calendar date, its time of day and its nanoseconds. */
  lemma {:induction false} RenderedFields(d: Date, hour: nat, minute: nat, second: nat, nano: nat)
    requires IsDate(d) && hour < 24 && minute < 60 && second < 60 && nano < 1_000_000_000
    ensures DayNumber(d) < END_DAY
    ensures var t := InstantAt(DayNumber(d) * 86_400 + hour * 3600 + minute * 60 + second, nano);
            && InRange(t)
            && ToSql(t) == Digits(d.year, 4) + "-" + Digits(d.month, 2) + "-" + Digits(d.day, 2) + "T"
                           + Digits(hour, 2) + ":" + Digits(minute, 2) + ":" + Digits(second, 2) + "."
                           + Digits(nano, 9) + "Z"
  {
    CalendarConstants();
    DayNumberInRange(d);
    var clock := hour * 3600 + minute * 60 + second;
    FieldsOfClock(hour, minute, second);
    PartsOfInstant(DayNumber(d), clock, nano);
    var t := InstantAt(DayNumber(d) * 86_400 + clock, nano);
    RenderFromParts(t, DayNumber(d), clock, nano);
    TextOfDate(d);
    assert ClockText(clock) == ClockFields(hour, minute, second);
    Regroup(Digits(d.year, 4), Digits(d.month, 2), Digits(d.day, 2), Digits(hour, 2), Digits(minute, 2),
            Digits(second, 2), Digits(nano, 9));
  }

  lemma {:induction false} Regroup(a: string, b: string, c: string, d: string, e: string, f: string, g: string)
    ensures (a + "-" + (b + "-" + c)) + ("T" + (d + ":" + (e + ":" + f))) + ("." + (g + "Z"))
         == a + "-" + b + "-" + c + "T" + d + ":" + e + ":" + f + "." + g + "Z"
  {
    assert a + "-" + (b + "-" + c) == a + "-" + b + "-" + c;
    var date := a + "-" + b + "-" + c;
    assert d + ":" + (e + ":" + f) == d + ":" + e + ":" + f;
    var clock := d + ":" + e + ":" + f;
    assert date + ("T" + clock) == date + "T" + d + ":" + e + ":" + f;
    var whole := date + "T" + d + ":" + e + ":" + f;
    assert whole + ("." + (g + "Z")) == whole + "." + g + "Z";
  }

  predicate AllZeros(digits: string) {
    forall c :: c in digits ==> c == '0'
  }

  lemma {:induction false} TrimZerosMeaning(digits: string)
    ensures var kept := TrimZeros(digits);
            && AllZeros(digits[|kept|..])
            && (kept != "" ==> kept[|kept| - 1] != '0')
  {
    if digits != "" && digits[|digits| - 1] == '0' {
      var front := digits[..|digits| - 1];
      TrimZerosMeaning(front);
      assert digits[|TrimZeros(front)|..] == front[|TrimZeros(front)|..] + "0";
    }
  }

  /** A timestamp with `n` fractional digits, in terms of its thirty-character form `full`. */
  function Shortened(full: string, n: nat): string
    requires |full| == 30 && n <= 9
  {
    full[..19] + (if n == 0 then "" else "." + full[20..20 + n]) + "Z"
  }

  lemma {:induction false} PiecesOfThirty(front: string, digits: string)
    requires |front| == 19 && |digits| == 9
    ensures var full := front + ("." + (digits + "Z"));
            full[..19] == front && full[19] == '.' && full[20..29] == digits && full[29] == 'Z'
  {
  }

  lemma {:induction false} PiecesOfSql(t: int)
    requires InRange(t)
    ensures var full := ToSql(t);
            && full[..19] == SecondText(SecondOf(t)) && full[19] == '.' && full[20..29] == Digits(NanoOf(t), 9)
            && full[29] == 'Z'
  {
    PiecesOfThirty(SecondText(SecondOf(t)), Digits(NanoOf(t), 9));
  }

  /** `Display` is the fixed-width form without the zeros that end its fraction. */
  lemma {:induction false} DisplayMeaning(t: int) returns (n: nat)
    requires InRange(t)
    ensures n <= 9 && Display(t) == Shortened(ToSql(t), n) && AllZeros(ToSql(t)[20 + n..29])
    ensures n > 0 ==> ToSql(t)[19 + n] != '0'
  {
    var full, digits := ToSql(t), Digits(NanoOf(t), 9);
    PiecesOfSql(t);
    TrimZerosMeaning(digits);
    n := |TrimZeros(digits)|;
    assert full[20..20 + n] == digits[..n] && full[20 + n..29] == digits[n..];
    if n > 0 { assert full[19 + n] == digits[n - 1]; }
    AppendAssociates(full[..19], if n == 0 then "" else "." + full[20..20 + n], "Z");
  }

  /******* Parsing *******/

  /** `s` writes `t` with `n` fractional digits, and what it leaves out are zeros. */
  ghost predicate Writes(s: string, t: int, n: nat) {
    n <= 9 && InRange(t) && AllZeros(ToSql(t)[20 + n..29]) && s == Shortened(ToSql(t), n)
  }

  lemma {:induction false} ValueOfZeros(digits: string, zeros: string)
    requires AllDigits(digits) && AllZeros(zeros)
    ensures AllDigits(digits + zeros) && Value(digits + zeros) == Value(digits) * Pow10(|zeros|)
  {
    var whole := digits + zeros;
    assert AllDigits(zeros) by { assert forall i :: 0 <= i < |zeros| ==> zeros[i] in zeros; }
    if zeros == "" {
      assert whole == digits;
    } else {
      var front := zeros[..|zeros| - 1];
      assert zeros[|zeros| - 1] in zeros;
      assert whole[..|whole| - 1] == digits + front && whole[|whole| - 1] == '0';
      assert AllZeros(front) by { assert forall c :: c in front ==> c in zeros; }
      ValueOfZeros(digits, front);
      TimesTen(Value(digits), |front|);
    }
  }

  /** A fraction of `n` digits says the same as nine digits with zeros behind. */
  lemma {:induction false} FractionWithZeros(digits: string, zeros: string)
    requires AllDigits(digits) && AllZeros(zeros) && |digits| + |zeros| == 9
    ensures AllDigits(digits + zeros)
    ensures ParseFraction(if digits == "" then "" else "." + digits) == Some(Value(digits + zeros))
    ensures ParseFraction("." + (digits + zeros)) == Some(Value(digits + zeros))
  {
    ValueOfZeros(digits, zeros);
    assert ("." + digits)[1..] == digits && ("." + (digits + zeros))[1..] == digits + zeros;
    assert Pow10(0) == 1;
  }

  lemma {:induction false} PartOfDigits(full: string, digits: string, n: nat)
    requires |full| == 30 && full[20..29] == digits && n <= 9
    ensures full[20..20 + n] == digits[..n] && full[20 + n..29] == digits[n..]
    ensures digits == full[20..20 + n] + full[20 + n..29]
  {
  }

  /** The first digits of a number's nine, only zeros being left out, are read as the number. */
  lemma {:induction false} FirstDigits(nano: nat, n: nat)
    requires nano < 1_000_000_000 && n <= 9 && AllZeros(Digits(nano, 9)[n..])
    ensures ParseFraction(if n == 0 then "" else "." + Digits(nano, 9)[..n]) == Some(nano)
  {
    var digits := Digits(nano, 9);
    assert digits == digits[..n] + digits[n..];
    FractionWithZeros(digits[..n], digits[n..]);
    SmallPowers();
    ValueOfDigits(nano, 9);
  }

  lemma {:induction false} WrittenIsParsed(s: string, t: int, n: nat)
    requires Writes(s, t, n)
    ensures ParseInstant(s) == Some(t)
  {
    var full := ToSql(t);
    PiecesOfSql(t);
    PartOfDigits(full, Digits(NanoOf(t), 9), n);
    FirstDigits(NanoOf(t), n);
    InstantsCompare(t, t);
    var fraction := if n == 0 then "" else "." + full[20..20 + n];
    ParseOfSecond(SecondOf(t), fraction, NanoOf(t));
    AppendAssociates(full[..19], fraction, "Z");
  }

  function Zeros(n: nat): (zeros: string)
    ensures |zeros| == n && AllZeros(zeros)
  {
    if n == 0 then "" else "0" + Zeros(n - 1)
  }

  lemma {:induction false} FractionShape(fraction: string)
    requires ParseFraction(fraction).Some?
    ensures fraction == "" || (2 <= |fraction| <= 10 && fraction[0] == '.' && AllDigits(fraction[1..]))
  {
  }

  /** The pieces of a timestamp put together from them. */
  lemma {:induction false} PiecesAgain(front: string, fraction: string, s: string)
    requires |front| == 19 && s == front + fraction + "Z"
    ensures |s| == 20 + |fraction| && s[..10] == front[..10] && s[10] == front[10] && s[11..19] == front[11..19]
    ensures s[19..|s| - 1] == fraction && s[|s| - 1] == 'Z' && s[..19] == front
  {
  }

  lemma {:induction false} PointAndDigits(front: string, digits: string, n: nat)
    requires |front| == 19 && |digits| == 9 && n <= 9
    ensures var full := front + ("." + digits) + "Z";
            && |full| == 30 && full[..19] == front && full[20..20 + n] == digits[..n] && full[20 + n..29] == digits[n..]
  {
  }

  /** Filling the fraction up with zeros leaves the instant the same. */
  lemma {:induction false} FilledUp(s: string) returns (full: string, n: nat)
    requires ParseInstant(s).Some?
    ensures |full| == 30 && ParseInstant(full) == ParseInstant(s)
    ensures n <= 9 && AllZeros(full[20 + n..29]) && s == Shortened(full, n)
  {
    var front, fraction := s[..19], s[19..|s| - 1];
    assert s == front + fraction + "Z";
    FractionShape(fraction);
    var digits := if fraction == "" then "" else fraction[1..];
    n := |digits|;
    var zeros := Zeros(9 - n);
    FractionWithZeros(digits, zeros);
    assert fraction == if n == 0 then "" else "." + digits;
    full := front + ("." + (digits + zeros)) + "Z";
    PiecesAgain(front, fraction, s);
    PiecesAgain(front, "." + (digits + zeros), full);
    PointAndDigits(front, digits + zeros, n);
    assert (digits + zeros)[..n] == digits && (digits + zeros)[n..] == zeros;
  }

  /** The timestamps that are read, and what they are read as. */
  lemma {:induction false} InstantsParsed(s: string, t: int)
    ensures ParseInstant(s) == Some(t) <==> exists n: nat :: Writes(s, t, n)
  {
    if ParseInstant(s) == Some(t) {
      var full, n := FilledUp(s);
      RenderingUndoesParse(full);
      assert Writes(s, t, n);
    }
    if n: nat :| Writes(s, t, n) { WrittenIsParsed(s, t, n); }
  }

  /** `s` is a date, and `t` its midnight. */
  ghost predicate WritesDate(s: string, t: int) {
    InRange(t) && s + "T00:00:00.000000000Z" == ToSql(t)
  }

  lemma {:induction false} Midnight(day: nat)
    requires day < END_DAY
    ensures InRange(InstantAt(day * 86_400, 0))
    ensures ToSql(InstantAt(day * 86_400, 0)) == DateText(day) + "T00:00:00.000000000Z"
  {
    PartsOfInstant(day, 0, 0);
    var t := InstantAt(day * 86_400, 0);
    RenderFromParts(t, day, 0, 0);
    NoTime();
    NineZeros();
    MidnightText(DateText(day));
  }

  lemma {:induction false} NoTime()
    ensures ClockText(0) == "00:00:00"
  {
    TwoZeros();
    assert "00" + ":" + ("00" + ":" + "00") == "00:00:00";
  }

  lemma {:induction false} TwoZeros()
    ensures Digits(0, 2) == "00"
  {
    assert Digits(0, 1) == "0";
  }

  lemma {:induction false} NineZeros()
    ensures Digits(0, 9) == "000000000"
  {
    assert Digits(0, 3) == "000" by { assert Digits(0, 1) == "0"; assert Digits(0, 2) == "00"; }
    assert Digits(0, 6) == "000000" by { assert Digits(0, 4) == "0000"; assert Digits(0, 5) == "00000"; }
    assert Digits(0, 7) == "0000000";
    assert Digits(0, 8) == "00000000";
  }

  lemma {:induction false} MidnightText(date: string)
    ensures date + ("T" + "00:00:00") + ("." + ("000000000" + "Z")) == date + "T00:00:00.000000000Z"
  {
    assert "T" + "00:00:00" == "T00:00:00" && "." + ("000000000" + "Z") == ".000000000Z";
    assert "T00:00:00" + ".000000000Z" == "T00:00:00.000000000Z";
    AppendAssociates(date, "T00:00:00", ".000000000Z");
  }

  lemma {:induction false} DateIsMidnight(s: string, t: int) returns (day: nat)
    requires WritesDate(s, t)
    ensures day < END_DAY && s == DateText(day) && t == InstantAt(day * 86_400, 0)
  {
    PiecesOfSql(t);
    day := SecondOf(t) / 86_400;
    assert ToSql(t)[..10] == s;
    PiecesOfSecond(SecondOf(t), "");
    assert SecondText(SecondOf(t)) + ("" + "Z") == SecondText(SecondOf(t)) + "Z";
    assert s == ToSql(t)[..19][..10] == DateText(day);
    Midnight(day);
    TextOrderIsTimeOrder(InstantAt(day * 86_400, 0), t);
  }

  lemma {:induction false} DatesParsed(s: string, t: int)
    ensures (exists day :: ParseDate(s) == Some(day) && t == InstantAt(day * 86_400, 0)) <==> WritesDate(s, t)
  {
    if day :| ParseDate(s) == Some(day) && t == InstantAt(day * 86_400, 0) {
      RenderOfDate(s);
      Midnight(day);
    }
    if WritesDate(s, t) {
      var day := DateIsMidnight(s, t);
      ParseOfDate(day);
    }
  }

  /**
   The time points that are read, and what they are read as: up to white space around it, a timestamp
   that shows no fraction or its first digits, only zeros being left out; or a date, for its midnight.
   */
  lemma {:induction false} PointsParsed(raw: string, t: int)
    ensures ParsePoint(raw) == Some(t) <==> (exists n: nat :: Writes(Trim(raw), t, n)) || WritesDate(Trim(raw), t)
  {
    InstantsParsed(Trim(raw), t);
    DatesParsed(Trim(raw), t);
  }
}
