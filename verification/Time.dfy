/**
 The fixed-width rendering of instants that the graph tables store, against `Display`'s trimmed one.

 An instant is a number of nanoseconds since 1970-01-01T00:00:00Z. The calendar is the proleptic
 Gregorian one, and the years are 0000 to 9999 (sections 5.1 and 5.6 of RFC 3339).
 */
module Time {
  import opened Wrappers
  import opened Text

  /******* The calendar *******/

  predicate IsLeap(year: nat) {
    year % 4 == 0 && (year % 100 != 0 || year % 400 == 0)
  }

  function DaysInMonth(year: nat, month: nat): (days: nat)
    ensures 28 <= days <= 31
  {
    if month == 2 then (if IsLeap(year) then 29 else 28)
    else if month == 4 || month == 6 || month == 9 || month == 11 then 30
    else 31
  }

  /** Days from 0000-01-01 to the first day of a year. */
  function DaysBeforeYear(year: nat): nat {
    if year == 0 then 0 else DaysBeforeYear(year - 1) + (if IsLeap(year - 1) then 366 else 365)
  }

  /** Days from the first day of a year to the first day of a month; month 13 is the whole year. */
  function DaysBeforeMonth(year: nat, month: nat): nat
    requires 1 <= month <= 13
  {
    if month == 1 then 0 else DaysBeforeMonth(year, month - 1) + DaysInMonth(year, month - 1)
  }

  /** Going from `n` to `n + 1` years passes one more multiple of 4, of 100 or of 400 when `n` is one. */
  lemma {:induction false} NextFourth(n: nat)
    ensures (n + 4) / 4 == (n + 3) / 4 + (if n % 4 == 0 then 1 else 0)
  {
  }

  lemma {:induction false} NextCentury(n: nat)
    ensures (n + 100) / 100 == (n + 99) / 100 + (if n % 100 == 0 then 1 else 0)
  {
    assert n == n / 100 * 100 + n % 100;
  }

  lemma {:induction false} NextCycle(n: nat)
    ensures (n + 400) / 400 == (n + 399) / 400 + (if n % 400 == 0 then 1 else 0)
  {
    assert n == n / 400 * 400 + n % 400;
  }

  lemma {:induction false} CyclesAreCenturiesAreFourths(n: nat)
    ensures n % 100 == 0 ==> n % 4 == 0
    ensures n % 400 == 0 ==> n % 100 == 0
  {
    if n % 100 == 0 { assert n == 4 * (25 * (n / 100)); }
    if n % 400 == 0 { assert n == 100 * (4 * (n / 400)); }
  }

  /** The usual closed form for the leap days, an independent definition of the same count. */
  lemma {:induction false} DaysClosedForm(year: nat)
    ensures DaysBeforeYear(year) == 365 * year + (year + 3) / 4 - (year + 99) / 100 + (year + 399) / 400
  {
    if year > 0 {
      DaysClosedForm(year - 1);
      NextFourth(year - 1);
      NextCentury(year - 1);
      NextCycle(year - 1);
      CyclesAreCenturiesAreFourths(year - 1);
    }
  }

  lemma {:induction false} YearsFillUp(year: nat)
    ensures DaysBeforeMonth(year, 13) == DaysBeforeYear(year + 1) - DaysBeforeYear(year)
  {
    assert DaysBeforeMonth(year, 2) == 31;
    assert DaysBeforeMonth(year, 3) == 31 + DaysInMonth(year, 2);
    assert DaysBeforeMonth(year, 5) == DaysBeforeMonth(year, 3) + 61;
    assert DaysBeforeMonth(year, 7) == DaysBeforeMonth(year, 5) + 61;
    assert DaysBeforeMonth(year, 9) == DaysBeforeMonth(year, 7) + 62;
    assert DaysBeforeMonth(year, 11) == DaysBeforeMonth(year, 9) + 61;
    assert DaysBeforeMonth(year, 13) == DaysBeforeMonth(year, 11) + 61;
  }

  lemma {:induction false} YearsGrow(a: nat, b: nat)
    requires a <= b
    ensures DaysBeforeYear(a) <= DaysBeforeYear(b)
    ensures a < b ==> DaysBeforeYear(a + 1) <= DaysBeforeYear(b)
    decreases b - a
  {
    if a < b { YearsGrow(a + 1, b); }
  }

  lemma {:induction false} MonthsGrow(year: nat, a: nat, b: nat)
    requires 1 <= a < b <= 13
    ensures DaysBeforeMonth(year, a) + DaysInMonth(year, a) <= DaysBeforeMonth(year, b)
    decreases b
  {
    if a < b - 1 { MonthsGrow(year, a, b - 1); }
  }

  datatype Date = Date(year: nat, month: nat, day: nat)

  predicate IsDate(d: Date) {
    d.year < 10_000 && 1 <= d.month <= 12 && 1 <= d.day <= DaysInMonth(d.year, d.month)
  }

  /** Days from 0000-01-01. */
  function DayNumber(d: Date): nat
    requires IsDate(d)
  {
    DaysBeforeYear(d.year) + DaysBeforeMonth(d.year, d.month) + d.day - 1
  }

  function YearOf(day: nat, from: nat): (year: nat)
    requires from < 10_000 && DaysBeforeYear(from) <= day < DaysBeforeYear(10_000)
    ensures from <= year < 10_000 && DaysBeforeYear(year) <= day < DaysBeforeYear(year + 1)
    decreases 10_000 - from
  {
    if day < DaysBeforeYear(from + 1) then from
    else
      YearsGrow(from + 1, 10_000);
      YearOf(day, from + 1)
  }

  function MonthOf(year: nat, rest: nat, from: nat): (month: nat)
    requires 1 <= from <= 12 && DaysBeforeMonth(year, from) <= rest < DaysBeforeMonth(year, 13)
    ensures from <= month <= 12 && DaysBeforeMonth(year, month) <= rest < DaysBeforeMonth(year, month + 1)
    decreases 13 - from
  {
    if rest < DaysBeforeMonth(year, from + 1) then from else MonthOf(year, rest, from + 1)
  }

  function DateOf(day: nat): (d: Date)
    requires day < DaysBeforeYear(10_000)
    ensures IsDate(d) && DayNumber(d) == day
  {
    var year := YearOf(day, 0);
    YearsFillUp(year);
    var rest := day - DaysBeforeYear(year);
    var month := MonthOf(year, rest, 1);
    Date(year, month, rest - DaysBeforeMonth(year, month) + 1)
  }

  /** Earlier in the calendar: year, then month, then day. */
  predicate Earlier(a: Date, b: Date) {
    || a.year < b.year
    || (a.year == b.year && (a.month < b.month || (a.month == b.month && a.day < b.day)))
  }

  lemma {:induction false} EarlierIsSmaller(a: Date, b: Date)
    requires IsDate(a) && IsDate(b) && Earlier(a, b)
    ensures DayNumber(a) < DayNumber(b)
  {
    if a.year < b.year {
      YearsGrow(a.year, b.year);
      YearsFillUp(a.year);
      MonthsGrow(a.year, a.month, 13);
    } else if a.month < b.month {
      MonthsGrow(a.year, a.month, b.month);
    }
  }

  lemma {:induction false} DayNumberInRange(a: Date)
    requires IsDate(a)
    ensures DayNumber(a) < DaysBeforeYear(10_000)
  {
    YearsFillUp(a.year);
    MonthsGrow(a.year, a.month, 13);
    YearsGrow(a.year + 1, 10_000);
  }

  /** Dates and day numbers are in bijection, and in the same order. */
  lemma {:induction false} DatesAreDayNumbers(a: Date, b: Date)
    requires IsDate(a) && IsDate(b)
    ensures Earlier(a, b) <==> DayNumber(a) < DayNumber(b)
    ensures a == b <==> DayNumber(a) == DayNumber(b)
    ensures DayNumber(a) < DaysBeforeYear(10_000) && DateOf(DayNumber(a)) == a
  {
    Trichotomy(a, b);
    DayNumberInRange(a);
    Trichotomy(DateOf(DayNumber(a)), a);
  }

  lemma {:induction false} Trichotomy(a: Date, b: Date)
    requires IsDate(a) && IsDate(b)
    ensures Earlier(a, b) || a == b || Earlier(b, a)
    ensures Earlier(a, b) ==> DayNumber(a) < DayNumber(b)
    ensures Earlier(b, a) ==> DayNumber(b) < DayNumber(a)
  {
    if Earlier(a, b) { EarlierIsSmaller(a, b); }
    if Earlier(b, a) { EarlierIsSmaller(b, a); }
  }

  /******* Digits *******/

  function Pow10(n: nat): (p: nat)
    ensures p > 0
  {
    if n == 0 then 1 else 10 * Pow10(n - 1)
  }

  /** `n` in `width` decimal digits. */
  function Digits(n: nat, width: nat): (s: string)
    ensures |s| == width && AllDigits(s)
  {
    if width == 0 then "" else Digits(n / 10, width - 1) + [DigitChar(n % 10)]
  }

  function Value(s: string): nat
    requires AllDigits(s)
  {
    if s == "" then 0 else Value(s[..|s| - 1]) * 10 + (s[|s| - 1] as nat - '0' as nat)
  }

  lemma {:induction false} ValueOfDigits(n: nat, width: nat)
    requires n < Pow10(width)
    ensures Value(Digits(n, width)) == n
  {
    if width > 0 {
      ValueOfDigits(n / 10, width - 1);
      assert Digits(n, width)[..width - 1] == Digits(n / 10, width - 1);
    }
  }

  lemma {:induction false} DigitsOfValue(s: string)
    requires AllDigits(s)
    ensures Digits(Value(s), |s|) == s && Value(s) < Pow10(|s|)
  {
    if s != "" {
      DigitsOfValue(s[..|s| - 1]);
      assert s == s[..|s| - 1] + [s[|s| - 1]];
    }
  }

  lemma {:induction false} LessOfParts(x: string, y: string, x': string, y': string)
    requires |x| == |x'|
    ensures Less(x + y, x' + y') <==> Less(x, x') || (x == x' && Less(y, y'))
  {
    if x == "" {
      assert x + y == y && x' + y' == y';
    } else {
      LessOfParts(x[1..], y, x'[1..], y');
      assert (x + y)[1..] == x[1..] + y && (x' + y')[1..] == x'[1..] + y';
      assert x == [x[0]] + x[1..] && x' == [x'[0]] + x'[1..];
    }
  }

  /** Fixed-width numbers compare as their digits do. */
  lemma {:induction false} DigitsOrder(a: nat, b: nat, width: nat)
    requires a < Pow10(width) && b < Pow10(width)
    ensures Less(Digits(a, width), Digits(b, width)) <==> a < b
    ensures Digits(a, width) == Digits(b, width) <==> a == b
  {
    ValueOfDigits(a, width);
    ValueOfDigits(b, width);
    if width > 0 {
      DigitsOrder(a / 10, b / 10, width - 1);
      LessOfParts(Digits(a / 10, width - 1), [DigitChar(a % 10)], Digits(b / 10, width - 1), [DigitChar(b % 10)]);
    }
  }

  /******* Instants *******/

  /** Days from 0000-01-01 to 1970-01-01. */
  const EPOCH_DAY: nat := 719_528
  /** Days from 0000-01-01 to 10000-01-01. */
  const END_DAY: nat := 3_652_425
  /** The same two in seconds. */
  const EPOCH_SECOND: nat := 62_167_219_200
  const END_SECOND: nat := 315_569_520_000

  /** The instants of the years 0000 to 9999. */
  predicate InRange(t: int) {
    0 <= SecondOf(t) < END_SECOND
  }

  /** Whole seconds since 0000-01-01T00:00:00Z, rounding down. */
  function SecondOf(t: int): int {
    EPOCH_SECOND + t / 1_000_000_000
  }

  function NanoOf(t: int): (n: nat)
    ensures n < 1_000_000_000
  {
    t % 1_000_000_000
  }

  function InstantAt(second: nat, nano: nat): int {
    (second - EPOCH_SECOND) * 1_000_000_000 + nano
  }

  lemma {:induction false} CalendarConstants()
    ensures DaysBeforeYear(1970) == EPOCH_DAY && DaysBeforeYear(10_000) == END_DAY
    ensures EPOCH_SECOND == EPOCH_DAY * 86_400 && END_SECOND == END_DAY * 86_400
  {
    DaysClosedForm(1970);
    DaysClosedForm(10_000);
  }

  /** An instant is its second and its nanosecond, and instants compare by the two in turn. */
  lemma {:induction false} InstantsCompare(a: int, b: int)
    ensures SecondOf(a) >= 0 ==> a == InstantAt(SecondOf(a), NanoOf(a))
    ensures a < b <==> SecondOf(a) < SecondOf(b) || (SecondOf(a) == SecondOf(b) && NanoOf(a) < NanoOf(b))
  {
  }

  /******* Rendering *******/

  function DateFields(d: Date): (s: string)
    ensures |s| == 10 && IsDigit(s[0])
  {
    Digits(d.year, 4) + "-" + (Digits(d.month, 2) + "-" + Digits(d.day, 2))
  }

  function DateText(day: nat): (s: string)
    requires day < END_DAY
    ensures |s| == 10 && IsDigit(s[0])
  {
    CalendarConstants();
    DateFields(DateOf(day))
  }

  function ClockFields(hour: nat, minute: nat, second: nat): (s: string)
    ensures |s| == 8
  {
    Digits(hour, 2) + ":" + (Digits(minute, 2) + ":" + Digits(second, 2))
  }

  function ClockText(second: nat): (s: string)
    requires second < 86_400
    ensures |s| == 8
  {
    ClockFields(second / 60 / 60, second / 60 % 60, second % 60)
  }

  /** `YYYY-MM-DDTHH:MM:SS`. */
  function SecondText(second: nat): (s: string)
    requires second < END_SECOND
    ensures |s| == 19 && IsDigit(s[0])
  {
    DateText(second / 86_400) + ("T" + ClockText(second % 86_400))
  }

  /** `to_sql`: nine fractional digits, always. */
  function ToSql(t: int): (s: string)
    requires InRange(t)
    ensures |s| == 30
  {
    SecondText(SecondOf(t)) + ("." + (Digits(NanoOf(t), 9) + "Z"))
  }

  function TrimZeros(digits: string): (s: string)
    ensures |s| <= |digits| && s == digits[..|s|]
  {
    if digits != "" && digits[|digits| - 1] == '0' then TrimZeros(digits[..|digits| - 1]) else digits
  }

  /** The fraction's digits without trailing zeros. */
  function FractionText(t: int): string {
    TrimZeros(Digits(NanoOf(t), 9))
  }

  /** `Display`: the fraction trimmed, and left out when it is zero. */
  function Display(t: int): string
    requires InRange(t)
  {
    SecondText(SecondOf(t)) + ((if FractionText(t) == "" then "" else "." + FractionText(t)) + "Z")
  }

  /******* Order *******/

  lemma {:induction false} SeparatedParts(x: string, y: string, x': string, y': string, c: char)
    requires |x| == |x'|
    ensures Less(x + [c] + y, x' + [c] + y') <==> Less(x, x') || (x == x' && Less(y, y'))
    ensures x + [c] + y == x' + [c] + y' <==> x == x' && y == y'
  {
    AppendAssociates(x, [c], y);
    AppendAssociates(x', [c], y');
    LessOfParts(x, [c] + y, x', [c] + y');
    LessOfParts([c], y, [c], y');
    SamePieces(x, [c] + y, x', [c] + y');
    SamePieces([c], y, [c], y');
  }

  lemma {:induction false} SamePieces(x: string, y: string, x': string, y': string)
    requires |x| == |x'|
    ensures x + y == x' + y' <==> x == x' && y == y'
  {
    assert (x + y)[..|x|] == x && (x' + y')[..|x'|] == x';
    assert (x + y)[|x|..] == y && (x' + y')[|x'|..] == y';
  }

  lemma {:induction false} SmallPowers()
    ensures Pow10(2) == 100 && Pow10(4) == 10_000 && Pow10(9) == 1_000_000_000
  {
    assert Pow10(2) == 10 * Pow10(1);
    assert Pow10(4) == 100 * Pow10(2);
    assert Pow10(6) == 100 * Pow10(4);
    assert Pow10(8) == 100 * Pow10(6);
    assert Pow10(9) == 10 * Pow10(8);
  }

  lemma {:induction false} DateOrder(a: nat, b: nat)
    requires a < END_DAY && b < END_DAY
    ensures Less(DateText(a), DateText(b)) <==> a < b
    ensures DateText(a) == DateText(b) <==> a == b
  {
    CalendarConstants();
    SmallPowers();
    var d, e := DateOf(a), DateOf(b);
    DatesAreDayNumbers(d, e);
    DigitsOrder(d.year, e.year, 4);
    DigitsOrder(d.month, e.month, 2);
    DigitsOrder(d.day, e.day, 2);
    SeparatedParts(Digits(d.month, 2), Digits(d.day, 2), Digits(e.month, 2), Digits(e.day, 2), '-');
    SeparatedParts(Digits(d.year, 4), Digits(d.month, 2) + "-" + Digits(d.day, 2),
                   Digits(e.year, 4), Digits(e.month, 2) + "-" + Digits(e.day, 2), '-');
  }

  lemma {:induction false} ClockParts(a: nat, b: nat)
    requires a < 86_400 && b < 86_400
    ensures a / 60 / 60 < 100 && a / 60 % 60 < 100 && a % 60 < 100
    ensures a < b <==> || a / 60 / 60 < b / 60 / 60
                       || (a / 60 / 60 == b / 60 / 60 && a / 60 % 60 < b / 60 % 60)
                       || (a / 60 / 60 == b / 60 / 60 && a / 60 % 60 == b / 60 % 60 && a % 60 < b % 60)
    ensures a == b <==> a / 60 / 60 == b / 60 / 60 && a / 60 % 60 == b / 60 % 60 && a % 60 == b % 60
  {
    assert a == a / 60 / 60 * 3600 + a / 60 % 60 * 60 + a % 60;
    assert b == b / 60 / 60 * 3600 + b / 60 % 60 * 60 + b % 60;
  }

  lemma {:induction false} ClockOrder(a: nat, b: nat)
    requires a < 86_400 && b < 86_400
    ensures Less(ClockText(a), ClockText(b)) <==> a < b
    ensures ClockText(a) == ClockText(b) <==> a == b
  {
    SmallPowers();
    ClockParts(a, b);
    ClockParts(b, a);
    DigitsOrder(a / 60 / 60, b / 60 / 60, 2);
    DigitsOrder(a / 60 % 60, b / 60 % 60, 2);
    DigitsOrder(a % 60, b % 60, 2);
    SeparatedParts(Digits(a / 60 % 60, 2), Digits(a % 60, 2), Digits(b / 60 % 60, 2), Digits(b % 60, 2), ':');
    SeparatedParts(Digits(a / 60 / 60, 2), Digits(a / 60 % 60, 2) + ":" + Digits(a % 60, 2),
                   Digits(b / 60 / 60, 2), Digits(b / 60 % 60, 2) + ":" + Digits(b % 60, 2), ':');
  }

  lemma {:induction false} SecondOrder(a: nat, b: nat)
    requires a < END_SECOND && b < END_SECOND
    ensures Less(SecondText(a), SecondText(b)) <==> a < b
    ensures SecondText(a) == SecondText(b) <==> a == b
  {
    DateOrder(a / 86_400, b / 86_400);
    ClockOrder(a % 86_400, b % 86_400);
    var x, y := DateText(a / 86_400), ClockText(a % 86_400);
    var x', y' := DateText(b / 86_400), ClockText(b % 86_400);
    AppendAssociates(x, "T", y);
    AppendAssociates(x', "T", y');
    SeparatedParts(x, y, x', y', 'T');
  }

  lemma {:induction false} FractionOrder(a: nat, b: nat)
    requires a < 1_000_000_000 && b < 1_000_000_000
    ensures Less(Digits(a, 9) + "Z", Digits(b, 9) + "Z") <==> a < b
    ensures Digits(a, 9) + "Z" == Digits(b, 9) + "Z" <==> a == b
  {
    SmallPowers();
    DigitsOrder(a, b, 9);
    LessOfParts(Digits(a, 9), "Z", Digits(b, 9), "Z");
    SamePieces(Digits(a, 9), "Z", Digits(b, 9), "Z");
  }

  /** Rendered instants sort as text exactly as they sort in time, and are never confused. */
  lemma {:induction false} TextOrderIsTimeOrder(a: int, b: int)
    requires InRange(a) && InRange(b)
    ensures Less(ToSql(a), ToSql(b)) <==> a < b
    ensures ToSql(a) == ToSql(b) <==> a == b
  {
    InstantsCompare(a, b);
    InstantsCompare(b, a);
    SecondOrder(SecondOf(a), SecondOf(b));
    FractionOrder(NanoOf(a), NanoOf(b));
    var x, y := SecondText(SecondOf(a)), Digits(NanoOf(a), 9) + "Z";
    var x', y' := SecondText(SecondOf(b)), Digits(NanoOf(b), 9) + "Z";
    AppendAssociates(x, ".", y);
    AppendAssociates(x', ".", y');
    SeparatedParts(x, y, x', y', '.');
  }

  /******* Where trimming breaks the order *******/

  lemma {:induction false} TrimCons(c: char, rest: string)
    ensures TrimZeros([c] + rest) == if TrimZeros(rest) == "" && c == '0' then "" else [c] + TrimZeros(rest)
    decreases |rest|
  {
    var s := [c] + rest;
    if rest == "" {
      assert s[..|s| - 1] == "";
    } else if rest[|rest| - 1] == '0' {
      var front := rest[..|rest| - 1];
      TrimCons(c, front);
      assert s[..|s| - 1] == [c] + front;
    }
  }

  lemma {:induction false} TrimKeepsOrder(p: string, q: string)
    requires |p| == |q| && AllDigits(p) && AllDigits(q) && Less(p, q)
    ensures Less(TrimZeros(p), TrimZeros(q))
  {
    var p', q' := p[1..], q[1..];
    assert p == [p[0]] + p' && q == [q[0]] + q';
    TrimCons(p[0], p');
    TrimCons(q[0], q');
    if p[0] == q[0] {
      TrimKeepsOrder(p', q');
    } else {
      assert IsDigit(p[0]);
    }
  }

  /** `Z` sorts after every digit, so a string that continues sorts before one that ends. */
  lemma {:induction false} EndingSortsLast(p: string, q: string)
    requires AllDigits(p) && AllDigits(q) && Less(p, q)
    ensures Less(p + "Z", q + "Z") <==> !(p <= q)
  {
    if p == "" {
      assert IsDigit(q[0]) && (q + "Z")[0] == q[0];
    } else {
      assert (p + "Z")[1..] == p[1..] + "Z" && (q + "Z")[1..] == q[1..] + "Z";
      if p[0] == q[0] {
        EndingSortsLast(p[1..], q[1..]);
        assert p == [p[0]] + p[1..] && q == [q[0]] + q[1..];
        assert p <= q <==> p[1..] <= q[1..];
      }
    }
  }

  /** Two instants of one second, the earlier one's trimmed fraction beginning the later one's. */
  predicate Missorts(a: int, b: int) {
    a < b && SecondOf(a) == SecondOf(b) && FractionText(a) <= FractionText(b)
  }

  /** `Display` text sorts two instants wrongly exactly when they are such; a whole second begins every other. */
  lemma {:induction false} WhereDisplayOrderFails(a: int, b: int)
    requires InRange(a) && InRange(b) && a < b
    ensures Less(Display(a), Display(b)) <==> !Missorts(a, b)
  {
    InstantsCompare(a, b);
    SecondOrder(SecondOf(a), SecondOf(b));
    LessOfParts(SecondText(SecondOf(a)), Tail(a), SecondText(SecondOf(b)), Tail(b));
    if SecondOf(a) == SecondOf(b) {
      SmallPowers();
      DigitsOrder(NanoOf(a), NanoOf(b), 9);
      TrimKeepsOrder(Digits(NanoOf(a), 9), Digits(NanoOf(b), 9));
      EndingSortsLast(FractionText(a), FractionText(b));
      TailsCompare(FractionText(a), FractionText(b));
    }
  }

  /** What `Display` prints after the seconds. */
  function Tail(t: int): string {
    (if FractionText(t) == "" then "" else "." + FractionText(t)) + "Z"
  }

  lemma {:induction false} TailsCompare(f: string, g: string)
    requires AllDigits(f) && g != ""
    ensures Less((if f == "" then "" else "." + f) + "Z", "." + g + "Z") <==> f != "" && Less(f + "Z", g + "Z")
  {
    AppendAssociates(".", g, "Z");
    AppendAssociates(".", f, "Z");
    LessOfParts(".", f + "Z", ".", g + "Z");
    assert ("." + g + "Z")[0] == '.';
    assert "" + "Z" == "Z";
  }

  /** Down to the second, `Display` order is time order. */
  lemma {:induction false} DisplayOrdersSeconds(a: int, b: int)
    requires InRange(a) && InRange(b)
    ensures Less(Display(a), Display(b)) ==> SecondOf(a) <= SecondOf(b)
    ensures SecondOf(a) < SecondOf(b) ==> Less(Display(a), Display(b))
  {
    SecondOrder(SecondOf(a), SecondOf(b));
    LessOfParts(SecondText(SecondOf(a)), Tail(a), SecondText(SecondOf(b)), Tail(b));
  }

  /******* Parsing *******/

  /** `YYYY-MM-DD` as a day number. */
  function ParseDate(s: string): (day: Option<nat>)
    ensures day.Some? ==> day.value < END_DAY
  {
    if |s| == 10 && AllDigits(s[..4]) && s[4] == '-' && AllDigits(s[5..7]) && s[7] == '-' && AllDigits(s[8..]) then
      var d := Date(Value(s[..4]), Value(s[5..7]), Value(s[8..]));
      if IsDate(d) then
        CalendarConstants();
        DayNumberInRange(d);
        Some(DayNumber(d))
      else None
    else None
  }

  /** `HH:MM:SS` as seconds into the day. */
  function ParseClock(s: string): (second: Option<nat>)
    ensures second.Some? ==> second.value < 86_400
  {
    if |s| == 8 && AllDigits(s[..2]) && s[2] == ':' && AllDigits(s[3..5]) && s[5] == ':' && AllDigits(s[6..]) then
      var hour, minute, second := Value(s[..2]), Value(s[3..5]), Value(s[6..]);
      if hour < 24 && minute < 60 && second < 60 then Some(hour * 3600 + minute * 60 + second) else None
    else None
  }

  /** Nothing, or a point and one to nine digits, as nanoseconds. */
  function ParseFraction(s: string): (nano: Option<nat>)
    ensures nano.Some? ==> nano.value < 1_000_000_000
  {
    if s == "" then Some(0)
    else if s[0] == '.' && 2 <= |s| <= 10 && AllDigits(s[1..]) then
      FractionBound(s[1..]);
      Some(Value(s[1..]) * Pow10(10 - |s|))
    else None
  }

  /** An RFC 3339 timestamp in UTC, written with `T` and `Z`. */
  function ParseInstant(s: string): Option<int> {
    if |s| < 20 || s[10] != 'T' || s[|s| - 1] != 'Z' then None
    else
      match (ParseDate(s[..10]), ParseClock(s[11..19]), ParseFraction(s[19..|s| - 1]))
      case (Some(day), Some(second), Some(nano)) =>
        Some(InstantAt(day * 86_400 + second, nano))
      case _ => None
  }

  /** `parse_point`: a timestamp, or a date for its midnight, with white space around it ignored. */
  function ParsePoint(raw: string): Option<int> {
    var s := Trim(raw);
    if ParseInstant(s).Some? then ParseInstant(s)
    else
      match ParseDate(s)
      case Some(day) => Some(InstantAt(day * 86_400, 0))
      case None => None
  }

  lemma {:induction false} PowersMultiply(a: nat, b: nat)
    ensures Pow10(a) * Pow10(b) == Pow10(a + b)
  {
    if a > 0 {
      PowersMultiply(a - 1, b);
      assert Pow10(a) * Pow10(b) == 10 * (Pow10(a - 1) * Pow10(b));
    }
  }

  lemma {:induction false} FractionBound(digits: string)
    requires AllDigits(digits) && |digits| <= 9
    ensures Value(digits) * Pow10(9 - |digits|) < 1_000_000_000
  {
    DigitsOfValue(digits);
    PowersMultiply(|digits|, 9 - |digits|);
    SmallPowers();
    MultiplyLess(Value(digits), Pow10(|digits|), Pow10(9 - |digits|));
  }

  lemma {:induction false} MultiplyLess(a: nat, b: nat, c: nat)
    requires a < b && c > 0
    ensures a * c < b * c
  {
  }

  lemma {:induction false} ParseOfDateFields(d: Date)
    requires IsDate(d)
    ensures ParseDate(DateFields(d)) == Some(DayNumber(d))
  {
    SmallPowers();
    var s := DateFields(d);
    ValueOfDigits(d.year, 4);
    ValueOfDigits(d.month, 2);
    ValueOfDigits(d.day, 2);
    assert s[..4] == Digits(d.year, 4) && s[4] == '-';
    assert s[5..7] == Digits(d.month, 2) && s[7] == '-' && s[8..] == Digits(d.day, 2);
  }

  lemma {:induction false} ParseOfDate(day: nat)
    requires day < END_DAY
    ensures ParseDate(DateText(day)) == Some(day)
  {
    CalendarConstants();
    ParseOfDateFields(DateOf(day));
  }

  lemma {:induction false} ParseOfFields(hour: nat, minute: nat, second: nat)
    requires hour < 24 && minute < 60 && second < 60
    ensures ParseClock(ClockFields(hour, minute, second)) == Some(hour * 3600 + minute * 60 + second)
  {
    SmallPowers();
    var s := ClockFields(hour, minute, second);
    ValueOfDigits(hour, 2);
    ValueOfDigits(minute, 2);
    ValueOfDigits(second, 2);
    assert s[..2] == Digits(hour, 2) && s[2] == ':';
    assert s[3..5] == Digits(minute, 2) && s[5] == ':' && s[6..] == Digits(second, 2);
  }

  lemma {:induction false} ParseOfClock(second: nat)
    requires second < 86_400
    ensures ParseClock(ClockText(second)) == Some(second)
  {
    ParseOfFields(second / 60 / 60, second / 60 % 60, second % 60);
    ClockAgain(second);
  }

  lemma {:induction false} ClockAgain(second: nat)
    ensures second == second / 60 / 60 * 3600 + second / 60 % 60 * 60 + second % 60
  {
    var minutes := second / 60;
    assert minutes == minutes / 60 * 60 + minutes % 60;
  }

  lemma {:induction false} TimesTen(v: nat, n: nat)
    ensures v * Pow10(n + 1) == 10 * (v * Pow10(n))
  {
    assert Pow10(n + 1) == 10 * Pow10(n);
  }

  lemma {:induction false} TrimmedValue(digits: string)
    requires AllDigits(digits)
    ensures AllDigits(TrimZeros(digits))
    ensures Value(TrimZeros(digits)) * Pow10(|digits| - |TrimZeros(digits)|) == Value(digits)
  {
    if digits != "" && digits[|digits| - 1] == '0' {
      var front := digits[..|digits| - 1];
      TrimmedValue(front);
      var trimmed := TrimZeros(front);
      TimesTen(Value(trimmed), |front| - |trimmed|);
    }
  }

  lemma {:induction false} ParseOfFraction(nano: nat)
    requires nano < 1_000_000_000
    ensures ParseFraction("." + Digits(nano, 9)) == Some(nano)
    ensures var f := TrimZeros(Digits(nano, 9)); ParseFraction(if f == "" then "" else "." + f) == Some(nano)
  {
    SmallPowers();
    ValueOfDigits(nano, 9);
    TrimmedValue(Digits(nano, 9));
    assert ("." + Digits(nano, 9))[1..] == Digits(nano, 9);
    var f := TrimZeros(Digits(nano, 9));
    assert ("." + f)[1..] == f;
  }

  lemma {:induction false} PiecesOfTimestamp(date: string, clock: string, fraction: string)
    requires |date| == 10 && |clock| == 8
    ensures var s := date + ("T" + clock) + (fraction + "Z");
            && |s| >= 20 && s[10] == 'T' && s[|s| - 1] == 'Z' && s[..10] == date
            && s[11..19] == clock && s[19..|s| - 1] == fraction
  {
    var s := date + ("T" + clock) + (fraction + "Z");
    assert s[..10] == date && s[11..19] == clock;
    assert s[19..|s| - 1] == fraction;
  }

  lemma {:induction false} PiecesOfSecond(second: nat, fraction: string)
    requires second < END_SECOND
    ensures var s := SecondText(second) + (fraction + "Z");
            && |s| >= 20 && s[10] == 'T' && s[|s| - 1] == 'Z' && s[..10] == DateText(second / 86_400)
            && s[11..19] == ClockText(second % 86_400) && s[19..|s| - 1] == fraction
  {
    PiecesOfTimestamp(DateText(second / 86_400), ClockText(second % 86_400), fraction);
  }

  lemma {:induction false} ParseFromParts(s: string, day: nat, second: nat, nano: nat)
    requires |s| >= 20 && s[10] == 'T' && s[|s| - 1] == 'Z'
    requires ParseDate(s[..10]) == Some(day) && ParseClock(s[11..19]) == Some(second)
    requires ParseFraction(s[19..|s| - 1]) == Some(nano)
    ensures ParseInstant(s) == Some(InstantAt(day * 86_400 + second, nano))
  {
  }

  /** A rendered second, any fraction, and `Z`. */
  lemma {:induction false} ParseOfSecond(second: nat, fraction: string, nano: nat)
    requires second < END_SECOND && ParseFraction(fraction) == Some(nano)
    ensures ParseInstant(SecondText(second) + (fraction + "Z")) == Some(InstantAt(second, nano))
  {
    var day, rest := second / 86_400, second % 86_400;
    assert second == day * 86_400 + rest;
    PiecesOfSecond(second, fraction);
    ParseOfDate(day);
    ParseOfClock(rest);
    ParseFromParts(SecondText(second) + (fraction + "Z"), day, rest, nano);
  }

  lemma {:induction false} ParsePointOfSecond(second: nat, fraction: string, nano: nat)
    requires second < END_SECOND && ParseFraction(fraction) == Some(nano)
    ensures ParsePoint(SecondText(second) + (fraction + "Z")) == Some(InstantAt(second, nano))
  {
    RenderedIsTrimmed(second, fraction);
    ParseOfSecond(second, fraction, nano);
  }

  /** Both renderings parse back to the instant. */
  lemma {:induction false} ParseUndoesRendering(t: int)
    requires InRange(t)
    ensures ParsePoint(ToSql(t)) == Some(t) && ParsePoint(Display(t)) == Some(t)
  {
    InstantsCompare(t, t);
    ParseOfFraction(NanoOf(t));
    var digits, f := Digits(NanoOf(t), 9), FractionText(t);
    AppendAssociates(".", digits, "Z");
    ParsePointOfSecond(SecondOf(t), "." + digits, NanoOf(t));
    ParsePointOfSecond(SecondOf(t), if f == "" then "" else "." + f, NanoOf(t));
  }

  lemma {:induction false} RenderedIsTrimmed(second: nat, fraction: string)
    requires second < END_SECOND
    ensures var s := SecondText(second) + (fraction + "Z"); Trim(s) == s
  {
    var s := SecondText(second) + (fraction + "Z");
    assert IsDigit(s[0]) && s[|s| - 1] == 'Z';
    TrimOfTrimmed(s);
  }

  lemma {:induction false} PartsOfInstant(day: nat, second: nat, nano: nat)
    requires day < END_DAY && second < 86_400 && nano < 1_000_000_000
    ensures var t := InstantAt(day * 86_400 + second, nano);
            InRange(t) && SecondOf(t) / 86_400 == day && SecondOf(t) % 86_400 == second && NanoOf(t) == nano
  {
    assert InstantAt(day * 86_400 + second, nano) / 1_000_000_000 == day * 86_400 + second - EPOCH_SECOND;
  }

  lemma {:induction false} RenderFromParts(t: int, day: nat, second: nat, nano: nat)
    requires InRange(t) && SecondOf(t) / 86_400 == day && SecondOf(t) % 86_400 == second && NanoOf(t) == nano
    requires day < END_DAY && second < 86_400
    ensures ToSql(t) == DateText(day) + ("T" + ClockText(second)) + ("." + (Digits(nano, 9) + "Z"))
  {
  }

  /** Conversely, a timestamp written in thirty characters is the rendering of what it parses to. */
  lemma {:induction false} RenderingUndoesParse(s: string)
    requires |s| == 30 && ParseInstant(s).Some?
    ensures InRange(ParseInstant(s).value) && ToSql(ParseInstant(s).value) == s
  {
    var day, second, nano := ParseDate(s[..10]).value, ParseClock(s[11..19]).value, ParseFraction(s[19..29]).value;
    RenderOfDate(s[..10]);
    RenderOfClock(s[11..19]);
    RenderOfFraction(s[19..29]);
    ParseFromParts(s, day, second, nano);
    PartsOfInstant(day, second, nano);
    RenderFromParts(InstantAt(day * 86_400 + second, nano), day, second, nano);
    ThirtyCharacters(s);
  }

  lemma {:induction false} ThirtyCharacters(s: string)
    requires |s| == 30 && s[10] == 'T' && s[29] == 'Z' && s[19] == '.'
    ensures s == s[..10] + ("T" + s[11..19]) + ("." + (s[20..29] + "Z"))
  {
  }

  lemma {:induction false} TextOfDate(d: Date)
    requires IsDate(d) && DayNumber(d) < END_DAY
    ensures DateText(DayNumber(d)) == DateFields(d)
  {
    CalendarConstants();
    DatesAreDayNumbers(d, d);
  }

  lemma {:induction false} FieldsOfDate(s: string, d: Date)
    requires |s| == 10 && AllDigits(s[..4]) && s[4] == '-' && AllDigits(s[5..7]) && s[7] == '-' && AllDigits(s[8..])
    requires d == Date(Value(s[..4]), Value(s[5..7]), Value(s[8..])) && IsDate(d)
    ensures DateFields(d) == s
  {
    DigitsOfValue(s[..4]);
    DigitsOfValue(s[5..7]);
    DigitsOfValue(s[8..]);
    assert s == s[..4] + "-" + (s[5..7] + "-" + s[8..]);
  }

  lemma {:induction false} RenderOfDate(s: string)
    requires ParseDate(s).Some?
    ensures DateText(ParseDate(s).value) == s
  {
    var d := Date(Value(s[..4]), Value(s[5..7]), Value(s[8..]));
    TextOfDate(d);
    FieldsOfDate(s, d);
  }

  lemma {:induction false} FieldsOfClock(hour: nat, minute: nat, second: nat)
    requires hour < 24 && minute < 60 && second < 60
    ensures var n := hour * 3600 + minute * 60 + second;
            n / 60 / 60 == hour && n / 60 % 60 == minute && n % 60 == second
  {
    var n := hour * 3600 + minute * 60 + second;
    assert n == (hour * 60 + minute) * 60 + second;
    assert n / 60 == hour * 60 + minute;
  }

  lemma {:induction false} TextOfClock(s: string)
    requires |s| == 8 && AllDigits(s[..2]) && s[2] == ':' && AllDigits(s[3..5]) && s[5] == ':' && AllDigits(s[6..])
    ensures ClockFields(Value(s[..2]), Value(s[3..5]), Value(s[6..])) == s
  {
    DigitsOfValue(s[..2]);
    DigitsOfValue(s[3..5]);
    DigitsOfValue(s[6..]);
    assert s == s[..2] + ":" + (s[3..5] + ":" + s[6..]);
  }

  lemma {:induction false} RenderOfClock(s: string)
    requires ParseClock(s).Some?
    ensures ClockText(ParseClock(s).value) == s
  {
    FieldsOfClock(Value(s[..2]), Value(s[3..5]), Value(s[6..]));
    TextOfClock(s);
  }

  lemma {:induction false} RenderOfFraction(s: string)
    requires |s| == 10 && ParseFraction(s).Some?
    ensures s[0] == '.' && Digits(ParseFraction(s).value, 9) == s[1..]
  {
    DigitsOfValue(s[1..]);
    assert Pow10(0) == 1;
  }
}
