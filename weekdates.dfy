/**
 * Turning a capacity record's `YYYY-Www` token into a departure date
 * (`parse_week_year_to_date`): the year is read from the first four
 * characters, the week from the last two, both with Python's `int()`, and the
 * date is what `strptime("<year>-W<week>-1", "%Y-W%W-%w")` returns, i.e. the
 * Monday of week `week` in the C library's `%W` numbering: week 1 starts on
 * the year's first Monday and the days before it form week 0. This is not the
 * ISO 8601 week date.
 */
module WeekDates {
  import opened Common

  // ---------------------------------------------------------------------------
  // Proleptic Gregorian calendar, counted as Python's date.toordinal counts

  predicate IsLeap(year: int) {
    year % 4 == 0 && (year % 100 != 0 || year % 400 == 0)
  }

  /** Day number of 1 January of `year`. */
  function Jan1(year: int): (d: int)
    requires year >= 1
    ensures 365 * (year - 1) < d <= 366 * (year - 1) + 1
  {
    var y := year - 1;
    365 * y + y / 4 - y / 100 + y / 400 + 1
  }

  /** Successive New Year's days are a year of 365 or 366 days apart. */
  lemma Jan1Next(year: int)
    requires year >= 1
    ensures Jan1(year + 1) - Jan1(year) == if IsLeap(year) then 366 else 365
  {
    QuotientStep(year, 4);
    QuotientStep(year, 100);
    QuotientStep(year, 400);
    DivisibilityChain(year);
  }

  /** Day of the week, Monday = 0 through Sunday = 6, as `date.weekday()`. */
  function Weekday(day: int): (w: int)
    ensures 0 <= w < 7
  {
    (day + 6) % 7
  }

  lemma WeekdayShift(day: int, k: int)
    ensures Weekday(day + 7 * k) == Weekday(day)
  {
  }

  /** Stepping back by its weekday takes a day to the Monday on or before it. */
  lemma MondayOnOrBefore(day: int)
    ensures Weekday(day - Weekday(day)) == 0
  {
    assert day + 6 == 7 * ((day + 6) / 7) + Weekday(day);
  }

  /** The first Monday on or after `day`. */
  function MondayOnOrAfter(day: int): (d: int)
    ensures day <= d < day + 7
    ensures Weekday(d) == 0
  {
    var w := Weekday(day);
    assert day + 6 == 7 * ((day + 6) / 7) + w;
    day + (7 - w) % 7
  }

  /** The first Monday that falls in `year`. */
  function FirstMonday(year: int): (d: int)
    requires year >= 1
    ensures Jan1(year) <= d < Jan1(year) + 7
    ensures Weekday(d) == 0
  {
    MondayOnOrAfter(Jan1(year))
  }

  /**
   * The date `strptime` gives for weekday Monday in week `week` of `year`
   * under `%W`, following the day-of-year arithmetic of Python's `_strptime`
   * (a day-of-year of zero or less lands in the previous year).
   */
  function MondayOfWeek(year: int, week: int): (d: int)
    requires 1 <= year && 0 <= week <= 53
    ensures Weekday(d) == 0
    ensures week == 0 ==> Jan1(year) - 7 < d <= Jan1(year)
    ensures week >= 1 ==> d == FirstMonday(year) + 7 * (week - 1)
  {
    var jan1 := Jan1(year);
    var firstWeekday := Weekday(jan1);
    var week0Length := (7 - firstWeekday) % 7;
    var dayOfYear := if week == 0 then 1 - firstWeekday else 1 + week0Length + 7 * (week - 1);
    MondayOnOrBefore(jan1);
    WeekdayShift(MondayOnOrAfter(jan1), week - 1);
    jan1 + (dayOfYear - 1)
  }

  /** Weeks 1 to 53 are exactly seven days apart. */
  lemma ConsecutiveWeeks(year: int, week: int)
    requires 1 <= year && 1 <= week < 53
    ensures MondayOfWeek(year, week + 1) == MondayOfWeek(year, week) + 7
  {
  }

  /** When 1 January is itself a Monday, weeks 0 and 1 name the same day. */
  lemma WeekZeroMeetsWeekOne(year: int)
    requires 1 <= year && Weekday(Jan1(year)) == 0
    ensures MondayOfWeek(year, 0) == MondayOfWeek(year, 1) == Jan1(year)
  {
  }

  // ---------------------------------------------------------------------------
  // Python's int() on a short string

  /** Characters `str.strip()` removes that can occur in an ASCII token. */
  predicate IsSpace(c: char) {
    9 <= c as int <= 13 || 28 <= c as int <= 32
  }

  /** `str.strip()` on the left: the longest run of leading blanks is dropped. */
  function StripLeading(s: string): (t: string)
    ensures |t| <= |s| && t == s[|s| - |t|..]
    ensures forall i :: 0 <= i < |s| - |t| ==> IsSpace(s[i])
    ensures |t| > 0 ==> !IsSpace(t[0])
  {
    if |s| > 0 && IsSpace(s[0]) then StripLeading(s[1..]) else s
  }

  /** `str.strip()` on the right: the longest run of trailing blanks is dropped. */
  function StripTrailing(s: string): (t: string)
    ensures |t| <= |s| && t == s[..|t|]
    ensures forall i :: |t| <= i < |s| ==> IsSpace(s[i])
    ensures |t| > 0 ==> !IsSpace(t[|t| - 1])
  {
    if |s| > 0 && IsSpace(s[|s| - 1]) then StripTrailing(s[..|s| - 1]) else s
  }

  /** `int(text)`: surrounding blanks, an optional sign, then decimal digits. */
  function ParseInt(text: string): (r: Option<int>)
    ensures (forall i :: 0 <= i < |text| ==> IsSpace(text[i])) ==> r.None?
  {
    var t := StripTrailing(StripLeading(text));
    if |t| == 0 then None
    else if t[0] == '+' || t[0] == '-' then
      var digits := t[1..];
      if |digits| > 0 && AllDigits(digits) then
        var magnitude: int := DigitsValue(digits);
        Some(if t[0] == '-' then -magnitude else magnitude)
      else None
    else if AllDigits(t) then Some(DigitsValue(t))
    else None
  }

  /** A token with no blank at either end is left alone by stripping. */
  lemma StripUnblanked(t: string)
    requires |t| > 0 && !IsSpace(t[0]) && !IsSpace(t[|t| - 1])
    ensures StripTrailing(StripLeading(t)) == t
  {
  }

  /** `int` of a non-empty run of digits is its value. */
  lemma ParseIntOfDigits(t: string)
    requires |t| > 0 && AllDigits(t)
    ensures ParseInt(t) == Some(DigitsValue(t))
  {
    assert IsDigit(t[0]) && IsDigit(t[|t| - 1]);
    StripUnblanked(t);
  }

  /** `int` of a minus sign followed by a run of digits is the negated value. */
  lemma ParseIntOfSignedDigits(t: string)
    requires |t| > 1 && t[0] == '-' && AllDigits(t[1..])
    ensures ParseInt(t) == Some(-(DigitsValue(t[1..]) as int))
  {
    assert t[|t| - 1] == t[1..][|t| - 2];
    assert IsDigit(t[1..][|t| - 2]);
    StripUnblanked(t);
    var digits := t[1..];
    assert |digits| > 0 && AllDigits(digits);
    assert !(t[0] == '+');
  }

  /** `int` refuses a blank-free token that starts with neither a sign nor a digit. */
  lemma ParseIntOfNonDigit(t: string)
    requires |t| > 0 && !IsSpace(t[0]) && !IsSpace(t[|t| - 1])
    requires t[0] != '+' && t[0] != '-' && !IsDigit(t[0])
    ensures ParseInt(t) == None
  {
    StripUnblanked(t);
  }

  /** `int` reads back what `str` writes. */
  lemma ParseIntOfDecimal(n: nat)
    ensures ParseInt(DecimalString(n)) == Some(n)
  {
    ParseIntOfDigits(DecimalString(n));
    DigitsValueOfDecimal(n);
  }

  /** `int` reads a minus sign followed by a rendered number as its negation. */
  lemma ParseIntOfNegated(n: nat)
    ensures ParseInt("-" + DecimalString(n)) == Some(-(n as int))
  {
    DigitsValueOfDecimal(n);
    ParseIntOfMinus(DecimalString(n), n);
  }

  lemma ParseIntOfMinus(s: string, value: nat)
    requires |s| > 0 && AllDigits(s) && DigitsValue(s) == value
    ensures ParseInt("-" + s) == Some(-(value as int))
  {
    var t := "-" + s;
    assert t[0] == '-' && t[1..] == s && t[|t| - 1] == s[|s| - 1];
    assert IsDigit(s[|s| - 1]);
    StripUnblanked(t);
  }

  // ---------------------------------------------------------------------------
  // parse_week_year_to_date

  datatype WeekYearError =
    | NotAnInteger(text: string)        // int() raised ValueError
    | NoSuchWeek(year: int, week: int)  // strptime raised ValueError

  /** Day number of 31 December 9999, the last day `date.fromordinal` accepts. */
  const MaxOrdinal := 3652059

  /** A day number a Python `date` can hold, 1 January 1 to 31 December 9999; date arithmetic leaving it raises OverflowError. */
  predicate Representable(day: int) {
    1 <= day <= MaxOrdinal
  }

  lemma Jan1Of10000()
    ensures Jan1(10000) == MaxOrdinal + 1
  {
  }

  /**
   * `strptime` returns a date for `"<year>-W<week>-1"` against `%Y-W%W-%w`
   * exactly when the year prints as four digits (`%Y` matches `\d\d\d\d`),
   * the week as one of 0 to 53 (`%W` matches `5[0-3]|[0-4]\d|\d`), and the
   * Monday it computes is a day `date.fromordinal` can represent; otherwise it
   * raises ValueError. Only week 53 of 9999 fails the last test, so that is
   * how the test is written here; `StrptimeRange` proves the two forms agree.
   */
  predicate StrptimeAccepts(year: int, week: int) {
    1000 <= year <= 9999 && 0 <= week <= 53 && !(year == 9999 && week == 53)
  }

  /** The accepted year-week pairs are those matching the pattern whose Monday is representable. */
  lemma StrptimeRange(year: int, week: int)
    ensures StrptimeAccepts(year, week) <==>
      1000 <= year <= 9999 && 0 <= week <= 53 && MondayOfWeek(year, week) <= MaxOrdinal
  {
    AcceptedWeeks(year, week);
  }

  /** 1 January moves forward with the year. */
  lemma {:induction false} Jan1Monotone(a: int, b: int)
    requires 1 <= a <= b
    ensures Jan1(a) + 365 * (b - a) <= Jan1(b)
    decreases b - a
  {
    if a < b {
      Jan1Monotone(a, b - 1);
      Jan1Next(b - 1);
    }
  }

  /** Every week of the years 1000 to 9999 has a representable Monday, except week 53 of 9999. */
  lemma AcceptedWeeks(year: int, week: int)
    ensures 1000 <= year <= 9999 && 0 <= week <= 53 ==>
      (MondayOfWeek(year, week) <= MaxOrdinal <==> !(year == 9999 && week == 53))
  {
    if 1000 <= year <= 9999 && 0 <= week <= 53 {
      Jan1Of10000();
      if year <= 9998 {
        Jan1Monotone(year, 10000);
      } else {
        LastWeeksOf9999();
      }
    }
  }

  /** 1 January 9999 is a Friday, so its week 1 starts on 4 January and week 53 ends past the year. */
  lemma LastWeeksOf9999()
    ensures MondayOfWeek(9999, 53) == MaxOrdinal + 3
    ensures forall week :: 1 <= week <= 53 ==> MondayOfWeek(9999, week) == 3651698 + 7 * (week - 1)
  {
    assert Jan1(9999) == 3651695;
    assert Weekday(3651695) == 4;
  }

  /** The Monday of an accepted week is a day `date.fromordinal` can represent. */
  lemma AcceptedMondayRepresentable(year: int, week: int)
    requires StrptimeAccepts(year, week)
    ensures 1 <= MondayOfWeek(year, week) <= MaxOrdinal
  {
    StrptimeRange(year, week);
    var jan1 := Jan1(year);
    assert jan1 > 365 * 999;
    assert MondayOfWeek(year, week) > jan1 - 7;
  }

  /**
   * `parse_week_year_to_date`: `int()` on the first four and the last two
   * characters, then `strptime`. A result is always a Monday that
   * `date.fromordinal` can represent.
   */
  function ParseWeekYear(token: string): (r: Result<int, WeekYearError>)
    ensures r.Ok? ==> 1 <= r.value <= MaxOrdinal && Weekday(r.value) == 0
  {
    var yearText := token[..if |token| < 4 then |token| else 4];
    var weekText := token[if |token| < 2 then 0 else |token| - 2..];
    match ParseInt(yearText)
    case None => Err(NotAnInteger(yearText))
    case Some(year) =>
      match ParseInt(weekText)
      case None => Err(NotAnInteger(weekText))
      case Some(week) =>
        if StrptimeAccepts(year, week) then AcceptedMondayRepresentable(year, week); Ok(MondayOfWeek(year, week))
        else Err(NoSuchWeek(year, week))
  }

  lemma TwoDigitRendering(n: nat)
    requires 10 <= n <= 99
    ensures |DecimalString(n)| == 2
  {
    assert |DecimalString(n / 10)| == 1;
  }

  lemma FourDigitRendering(n: nat)
    requires 1000 <= n <= 9999
    ensures |DecimalString(n)| == 4
  {
    TwoDigitRendering(n / 100);
    assert |DecimalString(n / 10)| == 3;
  }

  /** Once both integers are read and `strptime` accepts them, the result is the week's Monday. */
  lemma ParseFromParts(token: string, year: int, week: int)
    requires |token| >= 4
    requires ParseInt(token[..4]) == Some(year) && ParseInt(token[|token| - 2..]) == Some(week)
    requires StrptimeAccepts(year, week)
    ensures ParseWeekYear(token) == Ok(MondayOfWeek(year, week))
  {
  }

  /** A week number written with two digits, zero-padded as in `2025-W05`. */
  function WeekDigits(week: nat): (s: string)
    requires week <= 99
    ensures |s| == 2 && AllDigits(s) && DigitsValue(s) == week
  {
    var s := [DigitChar(week / 10), DigitChar(week % 10)];
    assert s[..1][..0] == [] && s[..1] == [s[0]];
    assert DigitsValue(s[..1]) == week / 10;
    assert DigitsValue(s) == (week / 10) * 10 + week % 10;
    s
  }

  /** Both integers of a well-formed token read back as the year and the week. */
  lemma WellFormedTokenParts(token: string, year: int, week: int)
    requires 1000 <= year <= 9999 && 0 <= week <= 53
    requires token == DecimalString(year) + "-W" + WeekDigits(week)
    ensures |token| == 8
    ensures ParseInt(token[..4]) == Some(year) && ParseInt(token[|token| - 2..]) == Some(week)
  {
    FourDigitRendering(year);
    assert token[..4] == DecimalString(year);
    assert token[|token| - 2..] == WeekDigits(week);
    ParseIntOfDecimal(year);
    ParseIntOfDigits(WeekDigits(week));
  }

  /**
   * A well-formed token `YYYY-Www` (a four-digit year from 1000, a two-digit
   * week from 00 to 53, other than week 53 of 9999) parses to the Monday of
   * that `%W` week, which `MondayOfWeek` places `week - 1` weeks after the
   * year's first Monday.
   */
  lemma ParseWellFormedToken(token: string, year: int, week: int)
    requires 1000 <= year <= 9999 && 0 <= week <= 53 && !(year == 9999 && week == 53)
    requires token == DecimalString(year) + "-W" + WeekDigits(week)
    ensures ParseWeekYear(token) == Ok(MondayOfWeek(year, week))
  {
    WellFormedTokenParts(token, year, week);
    ParseFromParts(token, year, week);
  }

  /** `9999-W53` is refused: its Monday would fall in the year 10000. */
  lemma LastWeekOf9999Refused(token: string)
    requires token == DecimalString(9999) + "-W" + WeekDigits(53)
    ensures ParseWeekYear(token) == Err(NoSuchWeek(9999, 53))
  {
    WellFormedTokenParts(token, 9999, 53);
  }

  /** Digits of 2025, written out. */
  lemma Render2025()
    ensures DecimalString(2025) == "2025"
  {
    assert DecimalString(2) == "2";
    assert DecimalString(20) == "20";
    assert DecimalString(202) == "202";
  }

  /** The week is read from the last two characters only: `2025-W5` is refused. */
  lemma SingleDigitWeekRefused()
    ensures ParseWeekYear("2025-W5") == Err(NotAnInteger("W5"))
  {
    var token := "2025-W5";
    assert token[..4] == "2025" && token[5..] == "W5";
    Render2025();
    ParseIntOfDecimal(2025);
    ParseIntOfNonDigit("W5");
  }

  lemma Render25()
    ensures DecimalString(25) == "25"
  {
    assert DecimalString(2) == "2";
  }

  /** Week 25 of 2025 under `%W`: 1 January 2025 (day 739252) is a Wednesday. */
  lemma Monday25Of2025()
    ensures MondayOfWeek(2025, 25) == 739425
  {
    assert Jan1(2025) == 739252;
    assert Weekday(739252) == 2;
  }

  /** `2025-W25` is Monday 23 June 2025 (day 739425); the ISO week 25 starts on 16 June. */
  lemma Week25Of2025()
    ensures ParseWeekYear("2025-W25") == Ok(739425)
  {
    var token := "2025-W25";
    assert token[..4] == "2025" && token[6..] == "25";
    Render2025();
    ParseIntOfDecimal(2025);
    Render25();
    ParseIntOfDecimal(25);
    ParseFromParts(token, 2025, 25);
    Monday25Of2025();
  }

  lemma Render9999()
    ensures DecimalString(9999) == "9999"
  {
    assert DecimalString(9) == "9";
    assert DecimalString(99) == "99";
    assert DecimalString(999) == "999";
  }

  lemma Render52()
    ensures DecimalString(52) == "52"
  {
    assert DecimalString(5) == "5";
  }

  /** `9999-W52` is Monday 27 December 9999, four days before the last date. */
  lemma Week52Of9999()
    ensures ParseWeekYear("9999-W52") == Ok(MaxOrdinal - 4)
  {
    var token := "9999-W52";
    assert token[..4] == "9999" && token[6..] == "52";
    Render9999();
    ParseIntOfDecimal(9999);
    Render52();
    ParseIntOfDecimal(52);
    ParseFromParts(token, 9999, 52);
    LastWeeksOf9999();
  }

  // ---------------------------------------------------------------------------
  // Proof helpers: arithmetic and sequence facts with no counterpart in the source

  /** A multiple of 400 is a multiple of 100, and a multiple of 100 is a multiple of 4. */
  lemma DivisibilityChain(n: int)
    ensures n % 400 == 0 ==> n % 100 == 0
    ensures n % 100 == 0 ==> n % 4 == 0
  {
    if n % 400 == 0 {
      ScaledMultiples(n / 400);
    }
    if n % 100 == 0 {
      ScaledMultiples(n / 100);
    }
  }

  lemma ScaledMultiples(k: int)
    ensures (400 * k) % 100 == 0 && (100 * k) % 4 == 0
  {
  }

  /**
   * A quotient by 4, 100 or 400 steps up by one exactly at a multiple. The
   * branches are empty on purpose: each fixes `d` to one constant, which turns
   * the division into linear arithmetic the solver decides unaided, while a
   * variable divisor would be non-linear.
   */
  lemma QuotientStep(n: int, d: int)
    requires d == 4 || d == 100 || d == 400
    ensures n / d == (n - 1) / d + (if n % d == 0 then 1 else 0)
  {
    if d == 4 {
    } else if d == 100 {
    } else {
    }
  }
}
