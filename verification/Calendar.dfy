/**
 What a timestamp says: the Gregorian date as the day after the day before, the time of day
 and the fraction, each read back from its digits.
 */
module Calendar {
  import opened Strings
  import opened Timestamps

  // ----- Days

  predicate LeapYear(year: int) {
    year % 400 == 0 || (year % 4 == 0 && year % 100 != 0)
  }

  function DaysIn(year: int, month: int): int {
    if month == 2 then if LeapYear(year) then 29 else 28
    else if month == 4 || month == 6 || month == 9 || month == 11 then 30
    else 31
  }

  function NextDate(d: Date): Date {
    if d.day < DaysIn(d.year, d.month) then d.(day := d.day + 1)
    else if d.month < 12 then Date(d.year, d.month + 1, 1)
    else Date(d.year + 1, 1, 1)
  }

  lemma MonthsFollow(year: int, month: int)
    requires 1 <= month <= 12
    ensures MonthStart(month + 1, IsLeap(year)) == MonthStart(month, IsLeap(year)) + DaysIn(year, month)
    ensures MonthStart(1, IsLeap(year)) == 0 && MonthStart(13, IsLeap(year)) == YearLength(year)
  {
  }

  lemma SameYear(day: int, year: int)
    requires YearStart(year) <= day < YearStart(year + 1)
    ensures YearOf(day) == year
  {
    hide YearStart, YearOf;
    if YearOf(day) < year {
      YearStartMonotone(YearOf(day) + 1, year);
    } else if year < YearOf(day) {
      YearStartMonotone(year + 1, YearOf(day));
    }
  }

  lemma SameMonth(a: int, b: int, leap: bool, yearDay: int)
    requires 1 <= a <= 12 && MonthStart(a, leap) <= yearDay < MonthStart(a + 1, leap)
    requires 1 <= b <= 12 && MonthStart(b, leap) <= yearDay < MonthStart(b + 1, leap)
    ensures a == b
  {
    if a < b {
      MonthStartMonotone(a + 1, b, leap);
    } else if b < a {
      MonthStartMonotone(b + 1, a, leap);
    }
  }

  /** A day of a month of a year has that date. */
  lemma DateIs(day: int, year: int, month: int)
    requires 1 <= month <= 12
    requires 0 <= day - YearStart(year) - MonthStart(month, IsLeap(year)) < DaysIn(year, month)
    ensures DateOf(day) == Date(year, month, day - YearStart(year) - MonthStart(month, IsLeap(year)) + 1)
  {
    hide YearStart, YearOf, IsLeap, MonthFrom;
    MonthsFollow(year, month);
    MonthStartMonotone(1, month, IsLeap(year));
    MonthStartMonotone(month + 1, 13, IsLeap(year));
    YearStartStep(year);
    SameYear(day, year);
    SameMonth(DateOf(day).month, month, IsLeap(year), day - YearStart(year));
  }

  lemma DateWithin(day: int)
    ensures var d := DateOf(day);
            && 1 <= d.month <= 12 && 1 <= d.day <= DaysIn(d.year, d.month)
            && day == YearStart(d.year) + MonthStart(d.month, IsLeap(d.year)) + d.day - 1
  {
    hide YearStart, YearOf, IsLeap, MonthFrom;
    MonthsFollow(DateOf(day).year, DateOf(day).month);
  }

  /** The zero day is January 1 of year 1, and every day has the date after the date of the day before. */
  lemma NextDay(day: int)
    ensures DateOf(0) == Date(1, 1, 1)
    ensures DateOf(day + 1) == NextDate(DateOf(day))
  {
    hide YearStart, YearOf, IsLeap, MonthFrom, DateOf, MonthStart;
    FirstDate();
    var d := DateOf(day);
    DateWithin(day);
    MonthsFollow(d.year, d.month);
    if d.day < DaysIn(d.year, d.month) {
      DateIs(day + 1, d.year, d.month);
    } else if d.month < 12 {
      DateIs(day + 1, d.year, d.month + 1);
    } else {
      YearStartStep(d.year);
      MonthsFollow(d.year + 1, 1);
      DateIs(day + 1, d.year + 1, 1);
    }
  }

  lemma FirstDate()
    ensures DateOf(0) == Date(1, 1, 1)
  {
    assert YearStart(1) == 0;
    DateIs(0, 1, 1);
  }

  // ----- Digits

  /** The number that decimal digits denote. */
  function Number(digits: string): int {
    if digits == "" then 0 else 10 * Number(digits[..|digits| - 1]) + (digits[|digits| - 1] as int - '0' as int)
  }

  lemma {:induction false} NumberOfPad(n: nat, w: nat)
    requires n < Pow10(w)
    ensures Number(Pad(n, w)) == n
    decreases w
  {
    if w > 0 {
      NumberOfPad(n / 10, w - 1);
      assert Pad(n, w)[..w - 1] == Pad(n / 10, w - 1);
    }
  }

  lemma ClockReads(seconds: int)
    requires 0 <= seconds < DAY_SECONDS
    ensures var c := ClockOf(seconds); seconds == 3600 * c.hour + 60 * c.minute + c.second
  {
  }

  /** The fraction has no trailing zero and denotes the nanoseconds of the second. */
  lemma FractionReads(t: Time)
    ensures var f := Fraction(t);
            && |f| <= 9 && AllDigits(f) && (f != "" ==> f[|f| - 1] != '0')
            && Number(f) * Pow10(9 - |f|) == t % SECOND
  {
    var digits := Pad(t % SECOND, 9);
    PowersOfTen();
    NumberOfPad(t % SECOND, 9);
    TrimReads(digits);
    TrimKeepsDigits(digits);
  }

  lemma {:induction false} TrimReads(digits: string)
    requires AllDigits(digits)
    ensures Trim(digits) <= digits && (Trim(digits) != "" ==> Trim(digits)[|Trim(digits)| - 1] != '0')
    ensures Number(digits) == Number(Trim(digits)) * Pow10(|digits| - |Trim(digits)|)
  {
    TrimIsPrefix(digits);
    ZerosBehind(Trim(digits), digits);
  }

  lemma {:induction false} TrimIsPrefix(digits: string)
    ensures Trim(digits) <= digits && (Trim(digits) != "" ==> Trim(digits)[|Trim(digits)| - 1] != '0')
    ensures forall i | |Trim(digits)| <= i < |digits| :: digits[i] == '0'
  {
    if !(forall i | 0 <= i < |digits| :: digits[i] == '0') {
      TrimIsPrefix(digits[1..]);
      assert digits == [digits[0]] + digits[1..];
    }
  }

  lemma {:induction false} ZerosBehind(prefix: string, digits: string)
    requires prefix <= digits && forall i | |prefix| <= i < |digits| :: digits[i] == '0'
    ensures Number(digits) == Number(prefix) * Pow10(|digits| - |prefix|)
    decreases |digits|
  {
    if |digits| > |prefix| {
      ZerosBehind(prefix, digits[..|digits| - 1]);
    } else {
      assert digits == prefix;
    }
  }

  // ----- The text of an instant

  /** Year, month and day, hour, minute and second in fixed columns, then the fraction and the zone. */
  ghost predicate Reads(text: string, d: Date, c: Clock, fraction: string) {
    && |text| >= 20
    && Number(text[..4]) == d.year && text[4] == '-'
    && Number(text[5..7]) == d.month && text[7] == '-'
    && Number(text[8..10]) == d.day && text[10] == 'T'
    && Number(text[11..13]) == c.hour && text[13] == ':'
    && Number(text[14..16]) == c.minute && text[16] == ':'
    && Number(text[17..19]) == c.second
    && text[19..] == if fraction == "" then "Z" else "." + (fraction + "Z")
  }

  /** RFC 3339 text of an instant in the years 0000 to 9999. */
  lemma TimestampReads(t: Time)
    requires InYears(t)
    ensures var seconds := t / SECOND;
            Reads(Timestamp(t), DateOf(seconds / DAY_SECONDS), ClockOf(seconds % DAY_SECONDS), Fraction(t))
  {
    hide DateOf, ClockOf, YearOf, Pad, Fraction, InYears;
    FourDigitYearExactly(t);
    var seconds := t / SECOND;
    var d, c := DateOf(seconds / DAY_SECONDS), ClockOf(seconds % DAY_SECONDS);
    YearOfDate(seconds / DAY_SECONDS);
    FieldsRead(d, c);
    DateColumns(d);
    ClockColumns(c);
    Columns(DateText(d), ClockText(c), FractionText(Fraction(t)));
    assert Timestamp(t) == (DateText(d) + ("T" + ClockText(c))) + FractionText(Fraction(t));
    TailReads(Fraction(t));
  }

  lemma TailReads(fraction: string)
    ensures FractionText(fraction) == if fraction == "" then "Z" else "." + (fraction + "Z")
  {
    Assoc(".", fraction, "Z");
    assert "" + "Z" == "Z";
  }

  lemma YearOfDate(day: int)
    ensures DateOf(day).year == YearOf(day)
  {
  }

  lemma FieldsRead(d: Date, c: Clock)
    requires ValidDate(d) && ValidClock(c) && 0 <= d.year <= 9999
    ensures YearText(d.year) == Pad(d.year, 4) && Number(Pad(d.year, 4)) == d.year
    ensures Number(Pad(d.month, 2)) == d.month && Number(Pad(d.day, 2)) == d.day
    ensures Number(Pad(c.hour, 2)) == c.hour && Number(Pad(c.minute, 2)) == c.minute && Number(Pad(c.second, 2)) == c.second
  {
    assert Pow10(2) == 100 && Pow10(4) == 10000;
    NumberOfPad(d.year, 4);
    NumberOfPad(d.month, 2);
    NumberOfPad(d.day, 2);
    NumberOfPad(c.hour, 2);
    NumberOfPad(c.minute, 2);
    NumberOfPad(c.second, 2);
  }

  lemma DateColumns(d: Date)
    requires ValidDate(d) && 0 <= d.year <= 9999 && YearText(d.year) == Pad(d.year, 4)
    ensures var s := DateText(d);
            && |s| == 10 && s[..4] == Pad(d.year, 4) && s[4] == '-' && s[5..7] == Pad(d.month, 2) && s[7] == '-'
            && s[8..10] == Pad(d.day, 2)
  {
    hide Pad, YearText;
  }

  lemma ClockColumns(c: Clock)
    requires ValidClock(c)
    ensures var s := ClockText(c);
            && |s| == 8 && s[..2] == Pad(c.hour, 2) && s[2] == ':' && s[3..5] == Pad(c.minute, 2) && s[5] == ':'
            && s[6..8] == Pad(c.second, 2)
  {
    hide Pad;
  }

  lemma Columns(date: string, clock: string, tail: string)
    requires |date| == 10 && |clock| == 8
    ensures var s := (date + ("T" + clock)) + tail;
            && s[..4] == date[..4] && s[4] == date[4] && s[5..7] == date[5..7] && s[7] == date[7] && s[8..10] == date[8..10]
            && s[10] == 'T' && s[11..13] == clock[..2] && s[13] == clock[2] && s[14..16] == clock[3..5] && s[16] == clock[5]
            && s[17..19] == clock[6..8] && s[19..] == tail
  {
  }
}
