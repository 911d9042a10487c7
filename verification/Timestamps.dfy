/**
 Instants and their RFC 3339 text with Go's RFC3339Nano layout, which drops trailing zeros
 of the fraction and drops an empty fraction. The DynamoDB store compares leases and retry
 times as such strings.
 */
module Timestamps {
  import opened Ordering
  import opened Strings

  /** Nanoseconds since January 1 of year 1, Go's zero time. */
  type Time = int

  const ZERO: Time := 0
  const SECOND: int := 1_000_000_000
  const DAY_SECONDS: int := 86_400

  // ----- The Gregorian calendar

  predicate IsLeap(year: int) {
    year % 4 == 0 && (year % 100 != 0 || year % 400 == 0)
  }

  function YearLength(year: int): int {
    if IsLeap(year) then 366 else 365
  }

  /** Days from January 1 of year 1 to January 1 of the year. */
  function YearStart(year: int): int {
    var n := year - 1;
    365 * n + n / 4 - n / 100 + n / 400
  }

  lemma YearStartStep(year: int)
    ensures YearStart(year + 1) == YearStart(year) + YearLength(year)
  {
    FourthYear(year);
    HundredthYear(year);
    FourHundredthYear(year);
    EveryFourth(year);
  }

  lemma FourthYear(year: int)
    ensures year / 4 == (year - 1) / 4 + if year % 4 == 0 then 1 else 0
  {
  }

  lemma HundredthYear(year: int)
    ensures year / 100 == (year - 1) / 100 + if year % 100 == 0 then 1 else 0
  {
  }

  lemma FourHundredthYear(year: int)
    ensures year / 400 == (year - 1) / 400 + if year % 400 == 0 then 1 else 0
  {
  }

  lemma EveryFourth(year: int)
    ensures (year % 400 == 0 ==> year % 100 == 0) && (year % 100 == 0 ==> year % 4 == 0)
  {
  }

  lemma YearStartMonotone(a: int, b: int)
    requires a <= b
    ensures YearStart(a) + 365 * (b - a) <= YearStart(b)
    decreases b - a
  {
    if a < b {
      YearStartStep(a);
      YearStartMonotone(a + 1, b);
    }
  }

  /** The year of a day, searched from a year that is not later. */
  function YearFrom(year: int, day: int): (y: int)
    requires YearStart(year) <= day
    ensures YearStart(y) <= day < YearStart(y + 1)
    decreases day - YearStart(year)
  {
    YearStartStep(year);
    if day < YearStart(year + 1) then year else YearFrom(year + 1, day)
  }

  function YearOf(day: int): (y: int)
    ensures YearStart(y) <= day < YearStart(y + 1)
  {
    var early := if day >= 0 then 1 else day / 365;
    assert YearStart(early) <= day by {
      if day < 0 {
        YearStartMonotone(early, 1);
      }
    }
    YearFrom(early, day)
  }

  /** Days of the year before the month. */
  function MonthStart(month: int, leap: bool): int
    requires 1 <= month <= 13
  {
    var late := if leap then 1 else 0;
    match month
    case 1 => 0
    case 2 => 31
    case 3 => 59 + late
    case 4 => 90 + late
    case 5 => 120 + late
    case 6 => 151 + late
    case 7 => 181 + late
    case 8 => 212 + late
    case 9 => 243 + late
    case 10 => 273 + late
    case 11 => 304 + late
    case 12 => 334 + late
    case 13 => 365 + late
  }

  function MonthFrom(month: int, leap: bool, yearDay: int): (m: int)
    requires 1 <= month <= 12 && MonthStart(month, leap) <= yearDay < MonthStart(13, leap)
    ensures 1 <= m <= 12 && MonthStart(m, leap) <= yearDay < MonthStart(m + 1, leap)
    decreases 13 - month
  {
    if yearDay < MonthStart(month + 1, leap) then month else MonthFrom(month + 1, leap, yearDay)
  }

  datatype Date = Date(year: int, month: int, day: int)

  datatype Clock = Clock(hour: int, minute: int, second: int)

  predicate ValidDate(d: Date) {
    1 <= d.month <= 12 && 1 <= d.day <= 31
  }

  predicate ValidClock(c: Clock) {
    0 <= c.hour < 24 && 0 <= c.minute < 60 && 0 <= c.second < 60
  }

  function DateOf(day: int): (d: Date)
    ensures ValidDate(d)
  {
    var year := YearOf(day);
    var leap := IsLeap(year);
    YearStartStep(year);
    var month := MonthFrom(1, leap, day - YearStart(year));
    Date(year, month, day - YearStart(year) - MonthStart(month, leap) + 1)
  }

  function ClockOf(seconds: int): (c: Clock)
    requires 0 <= seconds < DAY_SECONDS
    ensures ValidClock(c)
  {
    Clock(seconds / 3600, seconds / 60 % 60, seconds % 60)
  }

  predicate EarlierDate(a: Date, b: Date) {
    a.year < b.year || (a.year == b.year && (
    a.month < b.month || (a.month == b.month && a.day < b.day)))
  }

  predicate EarlierClock(a: Clock, b: Clock) {
    a.hour < b.hour || (a.hour == b.hour && (
    a.minute < b.minute || (a.minute == b.minute && a.second < b.second)))
  }

  lemma MonthStartMonotone(a: int, b: int, leap: bool)
    requires 1 <= a <= b <= 13
    ensures MonthStart(a, leap) <= MonthStart(b, leap)
  {
  }

  lemma ClockOrder(a: int, b: int)
    requires 0 <= a < b < DAY_SECONDS
    ensures EarlierClock(ClockOf(a), ClockOf(b))
  {
    assert a / 60 == 60 * (a / 3600) + a / 60 % 60;
    assert b / 60 == 60 * (b / 3600) + b / 60 % 60;
  }

  lemma YearsOrder(a: int, b: int)
    requires a < b
    ensures YearOf(a) <= YearOf(b)
  {
    hide YearStart;
    if YearOf(b) + 1 <= YearOf(a) {
      YearStartMonotone(YearOf(b) + 1, YearOf(a));
    }
  }

  lemma MonthsOrder(a: int, b: int)
    requires a < b && YearOf(a) == YearOf(b)
    ensures DateOf(a).month <= DateOf(b).month
  {
    hide YearStart, YearOf, IsLeap, MonthStart;
    if DateOf(b).month + 1 <= DateOf(a).month {
      MonthStartMonotone(DateOf(b).month + 1, DateOf(a).month, IsLeap(YearOf(a)));
    }
  }

  /** The calendar keeps the order of days. */
  lemma DateOrder(a: int, b: int)
    requires a < b
    ensures EarlierDate(DateOf(a), DateOf(b))
  {
    hide YearStart, YearOf, IsLeap, MonthStart, MonthFrom;
    YearsOrder(a, b);
    if YearOf(a) == YearOf(b) {
      MonthsOrder(a, b);
    }
  }

  // ----- Decimal text

  function Pow10(w: nat): (p: nat)
    ensures p > 0
  {
    if w == 0 then 1 else 10 * Pow10(w - 1)
  }

  predicate AllDigits(s: string) {
    forall i | 0 <= i < |s| :: '0' <= s[i] <= '9'
  }

  /** The last w decimal digits. */
  function Pad(n: nat, w: nat): (s: string)
    ensures |s| == w && AllDigits(s)
    decreases w
  {
    if w == 0 then "" else Pad(n / 10, w - 1) + [('0' as int + n % 10) as char]
  }

  lemma {:induction false} PadOrder(m: nat, n: nat, w: nat)
    requires m < n < Pow10(w)
    ensures Less(Pad(m, w), Pad(n, w))
    decreases w
  {
    var cm, cn := ('0' as int + m % 10) as char, ('0' as int + n % 10) as char;
    if m / 10 < n / 10 {
      PadOrder(m / 10, n / 10, w - 1);
      LessIrreflexive(Pad(m / 10, w - 1));
      LessDecidedEarly(Pad(m / 10, w - 1), Pad(n / 10, w - 1), [cm], [cn]);
    } else {
      LessAfterPrefix(Pad(m / 10, w - 1), [cm], [cn]);
    }
  }

  /** At least four digits, with a sign in front of a negative year. */
  function YearText(year: int): string {
    if year < 0 then "-" + Natural(-year) else Natural(year)
  }

  function Natural(n: nat): (s: string)
    ensures s != "" && AllDigits(s)
  {
    if n < 10000 then Pad(n, 4) else Natural(n / 10) + [('0' as int + n % 10) as char]
  }

  function DateText(d: Date): string
    requires ValidDate(d)
  {
    YearText(d.year) + ("-" + (Pad(d.month, 2) + ("-" + Pad(d.day, 2))))
  }

  function ClockText(c: Clock): (s: string)
    requires ValidClock(c)
    ensures |s| == 8
  {
    Pad(c.hour, 2) + (":" + (Pad(c.minute, 2) + (":" + Pad(c.second, 2))))
  }

  /** The text of an instant up to its second. */
  function SecondText(seconds: int): string {
    DayText(seconds / DAY_SECONDS, seconds % DAY_SECONDS)
  }

  function DayText(day: int, clock: int): string
    requires 0 <= clock < DAY_SECONDS
  {
    DateText(DateOf(day)) + ("T" + ClockText(ClockOf(clock)))
  }

  /** The digits without trailing zeros. */
  function Trim(digits: string): (s: string)
    ensures |s| <= |digits|
  {
    if forall i | 0 <= i < |digits| :: digits[i] == '0' then "" else [digits[0]] + Trim(digits[1..])
  }

  /** The significant digits of the fraction of a second. */
  function Fraction(t: Time): string {
    Trim(Pad(t % SECOND, 9))
  }

  function FractionText(fraction: string): string {
    (if fraction == "" then "" else "." + fraction) + "Z"
  }

  /** timestamp: the instant in UTC with layout RFC3339Nano. */
  function Timestamp(t: Time): string {
    SecondText(t / SECOND) + FractionText(Fraction(t))
  }

  // ----- Order of timestamps

  /** Years 0000 to 9999, where the text of the second has a fixed width. */
  predicate FourDigitYear(t: Time) {
    0 <= YearOf(t / SECOND / DAY_SECONDS) <= 9999
  }

  /** The first instants of the years 0 and 10000. */
  const YEAR_0: Time := -31_622_400_000_000_000
  const YEAR_10000: Time := 315_537_897_600_000_000_000

  predicate InYears(t: Time) {
    YEAR_0 <= t < YEAR_10000
  }

  lemma YearBounds(day: int)
    ensures 0 <= YearOf(day) <= 9999 <==> YearStart(0) <= day < YearStart(10000)
  {
    hide YearStart, YearOf;
    var y := YearOf(day);
    if y < 0 {
      YearStartMonotone(y + 1, 0);
    } else {
      YearStartMonotone(0, y);
    }
    if y > 9999 {
      YearStartMonotone(10000, y);
    } else {
      YearStartMonotone(y + 1, 10000);
    }
  }

  /** The years of four digits in nanoseconds. */
  lemma FourDigitYearExactly(t: Time)
    ensures FourDigitYear(t) <==> InYears(t)
  {
    hide YearOf;
    YearBounds(t / SECOND / DAY_SECONDS);
    assert YearStart(0) == -366 && YearStart(10000) == 3_652_059;
  }

  /** A field and what follows it: the field decides, and the rest decides among equal fields. */
  lemma {:induction false} FieldOrder(m: nat, n: nat, w: nat, x: string, y: string)
    requires m < Pow10(w) && n < Pow10(w)
    ensures m < n ==> Less(Pad(m, w) + x, Pad(n, w) + y)
    ensures m == n ==> Less(Pad(m, w) + x, Pad(n, w) + y) == Less(x, y)
  {
    if m < n {
      PadOrder(m, n, w);
      LessIrreflexive(Pad(m, w));
      LessDecidedEarly(Pad(m, w), Pad(n, w), x, y);
    } else if m == n {
      LessAfterPrefix(Pad(m, w), x, y);
    }
  }

  lemma ClockTextOrder(a: Clock, b: Clock)
    requires ValidClock(a) && ValidClock(b) && EarlierClock(a, b)
    ensures Less(ClockText(a), ClockText(b))
  {
    assert Pow10(2) == 100;
    var a1, b1 := ":" + Pad(a.second, 2), ":" + Pad(b.second, 2);
    var a2, b2 := ":" + (Pad(a.minute, 2) + a1), ":" + (Pad(b.minute, 2) + b1);
    if a.second < b.second {
      PadOrder(a.second, b.second, 2);
    }
    LessAfterPrefix(":", Pad(a.second, 2), Pad(b.second, 2));
    FieldOrder(a.minute, b.minute, 2, a1, b1);
    LessAfterPrefix(":", Pad(a.minute, 2) + a1, Pad(b.minute, 2) + b1);
    FieldOrder(a.hour, b.hour, 2, a2, b2);
  }

  lemma SmallPowers()
    ensures Pow10(2) == 100 && Pow10(4) == 10000
  {
  }

  lemma {:induction false} YearTextIs(year: int)
    requires 0 <= year <= 9999
    ensures YearText(year) == Pad(year, 4)
  {
  }

  lemma DateTextOrder(a: Date, b: Date)
    requires ValidDate(a) && ValidDate(b) && EarlierDate(a, b)
    requires 0 <= a.year <= 9999 && 0 <= b.year <= 9999
    ensures Less(DateText(a), DateText(b)) && |DateText(a)| == |DateText(b)|
  {
    hide Pad, Pow10, YearText, Less;
    SmallPowers();
    YearTextIs(a.year);
    YearTextIs(b.year);
    var a1, b1 := "-" + Pad(a.day, 2), "-" + Pad(b.day, 2);
    var a2, b2 := "-" + (Pad(a.month, 2) + a1), "-" + (Pad(b.month, 2) + b1);
    if a.day < b.day {
      PadOrder(a.day, b.day, 2);
    }
    LessAfterPrefix("-", Pad(a.day, 2), Pad(b.day, 2));
    FieldOrder(a.month, b.month, 2, a1, b1);
    LessAfterPrefix("-", Pad(a.month, 2) + a1, Pad(b.month, 2) + b1);
    FieldOrder(a.year, b.year, 4, a2, b2);
  }

  lemma DateAndClockOrder(da: Date, ca: Clock, db: Date, cb: Clock)
    requires ValidDate(da) && ValidClock(ca) && ValidDate(db) && ValidClock(cb)
    requires 0 <= da.year <= 9999 && 0 <= db.year <= 9999
    requires EarlierDate(da, db) || (da == db && EarlierClock(ca, cb))
    ensures Less(DateText(da) + ("T" + ClockText(ca)), DateText(db) + ("T" + ClockText(cb)))
    ensures |DateText(da)| == |DateText(db)|
  {
    var x, y := "T" + ClockText(ca), "T" + ClockText(cb);
    if EarlierDate(da, db) {
      DateTextOrder(da, db);
      LessIrreflexive(DateText(da));
      LessDecidedEarly(DateText(da), DateText(db), x, y);
    } else {
      ClockTextOrder(ca, cb);
      LessAfterPrefix("T", ClockText(ca), ClockText(cb));
      LessAfterPrefix(DateText(da), x, y);
    }
  }

  lemma DayTextOrder(da: int, ca: int, db: int, cb: int)
    requires 0 <= ca < DAY_SECONDS && 0 <= cb < DAY_SECONDS
    requires da < db || (da == db && ca < cb)
    requires 0 <= YearOf(da) <= 9999 && 0 <= YearOf(db) <= 9999
    ensures Less(DayText(da, ca), DayText(db, cb)) && |DayText(da, ca)| == |DayText(db, cb)|
  {
    if da < db {
      DateOrder(da, db);
    } else {
      ClockOrder(ca, cb);
    }
    DateAndClockOrder(DateOf(da), ClockOf(ca), DateOf(db), ClockOf(cb));
  }

  lemma DaysOrder(a: int, b: int)
    requires a < b
    ensures a / DAY_SECONDS < b / DAY_SECONDS
         || (a / DAY_SECONDS == b / DAY_SECONDS && a % DAY_SECONDS < b % DAY_SECONDS)
  {
  }

  lemma SecondTextOrder(a: int, b: int)
    requires a < b && 0 <= YearOf(a / DAY_SECONDS) <= 9999 && 0 <= YearOf(b / DAY_SECONDS) <= 9999
    ensures Less(SecondText(a), SecondText(b)) && |SecondText(a)| == |SecondText(b)| && SecondText(a) != SecondText(b)
  {
    DaysOrder(a, b);
    DayTextOrder(a / DAY_SECONDS, a % DAY_SECONDS, b / DAY_SECONDS, b % DAY_SECONDS);
    LessIrreflexive(SecondText(a));
  }

  /** Instants in different seconds: byte order is time order, whatever follows the texts. */
  lemma {:induction false} OrderAcrossSeconds(a: Time, b: Time, x: string, y: string)
    requires FourDigitYear(a) && FourDigitYear(b)
    requires a / SECOND < b / SECOND
    ensures Less(Timestamp(a), Timestamp(b)) && Less(Timestamp(a) + x, Timestamp(b) + y)
  {
    hide SecondText, FractionText, Fraction;
    var s, t := SecondText(a / SECOND), SecondText(b / SECOND);
    SecondTextOrder(a / SECOND, b / SECOND);
    LessDecidedEarly(s, t, FractionText(Fraction(a)), FractionText(Fraction(b)));
    Assoc(s, FractionText(Fraction(a)), x);
    Assoc(t, FractionText(Fraction(b)), y);
    LessDecidedEarly(s, t, FractionText(Fraction(a)) + x, FractionText(Fraction(b)) + y);
  }

  lemma {:induction false} TrimOfGreater(a: string, b: string)
    requires |a| == |b| && AllDigits(a) && AllDigits(b) && Less(a, b)
    ensures Trim(b) != "" && Trim(b)[0] == b[0]
  {
    if Trim(b) == "" {
      assert b[0] == '0' && '0' <= a[0];
      if a[0] == b[0] {
        TrimOfGreater(a[1..], b[1..]);
      }
    }
  }

  lemma {:induction false} TrimmedOrder(a: string, b: string)
    requires |a| == |b| && AllDigits(a) && AllDigits(b) && Less(a, b)
    ensures Less(Trim(a) + "Z", Trim(b) + "Z") <==> !(Trim(a) <= Trim(b))
    ensures Trim(a) != Trim(b)
  {
    TrimOfGreater(a, b);
    var x, y := Trim(a), Trim(b);
    if x != "" {
      assert (x + "Z")[1..] == x[1..] + "Z" && (y + "Z")[1..] == y[1..] + "Z";
      if a[0] == b[0] {
        TrimmedOrder(a[1..], b[1..]);
        assert x == [a[0]] + Trim(a[1..]) && y == [a[0]] + Trim(b[1..]);
        assert x <= y <==> Trim(a[1..]) <= Trim(b[1..]);
      }
    }
  }

  lemma {:induction false} FractionTextOrder(x: string, y: string)
    requires y != "" && '0' <= y[0] <= '9' && x != y
    ensures Less(FractionText(x), FractionText(y)) == Less(x + "Z", y + "Z")
    ensures FractionText(x) != FractionText(y)
  {
    assert FractionText(y) == "." + (y + "Z");
    if x == "" {
      assert FractionText(x)[0] == 'Z' && (x + "Z")[0] == 'Z' && (y + "Z")[0] == y[0];
    } else {
      assert FractionText(x) == "." + (x + "Z");
      LessAfterPrefix(".", x + "Z", y + "Z");
      assert (x + "Z")[..|x|] == x && (y + "Z")[..|y|] == y;
      if |x| == |y| {
        assert FractionText(x)[1..][..|x|] == x && FractionText(y)[1..][..|x|] == y;
      }
    }
  }

  /** Instants in one second: the later one has the greater text unless the earlier fraction is a prefix of the later. */
  lemma OrderWithinSecond(a: Time, b: Time)
    requires a < b && a / SECOND == b / SECOND
    ensures Less(Timestamp(a), Timestamp(b)) <==> !(Fraction(a) <= Fraction(b))
    ensures Timestamp(a) != Timestamp(b)
  {
    var p, q := Pad(a % SECOND, 9), Pad(b % SECOND, 9);
    assert Pow10(9) == SECOND by { PowersOfTen(); }
    PadOrder(a % SECOND, b % SECOND, 9);
    TrimOfGreater(p, q);
    TrimmedOrder(p, q);
    FractionTextOrder(Fraction(a), Fraction(b));
    LessAfterPrefix(SecondText(a / SECOND), FractionText(Fraction(a)), FractionText(Fraction(b)));
    if Timestamp(a) == Timestamp(b) {
      SamePrefix(SecondText(a / SECOND), FractionText(Fraction(a)), FractionText(Fraction(b)));
      assert false;
    }
  }

  lemma PowersOfTen()
    ensures Pow10(9) == 1_000_000_000
  {
    assert Pow10(3) == 1000 && Pow10(6) == 1_000_000;
  }

  // ----- What the store's string comparisons decide

  /** retry_at <= :now and lease_until <= :now as DynamoDB compares strings. */
  predicate DueByText(until: Time, now: Time) {
    !Less(Timestamp(now), Timestamp(until))
  }

  /**
   Exactly when the strings say that a lease or retry time has passed: as the clock does
   when the seconds differ; within one second they disagree with the clock precisely where
   one fraction is a prefix of the other.
   */
  lemma DueByTextExactly(until: Time, now: Time)
    requires FourDigitYear(until) && FourDigitYear(now)
    ensures DueByText(until, now) <==>
            ((until / SECOND != now / SECOND && until < now) ||
             (until / SECOND == now / SECOND &&
              (until == now
               || (until < now && !(Fraction(until) <= Fraction(now)))
               || (now < until && Fraction(now) <= Fraction(until)))))
  {
    var x, y := Timestamp(until), Timestamp(now);
    if until == now {
      LessIrreflexive(x);
    } else if until / SECOND < now / SECOND {
      OrderAcrossSeconds(until, now, "", "");
      LessAsymmetric(x, y);
    } else if now / SECOND < until / SECOND {
      OrderAcrossSeconds(now, until, "", "");
    } else if until < now {
      OrderWithinSecond(until, now);
      LessEitherWay(x, y);
    } else {
      OrderWithinSecond(now, until);
    }
  }

  lemma {:induction false} LessEitherWay(x: string, y: string)
    requires x != y
    ensures Less(x, y) <==> !Less(y, x)
  {
    LessTotal(x, y);
    if Less(x, y) {
      LessAsymmetric(x, y);
    }
  }

  /** A lease or retry is judged due less than one second early, and from the next whole second at the latest. */
  lemma DueByTextWithinASecond(until: Time, now: Time)
    requires FourDigitYear(until) && FourDigitYear(now)
    ensures DueByText(until, now) ==> until < now + SECOND
    ensures until / SECOND < now / SECOND ==> DueByText(until, now)
  {
    DueByTextExactly(until, now);
  }

  /** A lease until half past a second is judged expired at the full second, half a second early. */
  lemma DueHalfASecondEarly(now: Time)
    requires FourDigitYear(now) && now % SECOND == 0
    ensures DueByText(now + SECOND / 2, now)
  {
    hide DueByText, YearOf, Fraction;
    var until := now + SECOND / 2;
    HalfASecondLater(now);
    FractionOfWholeSecond(now);
    DueByTextExactly(until, now);
  }

  lemma HalfASecondLater(now: Time)
    requires now % SECOND == 0
    ensures (now + SECOND / 2) / SECOND == now / SECOND
  {
  }

  lemma FractionOfWholeSecond(t: Time)
    requires t % SECOND == 0
    ensures Fraction(t) == ""
  {
    PadZero(9);
  }

  lemma {:induction false} PadZero(w: nat)
    ensures forall i | 0 <= i < w :: Pad(0, w)[i] == '0'
  {
    if w > 0 {
      PadZero(w - 1);
    }
  }

  // ----- Different instants have different timestamps, in any year

  lemma {:induction false} PadInjective(m: nat, n: nat, w: nat)
    requires m < Pow10(w) && n < Pow10(w) && Pad(m, w) == Pad(n, w)
    ensures m == n
  {
    LessIrreflexive(Pad(m, w));
    if m < n {
      PadOrder(m, n, w);
    } else if n < m {
      PadOrder(n, m, w);
    }
  }

  lemma {:induction false} NaturalLength(n: nat)
    ensures |Natural(n)| >= 4
    ensures n < 10000 <==> |Natural(n)| == 4
  {
    if n >= 10000 {
      NaturalLength(n / 10);
    }
  }

  lemma {:induction false} NaturalInjective(m: nat, n: nat)
    requires Natural(m) == Natural(n)
    ensures m == n
  {
    NaturalLength(m);
    NaturalLength(n);
    if m < 10000 {
      assert Pow10(4) == 10000;
      PadInjective(m, n, 4);
    } else {
      var s, t := Natural(m / 10), Natural(n / 10);
      SameLengthPrefix(s, [('0' as int + m % 10) as char], t, [('0' as int + n % 10) as char]);
      NaturalInjective(m / 10, n / 10);
    }
  }

  lemma YearTextStart(year: int)
    ensures YearText(year) != ""
    ensures year < 0 <==> YearText(year)[0] == '-'
    ensures '-' !in YearText(year)[1..]
  {
  }

  lemma YearTextInjective(a: int, x: string, b: int, y: string)
    requires YearText(a) + ("-" + x) == YearText(b) + ("-" + y)
    ensures a == b && x == y
  {
    hide Natural;
    var s, t := YearText(a), YearText(b);
    YearTextStart(a);
    YearTextStart(b);
    SameAtSeparatorBehindFirst(s, x, t, y, '-');
    if a < 0 {
      SamePrefix("-", Natural(-a), Natural(-b));
      NaturalInjective(-a, -b);
    } else {
      NaturalInjective(a, b);
    }
  }

  lemma DateTextInjective(a: Date, x: string, b: Date, y: string)
    requires ValidDate(a) && ValidDate(b) && DateText(a) + ("T" + x) == DateText(b) + ("T" + y)
    ensures a == b && x == y
  {
    var a1, b1 := Pad(a.month, 2) + ("-" + Pad(a.day, 2)), Pad(b.month, 2) + ("-" + Pad(b.day, 2));
    Assoc(YearText(a.year), "-" + a1, "T" + x);
    Assoc("-", a1, "T" + x);
    Assoc(YearText(b.year), "-" + b1, "T" + y);
    Assoc("-", b1, "T" + y);
    YearTextInjective(a.year, a1 + ("T" + x), b.year, b1 + ("T" + y));
    SameLengthPrefix(a1, "T" + x, b1, "T" + y);
    SamePrefix("T", x, y);
    MonthDayInjective(a, b);
  }

  lemma MonthDayInjective(a: Date, b: Date)
    requires ValidDate(a) && ValidDate(b)
    requires Pad(a.month, 2) + ("-" + Pad(a.day, 2)) == Pad(b.month, 2) + ("-" + Pad(b.day, 2))
    ensures a.month == b.month && a.day == b.day
  {
    assert Pow10(2) == 100;
    SameLengthPrefix(Pad(a.month, 2), "-" + Pad(a.day, 2), Pad(b.month, 2), "-" + Pad(b.day, 2));
    SamePrefix("-", Pad(a.day, 2), Pad(b.day, 2));
    PadInjective(a.month, b.month, 2);
    PadInjective(a.day, b.day, 2);
  }

  lemma DayTextInjective(da: int, ca: int, x: string, db: int, cb: int, y: string)
    requires 0 <= ca < DAY_SECONDS && 0 <= cb < DAY_SECONDS
    requires DayText(da, ca) + x == DayText(db, cb) + y
    ensures da == db && ca == cb && x == y
  {
    var s, t := ClockText(ClockOf(ca)), ClockText(ClockOf(cb));
    Assoc(DateText(DateOf(da)), "T" + s, x);
    Assoc("T", s, x);
    Assoc(DateText(DateOf(db)), "T" + t, y);
    Assoc("T", t, y);
    DateTextInjective(DateOf(da), s + x, DateOf(db), t + y);
    SameLengthPrefix(s, x, t, y);
    ClockTextInjective(ClockOf(ca), ClockOf(cb));
    SameDay(da, ca, db, cb);
  }

  lemma SameDay(da: int, ca: int, db: int, cb: int)
    requires 0 <= ca < DAY_SECONDS && 0 <= cb < DAY_SECONDS
    requires DateOf(da) == DateOf(db) && ClockOf(ca) == ClockOf(cb)
    ensures da == db && ca == cb
  {
    if da < db {
      DateOrder(da, db);
    } else if db < da {
      DateOrder(db, da);
    }
    if ca < cb {
      ClockOrder(ca, cb);
    } else if cb < ca {
      ClockOrder(cb, ca);
    }
  }

  lemma ClockTextInjective(a: Clock, b: Clock)
    requires ValidClock(a) && ValidClock(b) && ClockText(a) == ClockText(b)
    ensures a == b
  {
    LessIrreflexive(ClockText(a));
    if EarlierClock(a, b) {
      ClockTextOrder(a, b);
    } else if EarlierClock(b, a) {
      ClockTextOrder(b, a);
    }
  }

  lemma TimestampInjective(a: Time, b: Time)
    requires Timestamp(a) == Timestamp(b)
    ensures a == b
  {
    var sa, sb := a / SECOND, b / SECOND;
    DayTextInjective(sa / DAY_SECONDS, sa % DAY_SECONDS, FractionText(Fraction(a)),
      sb / DAY_SECONDS, sb % DAY_SECONDS, FractionText(Fraction(b)));
    if a < b {
      OrderWithinSecond(a, b);
    } else if b < a {
      OrderWithinSecond(b, a);
    }
  }

  // ----- Characters

  lemma DigitsHaveNoHash(s: string)
    requires AllDigits(s)
    ensures '#' !in s
  {
  }

  lemma DateHasNoHash(d: Date)
    requires ValidDate(d)
    ensures '#' !in DateText(d)
  {
    hide Pad, Natural;
    DigitsHaveNoHash(Natural(if d.year < 0 then -d.year else d.year));
    DigitsHaveNoHash(Pad(d.month, 2));
    DigitsHaveNoHash(Pad(d.day, 2));
  }

  lemma ClockHasNoHash(c: Clock)
    requires ValidClock(c)
    ensures '#' !in ClockText(c)
  {
    hide Pad;
    DigitsHaveNoHash(Pad(c.hour, 2));
    DigitsHaveNoHash(Pad(c.minute, 2));
    DigitsHaveNoHash(Pad(c.second, 2));
  }

  lemma {:induction false} TrimKeepsDigits(s: string)
    requires AllDigits(s)
    ensures AllDigits(Trim(s))
  {
    if s != "" {
      TrimKeepsDigits(s[1..]);
    }
  }

  lemma TimestampHasNoHash(t: Time)
    ensures '#' !in Timestamp(t)
  {
    hide DateText, ClockText, DateOf, ClockOf, Pad, Trim;
    var seconds := t / SECOND;
    DateHasNoHash(DateOf(seconds / DAY_SECONDS));
    ClockHasNoHash(ClockOf(seconds % DAY_SECONDS));
    TrimKeepsDigits(Pad(t % SECOND, 9));
    DigitsHaveNoHash(Fraction(t));
  }
}
