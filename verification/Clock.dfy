/**
 UTC instants, their ISO 8601 text and the two ways the delivery ledger compares them: as
 datetimes, and as the TEXT values of a column.
 */
module Clock {
  import opened Outcomes

  /** A timezone-aware datetime already converted to UTC. */
  datatype Instant = Instant(year: nat, month: nat, day: nat, hour: nat, minute: nat, second: nat, micro: nat)

  function DaysInMonth(year: nat, month: nat): nat {
    if month == 2 then
      if year % 4 == 0 && (year % 100 != 0 || year % 400 == 0) then 29 else 28
    else if month in {4, 6, 9, 11} then 30
    else 31
  }

  predicate Valid(t: Instant) {
    && 1 <= t.year <= 9999
    && 1 <= t.month <= 12
    && 1 <= t.day <= DaysInMonth(t.year, t.month)
    && t.hour < 24 && t.minute < 60 && t.second < 60 && t.micro < 1_000_000
  }

  /** What the ledger's clock returns. */
  type Utc = t: Instant | Valid(t) witness Instant(1, 1, 1, 0, 0, 0, 0)

  /** The order of datetimes that share one UTC offset: field by field. */
  predicate Before(a: Instant, b: Instant) {
    a.year < b.year || (a.year == b.year && (
    a.month < b.month || (a.month == b.month && (
    a.day < b.day || (a.day == b.day && (
    a.hour < b.hour || (a.hour == b.hour && (
    a.minute < b.minute || (a.minute == b.minute && (
    a.second < b.second || (a.second == b.second && a.micro < b.micro)))))))))))
  }

  /** The BINARY collation of the database: byte by byte, a proper prefix first. */
  predicate TextBefore(a: string, b: string) {
    b != [] && (a == [] || a[0] < b[0] || (a[0] == b[0] && TextBefore(a[1..], b[1..])))
  }

  // ---------------------------------------------------------------- ISO text

  function Digit(n: nat): char
    requires n < 10
  {
    ('0' as int + n) as char
  }

  function Pow10(width: nat): nat {
    if width == 0 then 1 else 10 * Pow10(width - 1)
  }

  function Pad(n: nat, width: nat): (s: string)
    ensures |s| == width
  {
    if width == 0 then "" else Pad(n / 10, width - 1) + [Digit(n % 10)]
  }

  /** `datetime.isoformat()` of a UTC instant: the fraction is omitted when it is zero. */
  function Iso(t: Instant): string {
    Pad(t.year, 4) + ("-" + (Pad(t.month, 2) + ("-" + (Pad(t.day, 2) + ("T" + (Pad(t.hour, 2) + (":" +
    (Pad(t.minute, 2) + (":" + (Pad(t.second, 2) + Fraction(t.micro)))))))))))
  }

  function Fraction(micro: nat): string {
    if micro == 0 then "+00:00" else "." + (Pad(micro, 6) + "+00:00")
  }

  // ---------------------------------------------------------------- parsing

  function DigitValue(c: char): Option<nat> {
    if '0' <= c <= '9' then Some(c as int - '0' as int) else None
  }

  function Number(s: string): Option<nat> {
    if s == "" then Some(0)
    else
      var high :- Number(s[..|s| - 1]);
      var low :- DigitValue(s[|s| - 1]);
      Some(10 * high + low)
  }

  /** Reads a number of exactly `width` digits; returns it with the rest of the text. */
  function TakeNumber(s: string, width: nat): Option<(nat, string)> {
    if |s| < width then None
    else
      var n :- Number(s[..width]);
      Some((n, s[width..]))
  }

  function TakeChar(s: string, c: char): Option<string> {
    if s != "" && s[0] == c then Some(s[1..]) else None
  }

  function TakeFraction(s: string): Option<nat> {
    if s == "+00:00" then Some(0)
    else
      var digits :- TakeChar(s, '.');
      var (micro, rest) :- TakeNumber(digits, 6);
      if rest == "+00:00" then Some(micro) else None
  }

  /** `_parse_expiry` on the UTC spelling that `isoformat` writes; anything else is no expiry. */
  function Parse(s: string): Option<Instant> {
    var (year, s1) :- TakeNumber(s, 4);
    var s2 :- TakeChar(s1, '-');
    var (month, s3) :- TakeNumber(s2, 2);
    var s4 :- TakeChar(s3, '-');
    var (day, s5) :- TakeNumber(s4, 2);
    var s6 :- TakeChar(s5, 'T');
    var (hour, s7) :- TakeNumber(s6, 2);
    var s8 :- TakeChar(s7, ':');
    var (minute, s9) :- TakeNumber(s8, 2);
    var s10 :- TakeChar(s9, ':');
    var (second, s11) :- TakeNumber(s10, 2);
    var micro :- TakeFraction(s11);
    var t := Instant(year, month, day, hour, minute, second, micro);
    if Valid(t) then Some(t) else None
  }

  lemma {:induction false} NumberOfPad(n: nat, width: nat)
    requires n < Pow10(width)
    ensures Number(Pad(n, width)) == Some(n)
  {
    if width > 0 {
      NumberOfPad(n / 10, width - 1);
      assert Pad(n, width)[..width - 1] == Pad(n / 10, width - 1);
    }
  }

  lemma TakeNumberOfPad(n: nat, width: nat, rest: string)
    requires n < Pow10(width)
    ensures TakeNumber(Pad(n, width) + rest, width) == Some((n, rest))
  {
    NumberOfPad(n, width);
    assert (Pad(n, width) + rest)[..width] == Pad(n, width);
    assert (Pad(n, width) + rest)[width..] == rest;
  }

  lemma TakeCharOfCons(c: char, rest: string)
    ensures TakeChar([c] + rest, c) == Some(rest)
  {
  }

  lemma Powers()
    ensures Pow10(2) == 100 && Pow10(4) == 10_000 && Pow10(6) == 1_000_000
  {
    assert Pow10(1) == 10;
    assert Pow10(3) == 1000;
    assert Pow10(5) == 100_000;
  }

  lemma FractionRoundTrip(micro: nat)
    requires micro < 1_000_000
    ensures TakeFraction(Fraction(micro)) == Some(micro)
  {
    if micro != 0 {
      Powers();
      var digits := Pad(micro, 6) + "+00:00";
      assert Fraction(micro)[0] == '.' && Fraction(micro)[1..] == digits;
      TakeNumberOfPad(micro, 6, "+00:00");
    }
  }

  /** Reading back what `isoformat` wrote gives the instant that was written. */
  lemma IsoRoundTrip(t: Instant)
    requires Valid(t)
    ensures Parse(Iso(t)) == Some(t)
  {
    Powers();
    var s11 := Fraction(t.micro);
    var s9 := ":" + (Pad(t.second, 2) + s11);
    var s7 := ":" + (Pad(t.minute, 2) + s9);
    var s5 := "T" + (Pad(t.hour, 2) + s7);
    var s3 := "-" + (Pad(t.day, 2) + s5);
    var s1 := "-" + (Pad(t.month, 2) + s3);
    assert Iso(t) == Pad(t.year, 4) + s1;
    TakeNumberOfPad(t.year, 4, s1);
    TakeCharOfCons('-', Pad(t.month, 2) + s3);
    TakeNumberOfPad(t.month, 2, s3);
    TakeCharOfCons('-', Pad(t.day, 2) + s5);
    TakeNumberOfPad(t.day, 2, s5);
    TakeCharOfCons('T', Pad(t.hour, 2) + s7);
    TakeNumberOfPad(t.hour, 2, s7);
    TakeCharOfCons(':', Pad(t.minute, 2) + s9);
    TakeNumberOfPad(t.minute, 2, s9);
    TakeCharOfCons(':', Pad(t.second, 2) + s11);
    TakeNumberOfPad(t.second, 2, s11);
    FractionRoundTrip(t.micro);
  }

  // ---------------------------------------------------------------- text order

  lemma {:induction false} TextOrderSplits(a: string, b: string, c: string, d: string)
    requires |a| == |b|
    ensures TextBefore(a + c, b + d) <==> TextBefore(a, b) || (a == b && TextBefore(c, d))
  {
    if a == [] {
      assert a + c == c && b + d == d;
    } else {
      assert (a + c)[1..] == a[1..] + c && (b + d)[1..] == b[1..] + d;
      TextOrderSplits(a[1..], b[1..], c, d);
      assert a == [a[0]] + a[1..] && b == [b[0]] + b[1..];
    }
  }

  lemma {:induction false} PadOrder(m: nat, n: nat, width: nat)
    requires m < Pow10(width) && n < Pow10(width)
    ensures TextBefore(Pad(m, width), Pad(n, width)) <==> m < n
    ensures Pad(m, width) == Pad(n, width) <==> m == n
  {
    NumberOfPad(m, width);
    NumberOfPad(n, width);
    if width > 0 {
      PadOrder(m / 10, n / 10, width - 1);
      TextOrderSplits(Pad(m / 10, width - 1), Pad(n / 10, width - 1), [Digit(m % 10)], [Digit(n % 10)]);
    }
  }

  /** Two texts that begin with numbers of one width are ordered by the numbers, then by the rest. */
  lemma FieldOrder(m: nat, n: nat, width: nat, c: string, d: string)
    requires m < Pow10(width) && n < Pow10(width)
    ensures TextBefore(Pad(m, width) + c, Pad(n, width) + d) <==> m < n || (m == n && TextBefore(c, d))
  {
    PadOrder(m, n, width);
    TextOrderSplits(Pad(m, width), Pad(n, width), c, d);
  }

  lemma SeparatorOrder(sep: string, c: string, d: string)
    requires |sep| == 1
    ensures TextBefore(sep + c, sep + d) <==> TextBefore(c, d)
  {
    TextOrderSplits(sep, sep, c, d);
    assert !TextBefore(sep, sep);
  }

  /** `'+' < '.'`, so an omitted fraction sorts before every written one. */
  lemma FractionOrder(m: nat, n: nat)
    requires m < 1_000_000 && n < 1_000_000
    ensures TextBefore(Fraction(m), Fraction(n)) <==> m < n
  {
    Powers();
    if m == 0 && n == 0 {
      TextOrderSplits("+00:00", "+00:00", "", "");
      assert "+00:00" + "" == "+00:00";
      Irreflexive("+00:00");
    } else if m != 0 && n != 0 {
      SeparatorOrder(".", Pad(m, 6) + "+00:00", Pad(n, 6) + "+00:00");
      FieldOrder(m, n, 6, "+00:00", "+00:00");
      Irreflexive("+00:00");
    }
  }

  lemma {:induction false} Irreflexive(s: string)
    ensures !TextBefore(s, s)
  {
    if s != [] { Irreflexive(s[1..]); }
  }

  lemma {:induction false} Asymmetric(a: string, b: string)
    requires TextBefore(a, b)
    ensures !TextBefore(b, a)
  {
    if a != [] && a[0] == b[0] { Asymmetric(a[1..], b[1..]); }
  }

  lemma {:induction false} TextChain(a: string, b: string, c: string)
    requires TextBefore(a, b) && !TextBefore(c, b)
    ensures TextBefore(a, c)
  {
    if a != [] && a[0] == b[0] == c[0] { TextChain(a[1..], b[1..], c[1..]); }
  }

  /** The TEXT comparison the ledger runs in SQL is the datetime comparison it runs in memory. */
  lemma IsoOrder(a: Instant, b: Instant)
    requires Valid(a) && Valid(b)
    ensures TextBefore(Iso(a), Iso(b)) <==> Before(a, b)
  {
    Powers();
    var a6, b6 := Pad(a.second, 2) + Fraction(a.micro), Pad(b.second, 2) + Fraction(b.micro);
    var a5, b5 := Pad(a.minute, 2) + (":" + a6), Pad(b.minute, 2) + (":" + b6);
    var a4, b4 := Pad(a.hour, 2) + (":" + a5), Pad(b.hour, 2) + (":" + b5);
    var a3, b3 := Pad(a.day, 2) + ("T" + a4), Pad(b.day, 2) + ("T" + b4);
    var a2, b2 := Pad(a.month, 2) + ("-" + a3), Pad(b.month, 2) + ("-" + b3);
    FractionOrder(a.micro, b.micro);
    FieldOrder(a.second, b.second, 2, Fraction(a.micro), Fraction(b.micro));
    SeparatorOrder(":", a6, b6);
    FieldOrder(a.minute, b.minute, 2, ":" + a6, ":" + b6);
    SeparatorOrder(":", a5, b5);
    FieldOrder(a.hour, b.hour, 2, ":" + a5, ":" + b5);
    SeparatorOrder("T", a4, b4);
    FieldOrder(a.day, b.day, 2, "T" + a4, "T" + b4);
    SeparatorOrder("-", a3, b3);
    FieldOrder(a.month, b.month, 2, "-" + a3, "-" + b3);
    SeparatorOrder("-", a2, b2);
    FieldOrder(a.year, b.year, 4, "-" + a2, "-" + b2);
  }

  // ---------------------------------------------------------------- leases

  const SECOND := 1_000_000
  const MINUTE := 60 * SECOND
  const HOUR := 60 * MINUTE
  const DAY := 24 * HOUR
  const MAX_CLAIM_DURATION := HOUR

  function TimeOfDay(t: Instant): nat {
    t.hour * HOUR + t.minute * MINUTE + t.second * SECOND + t.micro
  }

  function WithTime(t: Instant, time: nat): Instant
    requires time < DAY
  {
    t.(hour := time / HOUR, minute := time / MINUTE % 60, second := time / SECOND % 60, micro := time % SECOND)
  }

  function NextDay(t: Instant): Option<Instant> {
    if t.day < DaysInMonth(t.year, t.month) then Some(t.(day := t.day + 1))
    else if t.month < 12 then Some(t.(month := t.month + 1, day := 1))
    else if t.year < 9999 then Some(t.(year := t.year + 1, month := 1, day := 1))
    else None
  }

  /** Splitting a time of day into its fields loses nothing. */
  lemma WithTimeIsExact(t: Instant, time: nat)
    requires time < DAY
    ensures TimeOfDay(WithTime(t, time)) == time
    ensures time / HOUR < 24 && time / MINUTE % 60 < 60 && time / SECOND % 60 < 60 && time % SECOND < SECOND
  {
    var seconds, minutes := time / SECOND, time / MINUTE;
    assert time == seconds * SECOND + time % SECOND;
    assert minutes == seconds / 60 && time / HOUR == minutes / 60;
  }

  /** On one calendar day the field order is the order of the microseconds since midnight. */
  lemma TimeOrder(a: Instant, b: Instant)
    requires a.year == b.year && a.month == b.month && a.day == b.day
    requires a.hour < 24 && a.minute < 60 && a.second < 60 && a.micro < SECOND
    requires b.hour < 24 && b.minute < 60 && b.second < 60 && b.micro < SECOND
    ensures Before(a, b) <==> TimeOfDay(a) < TimeOfDay(b)
  {
  }

  /** `now + lease_for`, for a lease of at most an hour: None past the last representable day. */
  function Plus(t: Instant, lease: nat): Option<Instant>
    requires lease <= MAX_CLAIM_DURATION
  {
    var time := TimeOfDay(t) + lease;
    if time < DAY then Some(WithTime(t, time))
    else if time < 2 * DAY then
      var next :- NextDay(t);
      Some(WithTime(next, time - DAY))
    else None
  }

  // The calendar as a count of days and microseconds.

  function DaysBeforeMonth(year: nat, month: nat): nat {
    if month <= 1 then 0 else DaysBeforeMonth(year, month - 1) + DaysInMonth(year, month - 1)
  }

  function DaysBeforeYear(year: nat): nat {
    if year <= 1 then 0 else DaysBeforeYear(year - 1) + DaysBeforeMonth(year - 1, 13)
  }

  /** Days since 0000-12-31, in the proleptic Gregorian calendar. */
  function Days(t: Instant): nat {
    DaysBeforeYear(t.year) + DaysBeforeMonth(t.year, t.month) + t.day
  }

  /** Microseconds on one line; a day has 86,400,000,000 of them. */
  function Micros(t: Instant): int {
    86_400_000_000 * Days(t) + TimeOfDay(t)
  }

  lemma {:induction false} MonthsAscend(year: nat, m: nat, n: nat)
    requires 1 <= m < n
    ensures DaysBeforeMonth(year, m) + DaysInMonth(year, m) <= DaysBeforeMonth(year, n)
  {
    hide DaysInMonth;
    if m + 1 < n { MonthsAscend(year, m, n - 1); }
  }

  lemma {:induction false} YearsAscend(y: nat, z: nat)
    requires 1 <= y < z
    ensures DaysBeforeYear(y) + DaysBeforeMonth(y, 13) <= DaysBeforeYear(z)
  {
    hide DaysBeforeMonth;
    if y + 1 < z { YearsAscend(y, z - 1); }
  }

  lemma EarlierDay(a: Instant, b: Instant)
    requires Valid(a) && Valid(b)
    requires a.year < b.year || (a.year == b.year && (a.month < b.month || (a.month == b.month && a.day < b.day)))
    ensures Days(a) < Days(b)
  {
    hide DaysInMonth;
    if a.year < b.year {
      YearsAscend(a.year, b.year);
      MonthsAscend(a.year, a.month, 13);
    } else if a.month < b.month {
      MonthsAscend(a.year, a.month, b.month);
    }
  }

  lemma TimeFitsInDay(t: Instant)
    requires Valid(t)
    ensures TimeOfDay(t) < DAY
  {
  }

  lemma EarlierDayIsBefore(a: Instant, b: Instant)
    requires Valid(a) && Valid(b) && Days(a) < Days(b)
    ensures Micros(a) < Micros(b)
  {
    TimeFitsInDay(a);
    TimeFitsInDay(b);
    hide Days, TimeOfDay;
  }

  /** The field order is the order of the microseconds: datetimes are points on one line. */
  lemma MicrosOrder(a: Instant, b: Instant)
    requires Valid(a) && Valid(b)
    ensures Before(a, b) <==> Micros(a) < Micros(b)
  {
    if a.year == b.year && a.month == b.month && a.day == b.day {
      TimeOrder(a, b);
    } else if a.year < b.year || (a.year == b.year && (a.month < b.month || (a.month == b.month && a.day < b.day))) {
      EarlierDay(a, b);
      EarlierDayIsBefore(a, b);
    } else {
      EarlierDay(b, a);
      EarlierDayIsBefore(b, a);
    }
  }

  lemma DayAfterMonth(year: nat, month: nat)
    requires year >= 1 && 1 <= month <= 12
    ensures DaysBeforeMonth(year, month + 1) == DaysBeforeMonth(year, month) + DaysInMonth(year, month)
    ensures DaysBeforeYear(year + 1) == DaysBeforeYear(year) + DaysBeforeMonth(year, 13)
    ensures DaysBeforeMonth(year + 1, 1) == 0
  {
    hide DaysInMonth;
  }

  predicate IsLeap(year: nat) {
    year % 400 == 0 || (year % 4 == 0 && year % 100 != 0)
  }

  lemma YearLength(year: nat)
    ensures DaysBeforeMonth(year, 13) == if IsLeap(year) then 366 else 365
  {
    var feb := if IsLeap(year) then 29 else 28;
    assert DaysBeforeMonth(year, 1) == 0 && DaysBeforeMonth(year, 2) == 31 && DaysBeforeMonth(year, 3) == 31 + feb;
    assert DaysBeforeMonth(year, 4) == 62 + feb && DaysBeforeMonth(year, 5) == 92 + feb;
    assert DaysBeforeMonth(year, 6) == 123 + feb && DaysBeforeMonth(year, 7) == 153 + feb;
    assert DaysBeforeMonth(year, 8) == 184 + feb && DaysBeforeMonth(year, 9) == 215 + feb;
    assert DaysBeforeMonth(year, 10) == 245 + feb && DaysBeforeMonth(year, 11) == 276 + feb;
    assert DaysBeforeMonth(year, 12) == 306 + feb;
  }

  lemma LeapStep(n: nat)
    requires n >= 1
    ensures n / 4 - n / 100 + n / 400 == (n - 1) / 4 - (n - 1) / 100 + (n - 1) / 400 + (if IsLeap(n) then 1 else 0)
  {
    Fours(n);
    Hundreds(n);
    FourHundreds(n);
    hide IsLeap;
    LeapDigits(n);
  }

  lemma Fours(n: nat)
    requires n >= 1
    ensures n / 4 == (n - 1) / 4 + (if n % 4 == 0 then 1 else 0)
  {
  }

  lemma Hundreds(n: nat)
    requires n >= 1
    ensures n / 100 == (n - 1) / 100 + (if n % 100 == 0 then 1 else 0)
  {
  }

  lemma FourHundreds(n: nat)
    requires n >= 1
    ensures n / 400 == (n - 1) / 400 + (if n % 400 == 0 then 1 else 0)
  {
  }

  lemma LeapDigits(n: nat)
    ensures (if n % 4 == 0 then 1 else 0) - (if n % 100 == 0 then 1 else 0) + (if n % 400 == 0 then 1 else 0) ==
            if IsLeap(n) then 1 else 0
  {
    assert n % 400 == 0 ==> n % 100 == 0;
    assert n % 100 == 0 ==> n % 4 == 0;
  }

  /** The days before a year, in the closed form of the Gregorian calendar. */
  lemma {:induction false} CalendarIsGregorian(year: nat)
    requires year >= 1
    ensures var n := year - 1; DaysBeforeYear(year) == 365 * n + n / 4 - n / 100 + n / 400
  {
    hide DaysBeforeMonth, IsLeap;
    if year > 1 {
      CalendarIsGregorian(year - 1);
      YearLength(year - 1);
      LeapStep(year - 1);
    }
  }

  lemma NextDayIsLater(t: Instant)
    requires Valid(t)
    ensures NextDay(t).None? <==> t.year == 9999 && t.month == 12 && t.day == 31
    ensures NextDay(t).Some? ==>
      var u := NextDay(t).value;
      && u == t.(year := u.year, month := u.month, day := u.day)
      && 1 <= u.year <= 9999 && 1 <= u.month <= 12 && 1 <= u.day <= DaysInMonth(u.year, u.month)
      && Days(u) == Days(t) + 1
  {
    hide DaysInMonth, DaysBeforeMonth, DaysBeforeYear;
    MonthLengths(t.year, t.month);
    if t.month < 12 { MonthLengths(t.year, t.month + 1); }
    MonthLengths(t.year + 1, 1);
    DayAfterMonth(t.year, t.month);
  }

  lemma MonthLengths(year: nat, month: nat)
    ensures 1 <= DaysInMonth(year, month) <= 31 && DaysInMonth(year, 12) == 31
  {
  }

  /** A lease ends exactly `lease` microseconds after it begins; it fails only when that is past the last day. */
  lemma PlusIsLater(t: Instant, lease: nat)
    requires Valid(t) && 0 < lease <= MAX_CLAIM_DURATION
    ensures Plus(t, lease).None? <==> t.year == 9999 && t.month == 12 && t.day == 31 && TimeOfDay(t) + lease >= DAY
    ensures Plus(t, lease).Some? ==>
      var u := Plus(t, lease).value;
      Valid(u) && Micros(u) == Micros(t) + lease && Before(t, u)
  {
    hide NextDay, Days, DaysInMonth, TimeOfDay, WithTime, Before, Micros;
    NextDayIsLater(t);
    TimeFitsInDay(t);
    var time := TimeOfDay(t) + lease;
    if time < DAY {
      WithTimeIsValid(t, time);
      MicrosLater(t, WithTime(t, time), lease);
    } else if NextDay(t).Some? {
      var next := NextDay(t).value;
      SameTime(t, next);
      WithTimeIsValid(next, time - DAY);
      MicrosLater(t, WithTime(next, time - DAY), lease);
    }
  }

  lemma PlusIsValid(t: Instant, lease: nat)
    requires Valid(t) && 0 < lease <= MAX_CLAIM_DURATION
    ensures Plus(t, lease).Some? ==> Valid(Plus(t, lease).value)
  {
    PlusIsLater(t, lease);
  }

  lemma SameTime(t: Instant, next: Instant)
    requires Valid(t) && next == t.(year := next.year, month := next.month, day := next.day)
    requires 1 <= next.year <= 9999 && 1 <= next.month <= 12 && 1 <= next.day <= DaysInMonth(next.year, next.month)
    ensures Valid(next)
  {
    hide DaysInMonth;
  }

  lemma MicrosLater(t: Instant, u: Instant, lease: nat)
    requires Valid(t) && Valid(u) && lease > 0
    requires DAY * (Days(u) - Days(t)) == TimeOfDay(t) + lease - TimeOfDay(u)
    ensures Micros(u) == Micros(t) + lease && Before(t, u)
  {
    MicrosOrder(t, u);
    hide Days, TimeOfDay, Valid, Before;
  }

  lemma WithTimeIsValid(t: Instant, time: nat)
    requires Valid(t) && time < DAY
    ensures var u := WithTime(t, time); Valid(u) && Days(u) == Days(t) && TimeOfDay(u) == time
  {
    WithTimeIsExact(t, time);
    hide DaysInMonth;
  }
}
