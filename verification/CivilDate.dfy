/**
 The UTC civil date of a Unix time, by closed-form division arithmetic, against the Gregorian
 calendar stepped day by day.
 */
module CivilDate {

  datatype Date = Date(year: int, month: int, day: int)

  const SECONDS_PER_DAY := 86400
  /** Days from 0000-03-01 to 1970-01-01. */
  const EPOCH_SHIFT := 719468
  const DAYS_PER_ERA := 146097

  // ----- The closed form -----

  function YearOfEra(doe: int): int {
    (doe - doe / 1460 + doe / 36524 - doe / 146096) / 365
  }

  function DateInEra(era: int, doe: int): Date {
    var yoe := YearOfEra(doe);
    var y := yoe + era * 400;
    var doy := doe - (365 * yoe + yoe / 4 - yoe / 100);
    var mp := (5 * doy + 2) / 153;
    var d := doy - (153 * mp + 2) / 5 + 1;
    var m := if mp < 10 then mp + 3 else mp - 9;
    Date(if m <= 2 then y + 1 else y, m, d)
  }

  function CivilOfDay(days: int): Date {
    var z := days + EPOCH_SHIFT;
    var era := (if z >= 0 then z else z - 146096) / DAYS_PER_ERA;
    var doe := z - era * DAYS_PER_ERA;
    DateInEra(era, doe)
  }

  function CivilDateUtc(unixSeconds: nat): Date {
    CivilOfDay(unixSeconds / SECONDS_PER_DAY)
  }

  // ----- The calendar -----

  predicate IsLeap(year: int) {
    year % 4 == 0 && (year % 100 != 0 || year % 400 == 0)
  }

  function DaysInMonth(year: int, month: int): int {
    if month == 2 then (if IsLeap(year) then 29 else 28)
    else if month in {4, 6, 9, 11} then 30
    else 31
  }

  predicate IsValid(d: Date) {
    1 <= d.month <= 12 && 1 <= d.day <= DaysInMonth(d.year, d.month)
  }

  function NextDay(d: Date): Date {
    if d.day < DaysInMonth(d.year, d.month) then Date(d.year, d.month, d.day + 1)
    else if d.month < 12 then Date(d.year, d.month + 1, 1)
    else Date(d.year + 1, 1, 1)
  }

  /** The date `n` days after 1970-01-01, one day at a time. */
  function Stepped(n: nat): Date {
    if n == 0 then Date(1970, 1, 1) else NextDay(Stepped(n - 1))
  }

  // ----- Years of an era, from March -----

  /** The day of the era on which its year `y`, counted from March, starts. */
  function YearStart(y: int): int {
    365 * y + y / 4 - y / 100 + y / 400
  }

  /** Century, four-year cycle, year of cycle and day of year of a day of the era. */
  predicate Splits(doe: int, c: int, q: int, t: int, r: int) {
    && doe == 36524 * c + 1461 * q + 365 * t + r
    && 0 <= c <= 3 && 0 <= q <= 24 && 0 <= t <= 3
    && 0 <= r <= (if t == 3 && (q < 24 || c == 3) then 365 else 364)
  }

  lemma SplitDay(doe: int) returns (c: int, q: int, t: int, r: int)
    requires 0 <= doe < DAYS_PER_ERA
    ensures Splits(doe, c, q, t, r)
  {
    c := if doe >= 109572 then 3 else doe / 36524;
    var inCentury := doe - 36524 * c;
    q := inCentury / 1461;
    var inCycle := inCentury - 1461 * q;
    t := if inCycle >= 1095 then 3 else inCycle / 365;
    r := inCycle - 365 * t;
  }

  lemma YearParts(c: int, q: int, t: int)
    requires 0 <= c <= 3 && 0 <= q <= 24 && 0 <= t <= 3
    ensures var y := 100 * c + 4 * q + t; y / 4 == 25 * c + q && y / 100 == c && y / 400 == 0
  {
  }

  lemma YearStartOfSplit(c: int, q: int, t: int)
    requires 0 <= c <= 3 && 0 <= q <= 24 && 0 <= t <= 3
    ensures YearStart(100 * c + 4 * q + t) == 36524 * c + 1461 * q + 365 * t
    ensures YearStart(100 * c + 4 * q + t + 1) ==
            36524 * c + 1461 * q + 365 * t + (if t == 3 && (q < 24 || c == 3) then 366 else 365)
  {
    YearParts(c, q, t);
    if t < 3 {
      YearParts(c, q, t + 1);
    } else if q < 24 {
      YearParts(c, q + 1, 0);
    } else if c < 3 {
      YearParts(c + 1, 0, 0);
    }
  }

  /** The leap-day corrections cancel: the formula finds the year exactly. */
  lemma YearOfSplit(doe: int, c: int, q: int, t: int, r: int)
    requires Splits(doe, c, q, t, r)
    ensures YearOfEra(doe) == 100 * c + 4 * q + t
  {
    var carry := CyclesOfSplit(doe, c, q, t, r);
    CenturyOfSplit(doe, c, q, t, r);
    assert doe - doe / 1460 + doe / 36524 - doe / 146096 == 365 * (100 * c + 4 * q + t) + (r - carry);
  }

  lemma CyclesOfSplit(doe: int, c: int, q: int, t: int, r: int) returns (carry: int)
    requires Splits(doe, c, q, t, r)
    ensures doe / 1460 == 25 * c + q + carry
    ensures 0 <= r - carry < 365
  {
    carry := if 24 * c + q + 365 * t + r >= 1460 then 1 else 0;
  }

  lemma CenturyOfSplit(doe: int, c: int, q: int, t: int, r: int)
    requires Splits(doe, c, q, t, r)
    ensures doe / 36524 - doe / 146096 == c
  {
  }

  lemma YearOfEraBrackets(doe: int)
    requires 0 <= doe < DAYS_PER_ERA
    ensures 0 <= YearOfEra(doe) <= 399
    ensures YearStart(YearOfEra(doe)) <= doe < YearStart(YearOfEra(doe) + 1)
  {
    var c, q, t, r := SplitDay(doe);
    YearOfSplit(doe, c, q, t, r);
    YearStartOfSplit(c, q, t);
  }

  lemma YearLengthInEra(y: int)
    requires 0 <= y <= 399
    ensures YearStart(y + 1) - YearStart(y) == if IsLeap(y + 1) then 366 else 365
  {
    var c, q, t := y / 100, y % 100 / 4, y % 4;
    assert y == 100 * c + 4 * q + t;
    YearStartOfSplit(c, q, t);
    hide YearStart;
    LeapOfSplit(c, q, t);
  }

  lemma LeapOfSplit(c: int, q: int, t: int)
    requires 0 <= c <= 3 && 0 <= q <= 24 && 0 <= t <= 3
    ensures IsLeap(100 * c + 4 * q + t + 1) <==> t == 3 && (q < 24 || c == 3)
  {
  }

  lemma {:induction false} YearStartsRise(a: int, b: int)
    requires 0 <= a <= b <= 400
    ensures YearStart(a) <= YearStart(b)
    decreases b - a
  {
    if a < b {
      YearLengthInEra(b - 1);
      YearStartsRise(a, b - 1);
    }
  }

  /** Brackets determine the year. */
  lemma YearOfEraIs(doe: int, y: int)
    requires 0 <= doe < DAYS_PER_ERA && 0 <= y <= 399
    requires YearStart(y) <= doe < YearStart(y + 1)
    ensures YearOfEra(doe) == y
  {
    YearOfEraBrackets(doe);
    var found := YearOfEra(doe);
    if found < y {
      YearStartsRise(found + 1, y);
    } else if y < found {
      YearStartsRise(y + 1, found);
    }
  }

  // ----- Months from March -----

  function MonthStart(mp: int): int {
    (153 * mp + 2) / 5
  }

  /** The date of day `doy` of the year that starts on March 1 of `year`. */
  function FromMarch(year: int, doy: int): Date {
    var mp := (5 * doy + 2) / 153;
    var m := if mp < 10 then mp + 3 else mp - 9;
    Date(if m <= 2 then year + 1 else year, m, doy - MonthStart(mp) + 1)
  }

  lemma MonthBrackets(doy: int)
    requires 0 <= doy <= 365
    ensures var mp := (5 * doy + 2) / 153; 0 <= mp <= 11 && MonthStart(mp) <= doy < MonthStart(mp + 1)
  {
  }

  function YearLength(year: int): int {
    if IsLeap(year + 1) then 366 else 365
  }

  lemma FromMarchValid(year: int, doy: int)
    requires 0 <= doy < YearLength(year)
    ensures IsValid(FromMarch(year, doy))
  {
    MonthBrackets(doy);
  }

  /** The calendar month that is the `mp`th from March, and the year it is in. */
  function MonthOf(mp: int): int {
    if mp < 10 then mp + 3 else mp - 9
  }

  function YearOf(year: int, mp: int): int {
    if mp < 10 then year else year + 1
  }

  lemma FromMarchIs(year: int, doy: int, mp: int)
    requires 0 <= mp <= 11 && MonthStart(mp) <= doy < MonthStart(mp + 1)
    ensures FromMarch(year, doy) == Date(YearOf(year, mp), MonthOf(mp), doy - MonthStart(mp) + 1)
  {
  }

  /** Every month but the last runs from its start to the next one's. */
  lemma MonthLength(year: int, mp: int)
    requires 0 <= mp < 11
    ensures DaysInMonth(YearOf(year, mp), MonthOf(mp)) == MonthStart(mp + 1) - MonthStart(mp)
    ensures MonthOf(mp) < 12 ==> MonthOf(mp + 1) == MonthOf(mp) + 1 && YearOf(year, mp + 1) == YearOf(year, mp)
    ensures MonthOf(mp) == 12 ==> MonthOf(mp + 1) == 1 && YearOf(year, mp + 1) == YearOf(year, mp) + 1
  {
  }

  lemma MonthsLast()
    ensures MonthStart(0) == 0 && MonthStart(1) == 31 && MonthStart(11) == 337 && MonthStart(12) == 367
  {
  }

  lemma InnerDaySteps(year: int, doy: int, mp: int)
    requires 0 <= mp < 11 && MonthStart(mp) <= doy < MonthStart(mp + 1) - 1
    ensures NextDay(FromMarch(year, doy)) == FromMarch(year, doy + 1)
  {
    hide MonthStart, DaysInMonth, FromMarch, MonthOf, YearOf;
    FromMarchIs(year, doy, mp);
    FromMarchIs(year, doy + 1, mp);
    MonthLength(year, mp);
  }

  lemma MonthStartsRise(mp: int)
    ensures MonthStart(mp) < MonthStart(mp + 1)
  {
  }

  lemma MonthEndSteps(year: int, doy: int, mp: int)
    requires 0 <= mp < 11 && MonthStart(mp) <= doy == MonthStart(mp + 1) - 1
    ensures NextDay(FromMarch(year, doy)) == FromMarch(year, doy + 1)
  {
    hide MonthStart, DaysInMonth, FromMarch, YearOf;
    MonthStartsRise(mp + 1);
    FromMarchIs(year, doy, mp);
    FromMarchIs(year, doy + 1, mp + 1);
    MonthLength(year, mp);
  }

  /** February, the last month from March, ends with the year. */
  lemma LastMonthSteps(year: int, doy: int)
    requires MonthStart(11) <= doy < YearLength(year)
    ensures NextDay(FromMarch(year, doy)) ==
            if doy + 1 < YearLength(year) then FromMarch(year, doy + 1) else FromMarch(year + 1, 0)
  {
    MonthsLast();
    hide MonthStart, FromMarch, IsLeap;
    FromMarchIs(year, doy, 11);
    if doy + 1 < YearLength(year) {
      FromMarchIs(year, doy + 1, 11);
    } else {
      FromMarchIs(year + 1, 0, 0);
    }
  }

  lemma FromMarchSteps(year: int, doy: int)
    requires 0 <= doy < YearLength(year)
    ensures NextDay(FromMarch(year, doy)) ==
            if doy + 1 < YearLength(year) then FromMarch(year, doy + 1) else FromMarch(year + 1, 0)
  {
    MonthBrackets(doy);
    MonthsLast();
    var mp := (5 * doy + 2) / 153;
    if mp == 11 {
      hide MonthStart, FromMarch, IsLeap, NextDay;
      LastMonthSteps(year, doy);
    } else {
      MonthStartBefore(mp + 1);
      hide MonthStart, FromMarch, IsLeap, NextDay;
      if doy + 1 < MonthStart(mp + 1) {
        InnerDaySteps(year, doy, mp);
      } else {
        MonthEndSteps(year, doy, mp);
      }
    }
  }

  lemma MonthStartBefore(mp: int)
    requires 0 <= mp <= 11
    ensures MonthStart(mp) <= 337
  {
  }

  // ----- The closed form steps like the calendar -----

  lemma Modulo4(a: int, k: int)
    ensures (a + 4 * k) % 4 == a % 4
  {
  }

  lemma Modulo100(a: int, k: int)
    ensures (a + 100 * k) % 100 == a % 100
  {
  }

  lemma Modulo400(a: int, k: int)
    ensures (a + 400 * k) % 400 == a % 400
  {
  }

  lemma LeapRepeats(year: int, era: int)
    ensures IsLeap(year + 400 * era) == IsLeap(year)
  {
    Modulo4(year, 100 * era);
    Modulo100(year, 4 * era);
    Modulo400(year, era);
  }

  lemma DateInEraIs(era: int, doe: int, y: int, doy: int)
    requires 0 <= y <= 399 && YearOfEra(doe) == y && doe == YearStart(y) + doy
    ensures DateInEra(era, doe) == FromMarch(y + 400 * era, doy)
  {
    hide YearOfEra;
    assert y / 400 == 0;
  }

  lemma CivilIn(era: int, doe: int)
    requires era >= 0 && 0 <= doe < DAYS_PER_ERA
    ensures CivilOfDay(era * DAYS_PER_ERA + doe - EPOCH_SHIFT) == DateInEra(era, doe)
  {
    hide DateInEra;
  }

  /** The closed form of a day, by its era, year of era and day of year. */
  lemma CivilOf(era: int, y: int, doy: int)
    requires era >= 0 && 0 <= y <= 399 && 0 <= doy < YearLength(y)
    ensures CivilOfDay(era * DAYS_PER_ERA + (YearStart(y) + doy) - EPOCH_SHIFT) == FromMarch(y + 400 * era, doy)
    ensures 0 <= YearStart(y) + doy < DAYS_PER_ERA
  {
    hide CivilOfDay, DateInEra, FromMarch, YearOfEra, IsLeap, YearStart;
    YearLengthInEra(y);
    YearStartsRise(0, y);
    YearStartsRise(y + 1, 400);
    EraEnds();
    var doe := YearStart(y) + doy;
    YearOfEraIs(doe, y);
    DateInEraIs(era, doe, y, doy);
    CivilIn(era, doe);
  }

  lemma SplitDate(n: nat) returns (era: int, y: int, doy: int)
    ensures era >= 0 && 0 <= y <= 399 && 0 <= doy < YearLength(y)
    ensures n + EPOCH_SHIFT == era * DAYS_PER_ERA + (YearStart(y) + doy)
  {
    era := (n + EPOCH_SHIFT) / DAYS_PER_ERA;
    var doe := (n + EPOCH_SHIFT) % DAYS_PER_ERA;
    hide YearOfEra, YearStart, IsLeap;
    y := YearOfEra(doe);
    YearOfEraBrackets(doe);
    YearLengthInEra(y);
    doy := doe - YearStart(y);
  }

  lemma CivilIsValid(n: nat)
    ensures IsValid(CivilOfDay(n))
  {
    hide CivilOfDay, FromMarch, YearStart, IsLeap, IsValid;
    var era, y, doy := SplitDate(n);
    CivilOf(era, y, doy);
    LeapRepeats(y + 1, era);
    FromMarchValid(y + 400 * era, doy);
  }

  lemma EraEnds()
    ensures YearStart(0) == 0 && YearStart(400) == DAYS_PER_ERA
  {
  }

  /** The closed form one day on: the next day of the year, of the next year, or of the next era. */
  lemma CivilOfNext(era: int, y: int, doy: int)
    requires era >= 0 && 0 <= y <= 399 && 0 <= doy < YearLength(y)
    ensures CivilOfDay(era * DAYS_PER_ERA + (YearStart(y) + doy) - EPOCH_SHIFT + 1) ==
            if doy + 1 < YearLength(y) then FromMarch(y + 400 * era, doy + 1) else FromMarch(y + 400 * era + 1, 0)
  {
    hide CivilOfDay, FromMarch, YearStart, IsLeap;
    YearLengthInEra(y);
    if doy + 1 < YearLength(y) {
      CivilOf(era, y, doy + 1);
    } else if y < 399 {
      CivilOf(era, y + 1, 0);
    } else {
      EraEnds();
      CivilOf(era + 1, 0, 0);
    }
  }

  /** The date of the next day is the calendar successor of the date. */
  lemma CivilSteps(n: nat)
    ensures CivilOfDay(n + 1) == NextDay(CivilOfDay(n))
  {
    hide CivilOfDay, FromMarch, YearStart, IsLeap, NextDay;
    var era, y, doy := SplitDate(n);
    CivilOf(era, y, doy);
    CivilOfNext(era, y, doy);
    LeapRepeats(y + 1, era);
    FromMarchSteps(y + 400 * era, doy);
  }

  lemma FirstYear()
    ensures YearOfEra(135080) == 369
  {
  }

  lemma FirstDateInEra()
    ensures DateInEra(4, 135080) == Date(1970, 1, 1)
  {
    hide YearOfEra;
    FirstYear();
  }

  lemma FirstDay()
    ensures CivilOfDay(0) == Date(1970, 1, 1)
  {
    hide CivilOfDay, DateInEra;
    CivilIn(4, 135080);
    FirstDateInEra();
  }

  lemma {:induction false} CivilIsStepped(n: nat)
    ensures CivilOfDay(n) == Stepped(n)
  {
    hide CivilOfDay, NextDay;
    if n == 0 {
      FirstDay();
    } else {
      CivilIsStepped(n - 1);
      CivilSteps(n - 1);
    }
  }

  /** For every Unix time: a valid date, the one the calendar reaches by stepping. */
  lemma CivilDateIsTheCalendars(unixSeconds: nat)
    ensures IsValid(CivilDateUtc(unixSeconds))
    ensures CivilDateUtc(unixSeconds) == Stepped(unixSeconds / SECONDS_PER_DAY)
  {
    CivilIsValid(unixSeconds / SECONDS_PER_DAY);
    CivilIsStepped(unixSeconds / SECONDS_PER_DAY);
  }

  // ----- The text form -----

  function Digit(n: nat): char
    requires n < 10
  {
    ('0' as int + n) as char
  }

  function Digits(n: nat): (s: string)
    ensures s != []
    ensures n < 10 ==> |s| == 1
  {
    if n < 10 then [Digit(n)] else Digits(n / 10) + [Digit(n % 10)]
  }

  /** Decimal digits, padded with zeros to at least `width` characters. */
  function Padded(n: nat, width: nat): string {
    seq(if |Digits(n)| < width then width - |Digits(n)| else 0, _ => '0') + Digits(n)
  }

  function Format(d: Date): string
    requires d.year >= 0 && d.month >= 0 && d.day >= 0
  {
    Padded(d.year, 4) + "-" + Padded(d.month, 2) + "-" + Padded(d.day, 2)
  }

  /** The number a string of digits denotes. */
  function Value(s: string): int {
    if s == [] then 0 else 10 * Value(s[..|s| - 1]) + (s[|s| - 1] as int - '0' as int)
  }

  /** A date read back: two digits of day, two of month, and whatever precedes them of year. */
  function ReadDate(s: string): Date
    requires |s| >= 6
  {
    Date(Value(s[..|s| - 6]), Value(s[|s| - 5..|s| - 3]), Value(s[|s| - 2..]))
  }

  lemma {:induction false} ValueOfDigits(n: nat)
    ensures Value(Digits(n)) == n
  {
    if n >= 10 {
      ValueOfDigits(n / 10);
      assert Digits(n)[..|Digits(n)| - 1] == Digits(n / 10);
    } else {
      assert Digits(n)[..0] == [];
    }
  }

  lemma {:induction false} ValueOfZeros(k: nat, s: string)
    ensures Value(seq(k, _ => '0') + s) == Value(s)
    decreases |s|, k
  {
    var zeros := seq(k, _ => '0');
    var t := zeros + s;
    if s != [] {
      ValueOfZeros(k, s[..|s| - 1]);
      assert t[..|t| - 1] == zeros + s[..|s| - 1];
    } else if k > 0 {
      ValueOfZeros(k - 1, s);
      assert t[..|t| - 1] == seq(k - 1, _ => '0') + s;
    }
  }

  lemma ValueOfPadded(n: nat, width: nat)
    ensures Value(Padded(n, width)) == n
  {
    ValueOfDigits(n);
    ValueOfZeros(if |Digits(n)| < width then width - |Digits(n)| else 0, Digits(n));
  }

  lemma PaddedWidth(n: nat)
    ensures n < 100 ==> |Padded(n, 2)| == 2
    ensures n < 10000 ==> |Padded(n, 4)| == 4
    ensures |Padded(n, 4)| >= 4
  {
    if n >= 10 {
      assert |Digits(n)| == |Digits(n / 10)| + 1;
      if n >= 100 {
        assert |Digits(n / 10)| == |Digits(n / 100)| + 1;
        if n >= 1000 {
          assert |Digits(n / 100)| == |Digits(n / 1000)| + 1;
        }
      }
    }
  }

  /** Three parts with dashes between them, the last two of width 2, come apart again. */
  lemma PartsReadBack(y: string, m: string, d: string)
    requires |y| >= 4 && |m| == 2 && |d| == 2
    ensures var s := y + "-" + m + "-" + d;
            && |s| == |y| + 6
            && s[..|s| - 6] == y && s[|s| - 5..|s| - 3] == m && s[|s| - 2..] == d
            && s[|y|] == '-' && s[|y| + 3] == '-'
  {
  }

  lemma FormatReadsBack(d: Date)
    requires d.year >= 0 && IsValid(d)
    ensures |Format(d)| >= 10 && ReadDate(Format(d)) == d
    ensures d.year <= 9999 ==> |Format(d)| == 10 && Format(d)[4] == '-' && Format(d)[7] == '-'
  {
    hide Padded, Value, IsLeap;
    PaddedWidth(d.year);
    PaddedWidth(d.month);
    PaddedWidth(d.day);
    ValueOfPadded(d.year, 4);
    ValueOfPadded(d.month, 2);
    ValueOfPadded(d.day, 2);
    PartsReadBack(Padded(d.year, 4), Padded(d.month, 2), Padded(d.day, 2));
  }

  lemma {:induction false} SteppedYear(n: nat)
    ensures Stepped(n).year >= 1970
  {
    hide DaysInMonth;
    if n > 0 {
      SteppedYear(n - 1);
    }
  }

  /** The source's output: a text from which the calendar's date reads back, ten characters long to year 9999. */
  lemma CivilDateText(unixSeconds: nat)
    ensures var d := CivilDateUtc(unixSeconds);
            && d.year >= 0 && d.month >= 0 && d.day >= 0
            && |Format(d)| >= 10
            && ReadDate(Format(d)) == Stepped(unixSeconds / SECONDS_PER_DAY)
            && (d.year <= 9999 ==> |Format(d)| == 10 && Format(d)[4] == '-' && Format(d)[7] == '-')
  {
    hide CivilDateUtc, Format, Stepped, DaysInMonth, ReadDate;
    CivilDateIsTheCalendars(unixSeconds);
    SteppedYear(unixSeconds / SECONDS_PER_DAY);
    FormatReadsBack(CivilDateUtc(unixSeconds));
  }
}
