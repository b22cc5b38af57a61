/** Epoch seconds as UTC text (crates/load-tests/src/main.rs). */
module Calendar {
  import opened Decimal

  datatype Date = Date(year: nat, month: nat, day: nat)

  datatype Fields = Fields(date: Date, hour: nat, minute: nat, second: nat)

  // ---------- The formatter's arithmetic ----------

  /** The day of the 400-year era and its year, counted from 1 March. */
  function YearOfEra(doe: nat): int
  {
    (doe - doe / 1460 + doe / 36524 - doe / 146096) / 365
  }

  /** Year, month and day of a year that begins on 1 March. */
  function FromMarch(year: nat, doy: nat): Date
    requires doy < 366
  {
    var mp := (5 * doy + 2) / 153;
    var d := doy - (153 * mp + 2) / 5 + 1;
    var m := if mp < 10 then mp + 3 else mp - 9;
    MonthTable(doy);
    Date(year + (if m <= 2 then 1 else 0), m, d)
  }

  /** The date of a day counted from 1970-01-01. */
  function Civil(days: nat): Date
  {
    var z := days + 719468;
    var era := z / 146097;
    var doe := z - era * 146097;
    InEra(doe);
    var yoe := YearOfEra(doe);
    var doy := doe - (365 * yoe + yoe / 4 - yoe / 100);
    FromMarch(era * 400 + yoe, doy)
  }

  function Break(secs: nat): Fields
  {
    var rem := secs % 86400;
    Fields(Civil(secs / 86400), rem / 3600, rem % 3600 / 60, rem % 60)
  }

  function Text(f: Fields, between: char, inTime: char): string
  {
    Format(f.date.year, 4) + (['-'] + (Format(f.date.month, 2) + (['-'] + (Format(f.date.day, 2) + ([between]
    + (Format(f.hour, 2) + ([inTime] + (Format(f.minute, 2) + ([inTime] + Format(f.second, 2))))))))))
  }

  function FmtUtc(secs: nat): string
  {
    Text(Break(secs), ' ', ':')
  }

  function Replace(s: string, from: char, to: char): (r: string)
    ensures |r| == |s|
  {
    if s == "" then "" else [if s[0] == from then to else s[0]] + Replace(s[1..], from, to)
  }

  function DirStamp(secs: nat): string
  {
    Replace(Replace(FmtUtc(secs), ' ', 'T'), ':', '-') + "Z"
  }

  // ---------- The Gregorian calendar: section 5.7 and appendix C of RFC 3339 ----------

  predicate IsLeap(year: nat)
  {
    year % 4 == 0 && (year % 100 != 0 || year % 400 == 0)
  }

  function DaysInMonth(year: nat, month: nat): nat
  {
    if month == 2 then (if IsLeap(year) then 29 else 28)
    else if month in {4, 6, 9, 11} then 30
    else 31
  }

  predicate ValidDate(d: Date)
  {
    1 <= d.month <= 12 && 1 <= d.day <= DaysInMonth(d.year, d.month)
  }

  predicate ValidFields(f: Fields)
  {
    ValidDate(f.date) && f.hour < 24 && f.minute < 60 && f.second < 60
  }

  function NextDay(d: Date): Date
  {
    if d.day < DaysInMonth(d.year, d.month) then d.(day := d.day + 1)
    else if d.month < 12 then Date(d.year, d.month + 1, 1)
    else Date(d.year + 1, 1, 1)
  }

  function DaysInYears(from: nat, to: nat): nat
    decreases to - from
  {
    if to <= from then 0 else DaysInYears(from, to - 1) + (if IsLeap(to - 1) then 366 else 365)
  }

  function DaysInMonths(year: nat, month: nat): nat
  {
    if month <= 1 then 0 else DaysInMonths(year, month - 1) + DaysInMonth(year, month - 1)
  }

  /** Days from 1970-01-01 to a date, year by year and month by month. */
  function DayNumber(d: Date): nat
    requires d.day >= 1
  {
    DaysInYears(1970, d.year) + DaysInMonths(d.year, d.month) + d.day - 1
  }

  function SecondNumber(f: Fields): nat
    requires f.date.day >= 1
  {
    86400 * DayNumber(f.date) + 3600 * f.hour + 60 * f.minute + f.second
  }

  // ---------- Years that begin in March ----------

  /** Days from 0000-03-01 to 1 March of a year. */
  function YearStart(g: nat): nat
  {
    365 * g + g / 4 - g / 100 + g / 400
  }

  lemma YearStartAscends(a: nat, b: nat)
    requires a < b
    ensures YearStart(a) + 365 <= YearStart(b)
  {
    assert b / 400 >= a / 400;
    assert b / 100 - a / 100 <= (b - a) / 100 + 1;
    assert b / 4 - a / 4 >= (b - a) / 4;
  }

  /** A year has 366 days exactly when the February at its end belongs to a leap year. */
  lemma YearLength(g: nat)
    ensures YearStart(g + 1) == YearStart(g) + (if IsLeap(g + 1) then 366 else 365)
  {
    assert (g + 1) / 4 == g / 4 + (if (g + 1) % 4 == 0 then 1 else 0);
    assert (g + 1) / 100 == g / 100 + (if (g + 1) % 100 == 0 then 1 else 0);
    assert (g + 1) / 400 == g / 400 + (if (g + 1) % 400 == 0 then 1 else 0);
  }

  /** Century, leap cycle and year of a day within its 400-year era. */
  lemma YearOfEraAt(c: nat, q: nat, j: nat, doy: nat)
    requires c < 4 && q < 25 && j < 4 && doy < 366
    requires doy == 365 ==> j == 3 && (q < 24 || c == 3)
    ensures YearOfEra(36524 * c + 1461 * q + 365 * j + doy) == 100 * c + 4 * q + j
  {
    var doe := 36524 * c + 1461 * q + 365 * j + doy;
    var e := if 24 * c + q + 365 * j + doy >= 1460 then 1 else 0;
    LeapDaysAt(c, q, j, doy);
    assert doe - doe / 1460 + doe / 36524 - doe / 146096 == 365 * (100 * c + 4 * q + j) + doy - e;
  }

  lemma LeapDaysAt(c: nat, q: nat, j: nat, doy: nat)
    requires c < 4 && q < 25 && j < 4 && doy < 366
    requires doy == 365 ==> j == 3 && (q < 24 || c == 3)
    ensures var doe := 36524 * c + 1461 * q + 365 * j + doy;
            var over := 24 * c + q + 365 * j + doy;
            doe / 1460 == 25 * c + q + (if over >= 1460 then 1 else 0) && doe / 36524 - doe / 146096 == c
  {
    var doe := 36524 * c + 1461 * q + 365 * j + doy;
    assert doe == 1460 * (25 * c + q) + (24 * c + q + 365 * j + doy);
  }

  lemma InEra(doe: nat)
    requires doe < 146097
    ensures var yoe := YearOfEra(doe);
            && 0 <= yoe < 400
            && YearStart(yoe) == 365 * yoe + yoe / 4 - yoe / 100
            && YearStart(yoe) <= doe < YearStart(yoe) + 366
            && doe < YearStart(yoe + 1)
  {
    hide YearOfEra;
    var c, q, j, doy := SplitEra(doe);
    YearOfEraAt(c, q, j, doy);
    YearAt(c, q, j);
  }

  lemma SplitEra(doe: nat) returns (c: nat, q: nat, j: nat, doy: nat)
    requires doe < 146097
    ensures c < 4 && q < 25 && j < 4 && doy < 366 && (doy == 365 ==> j == 3 && (q < 24 || c == 3))
    ensures doe == 36524 * c + 1461 * q + 365 * j + doy
  {
    c := if doe == 146096 then 3 else doe / 36524;
    var r := doe - 36524 * c;
    q := r / 1461;
    var t := r % 1461;
    j := if t == 1460 then 3 else t / 365;
    doy := t - 365 * j;
  }

  lemma YearAt(c: nat, q: nat, j: nat)
    requires c < 4 && q < 25 && j < 4
    ensures var yoe := 100 * c + 4 * q + j;
            && YearStart(yoe) == 36524 * c + 1461 * q + 365 * j == 365 * yoe + yoe / 4 - yoe / 100
            && YearStart(yoe + 1) == YearStart(yoe) + (if j == 3 && (q < 24 || c == 3) then 366 else 365)
  {
    var yoe := 100 * c + 4 * q + j;
    assert yoe / 4 == 25 * c + q && yoe / 100 == c && yoe / 400 == 0;
    var u := yoe + 1;
    assert u / 4 == 25 * c + q + (if j == 3 then 1 else 0);
    assert u / 100 == c + (if j == 3 && q == 24 then 1 else 0);
    assert u / 400 == if j == 3 && q == 24 && c == 3 then 1 else 0;
  }

  lemma YearStartOfEra(era: nat, yoe: nat)
    requires yoe < 400
    ensures YearStart(era * 400 + yoe) == 146097 * era + YearStart(yoe)
    ensures YearStart(era * 400 + yoe + 1) == 146097 * era + YearStart(yoe + 1)
  {
    assert (era * 400 + yoe) / 4 == era * 100 + yoe / 4;
    assert (era * 400 + yoe) / 100 == era * 4 + yoe / 100;
    assert (era * 400 + yoe + 1) / 4 == era * 100 + (yoe + 1) / 4;
    assert (era * 400 + yoe + 1) / 100 == era * 4 + (yoe + 1) / 100;
  }

  lemma CivilHas(days: nat) returns (g: nat, doy: nat)
    ensures YearStart(g) + doy == days + 719468 < YearStart(g + 1)
    ensures doy < 366 && Civil(days) == FromMarch(g, doy)
  {
    hide YearStart, YearOfEra, FromMarch;
    var z := days + 719468;
    var era := z / 146097;
    var doe := z - era * 146097;
    InEra(doe);
    var yoe := YearOfEra(doe);
    YearStartOfEra(era, yoe);
    g := era * 400 + yoe;
    doy := z - YearStart(g);
  }

  /** The year and the day in it are the only ones there can be. */
  lemma CivilIs(days: nat, g: nat, doy: nat)
    requires YearStart(g) + doy == days + 719468 < YearStart(g + 1)
    ensures doy < 366 && Civil(days) == FromMarch(g, doy)
  {
    hide YearStart, Civil, FromMarch;
    var g', doy' := CivilHas(days);
    if g + 1 < g' { YearStartAscends(g + 1, g'); }
    if g' + 1 < g { YearStartAscends(g' + 1, g); }
  }

  // ---------- Months ----------

  function MonthStart(mp: nat): nat
  {
    (153 * mp + 2) / 5
  }

  /** The month index picks the month that holds the day. */
  lemma MonthTable(doy: nat)
    requires doy < 366
    ensures var mp := (5 * doy + 2) / 153; mp < 12 && MonthStart(mp) <= doy < MonthStart(mp + 1)
  {
  }

  lemma NextInYear(g: nat, doy: nat)
    requires doy + 1 < 366 && (doy + 1 < 365 || IsLeap(g + 1))
    ensures FromMarch(g, doy + 1) == NextDay(FromMarch(g, doy))
  {
    MonthTable(doy);
    MonthTable(doy + 1);
  }

  lemma NextYear(g: nat, doy: nat)
    requires doy + 1 == if IsLeap(g + 1) then 366 else 365
    ensures FromMarch(g + 1, 0) == NextDay(FromMarch(g, doy))
  {
  }

  // ---------- The calendar ----------

  lemma CivilNext(days: nat)
    ensures Civil(days + 1) == NextDay(Civil(days))
  {
    hide Civil, FromMarch, NextDay, IsLeap, YearStart;
    var g, doy := CivilHas(days);
    YearLength(g);
    if YearStart(g) + doy + 1 < YearStart(g + 1) {
      CivilIs(days + 1, g, doy + 1);
      NextInYear(g, doy);
    } else {
      YearStartAscends(g + 1, g + 2);
      CivilIs(days + 1, g + 1, 0);
      NextYear(g, doy);
    }
  }

  lemma NextDayCounts(d: Date)
    requires ValidDate(d) && d.year >= 1970
    ensures ValidDate(NextDay(d)) && NextDay(d).year >= 1970 && DayNumber(NextDay(d)) == DayNumber(d) + 1
  {
    if d.day == DaysInMonth(d.year, d.month) && d.month == 12 {
      YearIsItsMonths(d.year);
    }
  }

  lemma YearIsItsMonths(year: nat)
    ensures DaysInMonths(year, 12) + 31 == if IsLeap(year) then 366 else 365
  {
    MonthSum(year, 3);
    MonthSum(year, 6);
    MonthSum(year, 9);
    MonthSum(year, 12);
  }

  lemma MonthSum(year: nat, month: nat)
    requires month >= 3
    ensures DaysInMonths(year, month)
         == DaysInMonths(year, month - 3) + (if month == 3 then 0 else DaysInMonth(year, month - 3))
            + DaysInMonth(year, month - 2) + DaysInMonth(year, month - 1)
  {
    hide DaysInMonth;
    assert DaysInMonths(year, month - 1) == DaysInMonths(year, month - 2) + DaysInMonth(year, month - 2);
    assert DaysInMonths(year, month - 2) == DaysInMonths(year, month - 3) + (if month == 3 then 0 else DaysInMonth(year, month - 3));
  }

  lemma EpochDay()
    ensures Civil(0) == Date(1970, 1, 1) && ValidDate(Civil(0)) && DayNumber(Civil(0)) == 0
  {
    hide Civil;
    CivilIs(0, 1969, 306);
  }

  /** Every day gets its valid date, and counting the days of the calendar up to that date gives the day back. */
  lemma {:induction false} CivilIsCalendar(days: nat)
    ensures ValidDate(Civil(days)) && Civil(days).year >= 1970 && DayNumber(Civil(days)) == days
  {
    hide Civil, NextDay, DayNumber, ValidDate;
    if days == 0 {
      EpochDay();
    } else {
      CivilIsCalendar(days - 1);
      CivilNext(days - 1);
      NextDayCounts(Civil(days - 1));
    }
  }

  /** The fields are a valid date and time, and converting them back gives the same seconds. */
  lemma BreakInverts(secs: nat)
    ensures ValidFields(Break(secs)) && SecondNumber(Break(secs)) == secs
  {
    hide Civil, DayNumber, ValidDate;
    CivilIsCalendar(secs / 86400);
  }

  // ---------- Order ----------

  predicate DateLess(a: Date, b: Date)
  {
    a.year < b.year || (a.year == b.year && (a.month < b.month || (a.month == b.month && a.day < b.day)))
  }

  predicate FieldsLess(a: Fields, b: Fields)
  {
    DateLess(a.date, b.date) || (a.date == b.date && (a.hour < b.hour || (a.hour == b.hour
    && (a.minute < b.minute || (a.minute == b.minute && a.second < b.second)))))
  }

  lemma {:induction false} CivilAscends(a: nat, b: nat)
    requires a < b
    ensures DateLess(Civil(a), Civil(b))
    decreases b
  {
    hide Civil;
    CivilIsCalendar(b - 1);
    CivilNext(b - 1);
    if a < b - 1 {
      CivilAscends(a, b - 1);
    }
  }

  lemma BreakAscends(a: nat, b: nat)
    requires a < b
    ensures FieldsLess(Break(a), Break(b))
  {
    hide Civil, DateLess;
    if a / 86400 < b / 86400 {
      CivilAscends(a / 86400, b / 86400);
    } else {
      TimeAscends(a % 86400, b % 86400);
    }
  }

  lemma TimeAscends(r: nat, t: nat)
    requires r < t < 86400
    ensures var (h, m, s, h', m', s') := (r / 3600, r % 3600 / 60, r % 60, t / 3600, t % 3600 / 60, t % 60);
            h < h' || (h == h' && (m < m' || (m == m' && s < s')))
  {
    assert r == 3600 * (r / 3600) + 60 * (r % 3600 / 60) + r % 60;
    assert t == 3600 * (t / 3600) + 60 * (t % 3600 / 60) + t % 60;
  }

  /** The year needs a fifth digit from day 2932897 on, and not before. */
  lemma FourDigitYears(days: nat)
    ensures Civil(days).year < 10000 <==> days < 2932897
  {
    assert Civil(2932897) == Date(10000, 1, 1) by {
      hide Civil;
      CivilIs(2932897, 9999, 306);
    }
    hide Civil;
    CivilIsCalendar(days);
    if days < 2932897 { CivilAscends(days, 2932897); }
    if days > 2932897 { CivilAscends(2932897, days); }
  }

  // ---------- The text ----------

  lemma FieldFirst(a: nat, b: nat, w: nat, sep: char, r: string, t: string)
    requires 1 <= w && a < Pow10(w) && b < Pow10(w)
    ensures LexLess(Format(a, w) + ([sep] + r), Format(b, w) + ([sep] + t)) <==> a < b || (a == b && LexLess(r, t))
  {
    hide Format;
    FormatIsPad(a, w);
    FormatIsPad(b, w);
    PadOrder(a, b, w);
    LexConcat(Pad(a, w), Pad(b, w), [sep] + r, [sep] + t);
    LexConcat([sep], [sep], r, t);
    LexIrreflexive([sep]);
  }

  lemma Widths()
    ensures Pow10(2) == 100 && Pow10(4) == 10000
  {
    assert Pow10(3) == 10 * Pow10(2);
  }

  lemma TextOrder(f: Fields, g: Fields, between: char, inTime: char)
    requires ValidFields(f) && ValidFields(g) && f.date.year < 10000 && g.date.year < 10000
    ensures LexLess(Text(f, between, inTime), Text(g, between, inTime)) <==> FieldsLess(f, g)
  {
    hide Format, Pow10, LexLess, Pad;
    Widths();
    var f5, g5 := Format(f.second, 2), Format(g.second, 2);
    FormatIsPad(f.second, 2);
    FormatIsPad(g.second, 2);
    PadOrder(f.second, g.second, 2);
    FieldFirst(f.minute, g.minute, 2, inTime, f5, g5);
    var f4, g4 := Format(f.minute, 2) + ([inTime] + f5), Format(g.minute, 2) + ([inTime] + g5);
    FieldFirst(f.hour, g.hour, 2, inTime, f4, g4);
    var f3, g3 := Format(f.hour, 2) + ([inTime] + f4), Format(g.hour, 2) + ([inTime] + g4);
    FieldFirst(f.date.day, g.date.day, 2, between, f3, g3);
    var f2, g2 := Format(f.date.day, 2) + ([between] + f3), Format(g.date.day, 2) + ([between] + g3);
    FieldFirst(f.date.month, g.date.month, 2, '-', f2, g2);
    var f1, g1 := Format(f.date.month, 2) + (['-'] + f2), Format(g.date.month, 2) + (['-'] + g2);
    FieldFirst(f.date.year, g.date.year, 4, '-', f1, g1);
  }

  lemma {:induction false} ReplaceConcat(a: string, b: string, from: char, to: char)
    ensures Replace(a + b, from, to) == Replace(a, from, to) + Replace(b, from, to)
  {
    if a == "" {
      assert a + b == b;
    } else {
      assert (a + b)[1..] == a[1..] + b;
      ReplaceConcat(a[1..], b, from, to);
    }
  }

  lemma {:induction false} ReplaceNothing(s: string, from: char, to: char)
    requires from !in s
    ensures Replace(s, from, to) == s
  {
    if s != "" {
      ReplaceNothing(s[1..], from, to);
    }
  }

  lemma ReplaceField(n: nat, w: nat, sep: char, rest: string, from: char, to: char)
    requires !('0' <= from <= '9')
    ensures Replace(Format(n, w) + ([sep] + rest), from, to)
         == Format(n, w) + ([if sep == from then to else sep] + Replace(rest, from, to))
  {
    hide Format;
    FormatDigits(n, w);
    ReplaceNothing(Format(n, w), from, to);
    ReplaceConcat(Format(n, w), [sep] + rest, from, to);
    assert ([sep] + rest)[1..] == rest;
  }

  lemma TextReplaced(f: Fields, between: char, inTime: char, from: char, to: char)
    requires !('0' <= from <= '9') && from != '-'
    ensures Replace(Text(f, between, inTime), from, to)
         == Text(f, if between == from then to else between, if inTime == from then to else inTime)
  {
    hide Format, Replace;
    var f5 := Format(f.second, 2);
    FormatDigits(f.second, 2);
    ReplaceNothing(f5, from, to);
    ReplaceField(f.minute, 2, inTime, f5, from, to);
    var f4 := Format(f.minute, 2) + ([inTime] + f5);
    ReplaceField(f.hour, 2, inTime, f4, from, to);
    var f3 := Format(f.hour, 2) + ([inTime] + f4);
    ReplaceField(f.date.day, 2, between, f3, from, to);
    var f2 := Format(f.date.day, 2) + ([between] + f3);
    ReplaceField(f.date.month, 2, '-', f2, from, to);
    ReplaceField(f.date.year, 4, '-', Format(f.date.month, 2) + (['-'] + f2), from, to);
  }

  lemma StampIsText(secs: nat)
    ensures DirStamp(secs) == Text(Break(secs), 'T', '-') + "Z"
  {
    hide Text, Break, Replace;
    TextReplaced(Break(secs), ' ', ':', ' ', 'T');
    TextReplaced(Break(secs), 'T', ':', ':', '-');
  }

  lemma PeelField(a: nat, b: nat, w: nat, sep: char, r: string, t: string)
    requires Format(a, w) + ([sep] + r) == Format(b, w) + ([sep] + t) && |r| == |t|
    ensures a == b && r == t
  {
    hide Format;
    var x, y := Format(a, w), Format(b, w);
    assert |x + ([sep] + r)| == |x| + 1 + |r| && |y + ([sep] + t)| == |y| + 1 + |t|;
    assert x == (x + ([sep] + r))[..|x|] && y == (y + ([sep] + t))[..|x|];
    assert r == (x + ([sep] + r))[|x| + 1..] && t == (y + ([sep] + t))[|x| + 1..];
    FormatInjective(a, b, w);
  }

  lemma TwoDigits(n: nat)
    requires n < 100
    ensures |Format(n, 2)| == 2
  {
    Widths();
    FormatIsPad(n, 2);
  }

  lemma TextInjective(f: Fields, g: Fields, between: char, inTime: char)
    requires ValidFields(f) && ValidFields(g) && Text(f, between, inTime) == Text(g, between, inTime)
    ensures f == g
  {
    hide Format;
    TwoDigits(f.second); TwoDigits(g.second);
    TwoDigits(f.minute); TwoDigits(g.minute);
    TwoDigits(f.hour); TwoDigits(g.hour);
    TwoDigits(f.date.day); TwoDigits(g.date.day);
    TwoDigits(f.date.month); TwoDigits(g.date.month);
    var f5, g5 := Format(f.second, 2), Format(g.second, 2);
    var f4, g4 := Format(f.minute, 2) + ([inTime] + f5), Format(g.minute, 2) + ([inTime] + g5);
    var f3, g3 := Format(f.hour, 2) + ([inTime] + f4), Format(g.hour, 2) + ([inTime] + g4);
    var f2, g2 := Format(f.date.day, 2) + ([between] + f3), Format(g.date.day, 2) + ([between] + g3);
    var f1, g1 := Format(f.date.month, 2) + (['-'] + f2), Format(g.date.month, 2) + (['-'] + g2);
    PeelField(f.date.year, g.date.year, 4, '-', f1, g1);
    PeelField(f.date.month, g.date.month, 2, '-', f2, g2);
    PeelField(f.date.day, g.date.day, 2, between, f3, g3);
    PeelField(f.hour, g.hour, 2, inTime, f4, g4);
    PeelField(f.minute, g.minute, 2, inTime, f5, g5);
    FormatInjective(f.second, g.second, 2);
  }

  /** Two runs share a directory name only when they share the second, in any year. */
  lemma DirStampInjective(a: nat, b: nat)
    requires DirStamp(a) == DirStamp(b)
    ensures a == b
  {
    hide DirStamp, Text, Break, SecondNumber;
    StampIsText(a);
    StampIsText(b);
    var x, y := Text(Break(a), 'T', '-'), Text(Break(b), 'T', '-');
    assert x == (x + "Z")[..|x|] && y == (y + "Z")[..|y|] && |x + "Z"| == |x| + 1 && |y + "Z"| == |y| + 1;
    BreakInverts(a);
    BreakInverts(b);
    TextInjective(Break(a), Break(b), 'T', '-');
  }

  lemma StampOrder(x: string, y: string)
    requires |x| == |y|
    ensures LexLess(x + "Z", y + "Z") <==> LexLess(x, y)
  {
    LexConcat(x, y, "Z", "Z");
    LexIrreflexive("Z");
  }

  /** Up to the end of the year 9999 the strings sort as the times do. */
  lemma TextSortsAsTime(a: nat, b: nat)
    requires a < 253402300800 && b < 253402300800
    ensures LexLess(FmtUtc(a), FmtUtc(b)) <==> a < b
    ensures LexLess(DirStamp(a), DirStamp(b)) <==> a < b
  {
    hide Civil, Text, Format, DirStamp, FieldsLess, SecondNumber;
    FourDigitYears(a / 86400);
    FourDigitYears(b / 86400);
    BreakInverts(a);
    BreakInverts(b);
    StampIsText(a);
    StampIsText(b);
    TextOrder(Break(a), Break(b), ' ', ':');
    TextOrder(Break(a), Break(b), 'T', '-');
    SameLength(Break(a), Break(b), 'T', '-');
    StampOrder(Text(Break(a), 'T', '-'), Text(Break(b), 'T', '-'));
    OrderIsTime(a, b);
  }

  lemma SameLength(f: Fields, g: Fields, between: char, inTime: char)
    requires ValidFields(f) && ValidFields(g) && f.date.year < 10000 && g.date.year < 10000
    ensures |Text(f, between, inTime)| == |Text(g, between, inTime)|
  {
    hide Format;
    Widths();
    FormatIsPad(f.date.year, 4); FormatIsPad(g.date.year, 4);
    TwoDigits(f.second); TwoDigits(g.second);
    TwoDigits(f.minute); TwoDigits(g.minute);
    TwoDigits(f.hour); TwoDigits(g.hour);
    TwoDigits(f.date.day); TwoDigits(g.date.day);
    TwoDigits(f.date.month); TwoDigits(g.date.month);
  }

  lemma OrderIsTime(a: nat, b: nat)
    ensures FieldsLess(Break(a), Break(b)) <==> a < b
  {
    hide Break;
    if a < b { BreakAscends(a, b); }
    if b < a { BreakAscends(b, a); }
  }

  /** One second later the order breaks: the year gets a fifth digit. */
  lemma OrderEndsWithYear9999()
    ensures LexLess(FmtUtc(253402300800), FmtUtc(253402300799)) && !LexLess(FmtUtc(253402300799), FmtUtc(253402300800))
  {
    hide Civil, LexLess, Pad;
    CivilIs(2932896, 9999, 305);
    CivilIs(2932897, 9999, 306);
    YearDigits();
    var x, y := FmtUtc(253402300800), FmtUtc(253402300799);
    assert x == Format(10000, 4) + x[5..] && y == Format(9999, 4) + y[4..];
    FirstDecides(x, y);
  }

  lemma YearDigits()
    ensures |Format(10000, 4)| == 5 && Format(10000, 4)[0] == '1'
    ensures |Format(9999, 4)| == 4 && Format(9999, 4)[0] == '9'
  {
    assert Format(1, 0) == "1" && Format(10, 1) == "10" && Format(100, 2) == "100";
    assert Format(9, 1) == "9" && Format(99, 2) == "99";
    assert Format(1000, 3) == Format(100, 2) + "0" && Format(999, 3) == Format(99, 2) + "9";
  }

  /** So the strings sort as the times on the first `n` seconds exactly when those end with the year 9999. */
  lemma SortsExactlyBelow(n: nat)
    ensures (forall a: nat, b: nat | a < n && b < n :: LexLess(FmtUtc(a), FmtUtc(b)) <==> a < b) <==> n <= 253402300800
  {
    hide FmtUtc, LexLess;
    if n <= 253402300800 {
      forall a: nat, b: nat | a < n && b < n ensures LexLess(FmtUtc(a), FmtUtc(b)) <==> a < b {
        TextSortsAsTime(a, b);
      }
    } else {
      OrderEndsWithYear9999();
    }
  }

  // ---------- The layout ----------

  /** `YYYY-MM-DD HH:MM:SS` with each field in its place, and `YYYY-MM-DDTHH-MM-SSZ` for a directory. */
  lemma TextLayout(secs: nat)
    ensures var f := Break(secs);
            var date := Format(f.date.year, 4) + "-" + Format(f.date.month, 2) + "-" + Format(f.date.day, 2);
            && FmtUtc(secs) == date + " " + Format(f.hour, 2) + ":" + Format(f.minute, 2) + ":" + Format(f.second, 2)
            && DirStamp(secs) == date + "T" + Format(f.hour, 2) + "-" + Format(f.minute, 2) + "-" + Format(f.second, 2) + "Z"
  {
    hide Break, Format, Replace;
    StampIsText(secs);
    hide DirStamp;
    var f := Break(secs);
    Layout(Format(f.date.year, 4), Format(f.date.month, 2), Format(f.date.day, 2), Format(f.hour, 2), Format(f.minute, 2),
           Format(f.second, 2), ' ', ':');
    Layout(Format(f.date.year, 4), Format(f.date.month, 2), Format(f.date.day, 2), Format(f.hour, 2), Format(f.minute, 2),
           Format(f.second, 2), 'T', '-');
  }

  lemma Layout(y: string, m: string, d: string, h: string, mi: string, s: string, between: char, inTime: char)
    ensures y + (['-'] + (m + (['-'] + (d + ([between] + (h + ([inTime] + (mi + ([inTime] + s)))))))))
         == y + "-" + m + "-" + d + [between] + h + [inTime] + mi + [inTime] + s
  {
  }

  /** Each two-digit field takes two characters, and reads back. */
  lemma FieldsRead(secs: nat)
    ensures var f := Break(secs);
            && |Format(f.date.month, 2)| == |Format(f.date.day, 2)| == 2
            && |Format(f.hour, 2)| == |Format(f.minute, 2)| == |Format(f.second, 2)| == 2
            && Reading(Format(f.date.year, 4)) == f.date.year && |Format(f.date.year, 4)| >= 4
            && Reading(Format(f.date.month, 2)) == f.date.month && Reading(Format(f.date.day, 2)) == f.date.day
            && Reading(Format(f.hour, 2)) == f.hour && Reading(Format(f.minute, 2)) == f.minute && Reading(Format(f.second, 2)) == f.second
  {
    hide Format, Break, Reading, SecondNumber;
    BreakInverts(secs);
    var f := Break(secs);
    TwoDigits(f.date.month); TwoDigits(f.date.day); TwoDigits(f.hour); TwoDigits(f.minute); TwoDigits(f.second);
    FormatReads(f.date.year, 4); FormatReads(f.date.month, 2); FormatReads(f.date.day, 2);
    FormatReads(f.hour, 2); FormatReads(f.minute, 2); FormatReads(f.second, 2);
  }
}
