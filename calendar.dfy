/** The proleptic Gregorian calendar as Python's datetime module computes it:
    day ordinals (date.toordinal, 0001-01-01 is day 1), adding a number of
    days, datetime subtraction, and the text forms the scripts read and write
    (strftime/strptime with "%Y-%m-%d", and str() of a datetime). */
module Calendar {
  import opened Common
  import opened Arith

  datatype Date = Date(year: int, month: int, day: int)

  datatype DateTime = DateTime(date: Date, hour: int, minute: int, second: int)

  /** datetime.MAXYEAR's last day as an ordinal. */
  const MaxOrdinal: int := 3652059

  predicate IsLeap(y: int)
  {
    y % 4 == 0 && (y % 100 != 0 || y % 400 == 0)
  }

  function DaysInYear(y: int): int
  {
    if IsLeap(y) then 366 else 365
  }

  function DaysInMonth(y: int, m: int): int
    requires 1 <= m <= 12
  {
    if m == 2 then (if IsLeap(y) then 29 else 28)
    else if m == 4 || m == 6 || m == 9 || m == 11 then 30
    else 31
  }

  /** A calendar day of the proleptic Gregorian calendar (any year). */
  predicate ValidDate(d: Date)
  {
    1 <= d.month <= 12 && 1 <= d.day <= DaysInMonth(d.year, d.month)
  }

  /** A date Python's date type can hold: years 1 to 9999. */
  predicate InRange(d: Date)
  {
    ValidDate(d) && 1 <= d.year <= 9999
  }

  predicate ValidDateTime(t: DateTime)
  {
    InRange(t.date) && 0 <= t.hour < 24 && 0 <= t.minute < 60 && 0 <= t.second < 60
  }

  /** Days before 1 January of year y, counted from 1 January of year 1. */
  function DaysBeforeYear(y: int): int
  {
    var p := y - 1;
    p * 365 + p / 4 - p / 100 + p / 400
  }

  /** Days in year y before the first of month m. */
  function DaysBeforeMonth(y: int, m: int): int
    requires 1 <= m <= 12
  {
    var table := [0, 31, 59, 90, 120, 151, 181, 212, 243, 273, 304, 334];
    table[m - 1] + (if m > 2 && IsLeap(y) then 1 else 0)
  }

  /** date.toordinal(). */
  function Ordinal(d: Date): int
    requires ValidDate(d)
  {
    DaysBeforeYear(d.year) + DaysBeforeMonth(d.year, d.month) + d.day
  }

  lemma Div4Step(p: int)
    ensures (p + 1) / 4 - p / 4 == (if (p + 1) % 4 == 0 then 1 else 0)
  {
    var q, r := p / 4, p % 4;
    assert p == 4 * q + r;
  }

  lemma Div100Step(p: int)
    ensures (p + 1) / 100 - p / 100 == (if (p + 1) % 100 == 0 then 1 else 0)
  {
    var q, r := p / 100, p % 100;
    assert p == 100 * q + r;
  }

  lemma Div400Step(p: int)
    ensures (p + 1) / 400 - p / 400 == (if (p + 1) % 400 == 0 then 1 else 0)
  {
    var q, r := p / 400, p % 400;
    assert p == 400 * q + r;
  }

  /** Divisibility by 400 implies by 100, which implies by 4. */
  lemma DivisorChain(y: int)
    ensures y % 400 == 0 ==> y % 100 == 0
    ensures y % 100 == 0 ==> y % 4 == 0
  {
    if y % 400 == 0 {
      var k := y / 400;
      DivUnique(y, 100, 4 * k);
    }
    if y % 100 == 0 {
      var k := y / 100;
      DivUnique(y, 4, 25 * k);
    }
  }

  lemma DaysBeforeYearStep(y: int)
    ensures DaysBeforeYear(y + 1) == DaysBeforeYear(y) + DaysInYear(y)
  {
    var p := y - 1;
    Div4Step(p);
    Div100Step(p);
    Div400Step(p);
    DivisorChain(y);
    var a, b, c := y / 4 - p / 4, y / 100 - p / 100, y / 400 - p / 400;
    assert DaysInYear(y) == 365 + a - b + c;
    assert DaysBeforeYear(y + 1) == DaysBeforeYear(y) + 365 + a - b + c;
  }

  lemma DaysBeforeMonthStep(y: int, m: int)
    requires 1 <= m <= 12
    ensures m < 12 ==> DaysBeforeMonth(y, m + 1) == DaysBeforeMonth(y, m) + DaysInMonth(y, m)
    ensures m == 12 ==> DaysBeforeMonth(y, m) + DaysInMonth(y, m) == DaysInYear(y)
  {
  }

  /** The calendar day after d. */
  function NextDay(d: Date): (r: Date)
    requires ValidDate(d)
  {
    if d.day < DaysInMonth(d.year, d.month) then Date(d.year, d.month, d.day + 1)
    else if d.month < 12 then Date(d.year, d.month + 1, 1)
    else Date(d.year + 1, 1, 1)
  }

  /** The calendar day before d. */
  function PrevDay(d: Date): (r: Date)
    requires ValidDate(d)
  {
    if d.day > 1 then Date(d.year, d.month, d.day - 1)
    else if d.month > 1 then Date(d.year, d.month - 1, DaysInMonth(d.year, d.month - 1))
    else Date(d.year - 1, 12, 31)
  }

  lemma NextDayOrdinal(d: Date)
    requires ValidDate(d)
    ensures ValidDate(NextDay(d)) && Ordinal(NextDay(d)) == Ordinal(d) + 1
  {
    DaysBeforeMonthStep(d.year, d.month);
    if d.day == DaysInMonth(d.year, d.month) && d.month == 12 {
      DaysBeforeYearStep(d.year);
    }
  }

  lemma PrevDayOrdinal(d: Date)
    requires ValidDate(d)
    ensures ValidDate(PrevDay(d)) && Ordinal(PrevDay(d)) == Ordinal(d) - 1
  {
    if d.day == 1 {
      if d.month > 1 {
        DaysBeforeMonthStep(d.year, d.month - 1);
      } else {
        DaysBeforeYearStep(d.year - 1);
        DaysBeforeMonthStep(d.year - 1, 12);
      }
    }
  }

  /** The date k days after d (before it when k is negative), one day at a time. */
  function AddDays(d: Date, k: int): Date
    requires ValidDate(d)
    decreases if k < 0 then -k else k
  {
    if k == 0 then d
    else if k > 0 then
      NextDayOrdinal(d);
      AddDays(NextDay(d), k - 1)
    else
      PrevDayOrdinal(d);
      AddDays(PrevDay(d), k + 1)
  }

  /** Adding k days moves the ordinal by exactly k. */
  lemma {:induction false} AddDaysOrdinal(d: Date, k: int)
    requires ValidDate(d)
    ensures ValidDate(AddDays(d, k)) && Ordinal(AddDays(d, k)) == Ordinal(d) + k
    decreases if k < 0 then -k else k
  {
    if k > 0 {
      NextDayOrdinal(d);
      AddDaysOrdinal(NextDay(d), k - 1);
    } else if k < 0 {
      PrevDayOrdinal(d);
      AddDaysOrdinal(PrevDay(d), k + 1);
    }
  }

  /** A date's ordinal lies within its year's span of ordinals. */
  lemma OrdinalWithinYear(d: Date)
    requires ValidDate(d)
    ensures DaysBeforeYear(d.year) < Ordinal(d) <= DaysBeforeYear(d.year + 1)
  {
    DaysBeforeYearStep(d.year);
    DaysBeforeMonthStep(d.year, d.month);
    if d.month < 12 {
      assert DaysBeforeMonth(d.year, d.month) + DaysInMonth(d.year, d.month) <= DaysBeforeMonth(d.year, 12);
      DaysBeforeMonthStep(d.year, 12);
    }
  }

  lemma {:induction false} DaysBeforeYearMonotone(a: int, b: int)
    requires a <= b
    ensures DaysBeforeYear(a) + 365 * (b - a) <= DaysBeforeYear(b)
    decreases b - a
  {
    if a < b {
      DaysBeforeYearMonotone(a, b - 1);
      DaysBeforeYearStep(b - 1);
    }
  }

  /** Ordinals order dates by year first. */
  lemma YearOrder(a: Date, b: Date)
    requires ValidDate(a) && ValidDate(b) && a.year < b.year
    ensures Ordinal(a) < Ordinal(b)
  {
    OrdinalWithinYear(a);
    OrdinalWithinYear(b);
    DaysBeforeYearMonotone(a.year + 1, b.year);
  }

  /** Within a year, ordinals order dates by month. */
  lemma MonthOrder(a: Date, b: Date)
    requires ValidDate(a) && ValidDate(b) && a.year == b.year && a.month < b.month
    ensures Ordinal(a) < Ordinal(b)
  {
    DaysBeforeMonthStep(a.year, a.month);
    assert DaysBeforeMonth(a.year, a.month) + DaysInMonth(a.year, a.month) <= DaysBeforeMonth(a.year, b.month);
  }

  /** Two calendar days with the same ordinal are the same day, so the date
      AddDays reaches is the one date.fromordinal returns. */
  lemma OrdinalInjective(a: Date, b: Date)
    requires ValidDate(a) && ValidDate(b) && Ordinal(a) == Ordinal(b)
    ensures a == b
  {
    if a.year < b.year { YearOrder(a, b); }
    else if b.year < a.year { YearOrder(b, a); }
    else if a.month < b.month { MonthOrder(a, b); }
    else if b.month < a.month { MonthOrder(b, a); }
  }

  lemma FirstOrdinal()
    ensures ValidDate(Date(1, 1, 1)) && Ordinal(Date(1, 1, 1)) == 1
  {
    assert DaysBeforeYear(1) == 0;
  }

  lemma LastOrdinal()
    ensures Ordinal(Date(9999, 12, 31)) == MaxOrdinal
  {
    LastYearStart();
    LastMonthStart();
  }

  lemma LastMonthStart()
    ensures ValidDate(Date(9999, 12, 31)) && DaysBeforeMonth(9999, 12) == 334
  {
    assert 9999 % 4 == 3;
  }

  lemma LastYearStart()
    ensures DaysBeforeYear(9999) == 3651694
  {
  }

  lemma OrdinalBelowOne(d: Date)
    requires ValidDate(d) && d.year < 1
    ensures Ordinal(d) < 1
  {
    FirstOrdinal();
    YearOrder(d, Date(1, 1, 1));
  }

  lemma OrdinalFromOne(d: Date)
    requires ValidDate(d) && d.year >= 1
    ensures Ordinal(d) >= 1
  {
    OrdinalWithinYear(d);
    DaysBeforeYearMonotone(1, d.year);
    assert DaysBeforeYear(1) == 0;
  }

  lemma OrdinalAtLeastOneIff(d: Date)
    requires ValidDate(d)
    ensures d.year >= 1 <==> Ordinal(d) >= 1
  {
    if d.year < 1 { OrdinalBelowOne(d); } else { OrdinalFromOne(d); }
  }

  lemma OrdinalAtMostMaxIff(d: Date)
    requires ValidDate(d)
    ensures d.year <= 9999 <==> Ordinal(d) <= MaxOrdinal
  {
    var last := Date(9999, 12, 31);
    LastOrdinal();
    if d.year > 9999 { YearOrder(last, d); }
    else if d.year < 9999 { YearOrder(d, last); }
    else if d.month < 12 { MonthOrder(d, last); }
  }

  /** Python's range check on a date ordinal agrees with the year range 1..9999. */
  lemma InRangeIffOrdinal(d: Date)
    requires ValidDate(d)
    ensures InRange(d) <==> 1 <= Ordinal(d) <= MaxOrdinal
  {
    OrdinalAtLeastOneIff(d);
    OrdinalAtMostMaxIff(d);
  }

  /** date + timedelta(days=k): None where Python raises OverflowError, that
      is, where the ordinal leaves 1..MaxOrdinal. */
  function Shift(d: Date, k: int): (r: Option<Date>)
    requires InRange(d)
    ensures r.Some? ==> InRange(r.value) && Ordinal(r.value) == Ordinal(d) + k
    ensures r.None? <==> !(1 <= Ordinal(d) + k <= MaxOrdinal)
  {
    AddDaysOrdinal(d, k);
    InRangeIffOrdinal(AddDays(d, k));
    if 1 <= Ordinal(d) + k <= MaxOrdinal then Some(AddDays(d, k)) else None
  }

  // ---------------------------------------------------------------------------
  // datetime subtraction

  /** A timedelta in Python's normal form: seconds is in 0..86399. */
  datatype TimeDelta = TimeDelta(days: int, seconds: int)

  function SecondOfDay(t: DateTime): int
  {
    t.hour * 3600 + t.minute * 60 + t.second
  }

  /** a - b for two datetimes, normalised as timedelta keeps it: the
      seconds part lies in 0..86399, a negative one borrowing a day. */
  function Subtract(a: DateTime, b: DateTime): (r: TimeDelta)
    requires ValidDateTime(a) && ValidDateTime(b)
    ensures 0 <= r.seconds < 86400
    ensures r.days * 86400 + r.seconds
         == (Ordinal(a.date) - Ordinal(b.date)) * 86400 + SecondOfDay(a) - SecondOfDay(b)
  {
    var secs := SecondOfDay(a) - SecondOfDay(b);
    if secs < 0 then TimeDelta(Ordinal(a.date) - Ordinal(b.date) - 1, secs + 86400)
    else TimeDelta(Ordinal(a.date) - Ordinal(b.date), secs)
  }

  /** The difference of two midnights is a whole number of days. */
  lemma MidnightDifference(a: Date, b: Date)
    requires InRange(a) && InRange(b)
    ensures Subtract(Midnight(a), Midnight(b)) == TimeDelta(Ordinal(a) - Ordinal(b), 0)
  {
    assert SecondOfDay(Midnight(a)) == 0 && SecondOfDay(Midnight(b)) == 0;
  }

  /** datetime(y, m, d): midnight of that day. */
  function Midnight(d: Date): DateTime
  {
    DateTime(d, 0, 0, 0)
  }

  // ---------------------------------------------------------------------------
  // Text forms

  /** date.strftime("%Y-%m-%d"). */
  function FormatDate(d: Date): string
    requires InRange(d)
  {
    Decimal(d.year, 4) + "-" + Decimal(d.month, 2) + "-" + Decimal(d.day, 2)
  }

  /** str(datetime) for a datetime without microseconds. */
  function StrDateTime(t: DateTime): string
    requires ValidDateTime(t)
  {
    FormatDate(t.date) + " " + Decimal(t.hour, 2) + ":" + Decimal(t.minute, 2) + ":" + Decimal(t.second, 2)
  }

  /** A month as strptime's %m accepts it: "1".."9", "01".."09", "10".."12". */
  predicate MonthToken(s: string)
  {
    (|s| == 1 && '1' <= s[0] <= '9')
    || (|s| == 2 && s[0] == '0' && '1' <= s[1] <= '9')
    || (|s| == 2 && s[0] == '1' && '0' <= s[1] <= '2')
  }

  /** A day as strptime's %d accepts it: "1".."9", " 1".." 9", "01".."31". */
  predicate DayToken(s: string)
  {
    (|s| == 1 && '1' <= s[0] <= '9')
    || (|s| == 2 && s[0] == ' ' && '1' <= s[1] <= '9')
    || (|s| == 2 && s[0] == '0' && '1' <= s[1] <= '9')
    || (|s| == 2 && (s[0] == '1' || s[0] == '2') && IsDigit(s[1]))
    || (|s| == 2 && s[0] == '3' && (s[1] == '0' || s[1] == '1'))
  }

  /** The number a month or day token stands for (a leading space or zero is ignored). */
  function TokenValue(s: string): nat
    requires MonthToken(s) || DayToken(s)
  {
    if |s| == 1 then DigitValue(s[0])
    else if s[0] == ' ' then DigitValue(s[1])
    else DigitValue(s[0]) * 10 + DigitValue(s[1])
  }

  /** datetime.strptime(s, "%Y-%m-%d").date(): four digits, '-', a month,
      '-', a day, nothing after; None where Python raises ValueError (text
      that does not match, year 0, or a day the month does not have). */
  function ParseDate(s: string): (r: Option<Date>)
    ensures r.Some? ==> InRange(r.value)
  {
    if |s| < 8 || !AllDigits(s[..4]) || s[4] != '-' then None
    else
      var parts := Split(s[5..], '-');
      if |parts| != 2 || !MonthToken(parts[0]) || !DayToken(parts[1]) then None
      else
        var d := Date(DigitsValue(s[..4]), TokenValue(parts[0]), TokenValue(parts[1]));
        if InRange(d) then Some(d) else None
  }

  lemma FormatDateShape(d: Date)
    requires InRange(d)
    ensures |FormatDate(d)| == 10
    ensures AllDigits(FormatDate(d)[..4]) && FormatDate(d)[4] == '-' && FormatDate(d)[7] == '-'
    ensures '/' !in FormatDate(d) && ',' !in FormatDate(d) && NoSpace(FormatDate(d))
  {
    var s := FormatDate(d);
    DecimalDigits(d.year, 4);
    DecimalDigits(d.month, 2);
    DecimalDigits(d.day, 2);
    assert s[..4] == Decimal(d.year, 4);
    assert forall i :: 0 <= i < 10 && i != 4 && i != 7 ==> IsDigit(s[i]);
  }

  lemma DecimalTwo(n: nat)
    requires n < 100
    ensures Decimal(n, 2) == [DigitChar(n / 10), DigitChar(n % 10)]
  {
    var q := n / 10;
    assert q < 10 && q % 10 == q && q / 10 == 0;
    assert Decimal(q, 1) == [DigitChar(q)];
  }

  /** Two digits of a month number form a month token standing for it. */
  lemma MonthDigits(n: nat)
    requires 1 <= n <= 12
    ensures MonthToken(Decimal(n, 2)) && TokenValue(Decimal(n, 2)) == n
  {
    DecimalTwo(n);
  }

  /** Two digits of a day number form a day token standing for it. */
  lemma DayDigits(n: nat)
    requires 1 <= n <= 31
    ensures DayToken(Decimal(n, 2)) && TokenValue(Decimal(n, 2)) == n
  {
    DecimalTwo(n);
  }

  /** strptime on "y-m-d" with a four-digit year and well-formed month and
      day tokens yields that date where the calendar has it. */
  lemma ParseDatePieces(y: string, m: string, d: string)
    requires |y| == 4 && AllDigits(y) && MonthToken(m) && DayToken(d) && '-' !in m && '-' !in d
    ensures ParseDate(y + "-" + m + "-" + d)
         == var r := Date(DigitsValue(y), TokenValue(m), TokenValue(d)); if InRange(r) then Some(r) else None
  {
    var s := y + "-" + m + "-" + d;
    assert s[..4] == y && s[4] == '-';
    assert s[5..] == m + ['-'] + d;
    SplitNoSep(d, '-');
    SplitHead(m, '-', d);
  }

  /** strptime reads back what strftime wrote. */
  lemma ParseFormatDate(d: Date)
    requires InRange(d)
    ensures ParseDate(FormatDate(d)) == Some(d)
  {
    var y, m, dd := Decimal(d.year, 4), Decimal(d.month, 2), Decimal(d.day, 2);
    DecimalValue(d.year, 4);
    MonthDigits(d.month);
    DayDigits(d.day);
    ParseDatePieces(y, m, dd);
  }

  /** The date fields of a datetime's text, as the scripts get them:
      str(dt).replace('-', '/').split()[0].split('/'). None where that
      raises (blank text). */
  function DatePieces(text: string): Option<seq<string>>
  {
    match FirstWord(Replace(text, '-', '/'))
    case None => None
    case Some(w) => Some(Split(w, '/'))
  }

  /** Replacing '-' by '/' in "y-m-d rest", where y, m and d hold neither. */
  lemma ReplaceDateDashes(y: string, m: string, d: string, rest: string)
    requires '-' !in y && '-' !in m && '-' !in d
    ensures Replace(y + "-" + m + "-" + d + " " + rest, '-', '/')
         == y + "/" + m + "/" + d + " " + Replace(rest, '-', '/')
  {
    var p := y + "-" + m + "-" + d + " ";
    var q := y + "/" + m + "/" + d + " ";
    ReplaceConcat(p, rest, '-', '/');
    forall i | 0 <= i < |p| ensures Replace(p, '-', '/')[i] == q[i] {
    }
    assert Replace(p, '-', '/') == q;
  }

  /** The date fields of text shaped "y-m-d rest": y, m and d. */
  lemma DatePiecesOfText(y: string, m: string, d: string, rest: string)
    requires y != [] && NoSpace(y) && NoSpace(m) && NoSpace(d)
    requires '-' !in y && '-' !in m && '-' !in d
    requires '/' !in y && '/' !in m && '/' !in d
    ensures DatePieces(y + "-" + m + "-" + d + " " + rest) == Some([y, m, d])
  {
    ReplaceDateDashes(y, m, d, rest);
    var w := y + "/" + m + "/" + d;
    assert NoSpace(w) by {
      forall i | 0 <= i < |w| ensures !IsSpace(w[i]) {
        if i < |y| { assert w[i] == y[i]; }
        else if i == |y| { }
        else if i < |y| + 1 + |m| { assert w[i] == m[i - |y| - 1]; }
        else if i == |y| + 1 + |m| { }
        else { assert w[i] == d[i - |y| - |m| - 2]; }
      }
    }
    assert w + " " + Replace(rest, '-', '/') == y + "/" + m + "/" + d + " " + Replace(rest, '-', '/');
    FirstWordOf(w, Replace(rest, '-', '/'));
    Join3(y, m, d, '/');
    SplitJoin([y, m, d], '/');
  }

  /** The date fields of str(dt) are its zero-padded year, month and day. */
  lemma DatePiecesOfStr(t: DateTime)
    requires ValidDateTime(t)
    ensures DatePieces(StrDateTime(t))
         == Some([Decimal(t.date.year, 4), Decimal(t.date.month, 2), Decimal(t.date.day, 2)])
  {
    var d := t.date;
    var y, m, dd := Decimal(d.year, 4), Decimal(d.month, 2), Decimal(d.day, 2);
    var time := Decimal(t.hour, 2) + ":" + Decimal(t.minute, 2) + ":" + Decimal(t.second, 2);
    assert StrDateTime(t) == y + "-" + m + "-" + dd + " " + time;
    DecimalDigits(d.year, 4);
    DecimalDigits(d.month, 2);
    DecimalDigits(d.day, 2);
    assert forall c :: c in y ==> IsDigit(c);
    assert forall c :: c in m ==> IsDigit(c);
    assert forall c :: c in dd ==> IsDigit(c);
    DatePiecesOfText(y, m, dd, time);
  }

  /** The year, month and day the scripts read back from a datetime's text
      with int(); None where int() or datetime(y, m, d) raises. */
  function ParseYmd(text: string): (r: Option<Date>)
    ensures r.Some? ==> InRange(r.value)
  {
    match DatePieces(text)
    case None => None
    case Some(p) =>
      if |p| < 3 then None
      else
        match (ParseInt(p[0]), ParseInt(p[1]), ParseInt(p[2]))
        case (Some(y), Some(m), Some(d)) =>
          if InRange(Date(y, m, d)) then Some(Date(y, m, d)) else None
        case _ => None
  }

  /** Reading year, month and day back from str(dt) gives dt's date. */
  lemma ParseYmdOfStr(t: DateTime)
    requires ValidDateTime(t)
    ensures ParseYmd(StrDateTime(t)) == Some(t.date)
  {
    DatePiecesOfStr(t);
    ParseDecimal(t.date.year, 4);
    ParseDecimal(t.date.month, 2);
    ParseDecimal(t.date.day, 2);
  }

  /** str(None) is "None", which has no date fields to read. */
  lemma ParseYmdOfNone()
    ensures ParseYmd("None") == None
  {
    ReplaceAbsent("None", '-', '/');
    FirstWordOf("None", "");
    assert FirstWord("None") == Some("None") by {
      assert DropSpaces("None") == "None";
      assert TakeWord("None") == [ 'N' ] + TakeWord("one");
      assert TakeWord("one") == [ 'o' ] + TakeWord("ne");
      assert TakeWord("ne") == [ 'n' ] + TakeWord("e");
      assert TakeWord("e") == [ 'e' ] + TakeWord("");
    }
    SplitNoSep("None", '/');
  }
}
