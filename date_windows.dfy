/** Splitting the search period into windows (date_range in
    scripts/MDCS_UC.py). The span from start to end is divided by the
    interval count in microseconds, rounding down; boundary i is the start
    date plus the whole days of i times that width. Each window is written
    "YYYY-MM-DD/YYYY-MM-DD". A date that does not parse, a zero count, or a
    boundary outside years 1..9999 makes the whole call fail. */
module DateWindows {
  import opened Common
  import opened Calendar
  import opened Arith

  const MicrosPerDay: int := 86400000000

  /** Why date_range returns False. */
  datatype RangeError = BadDate | BadInterval | ZeroInterval | Overflow

  /** (end - start) // n for a positive n, in microseconds. */
  function WindowWidth(span: int, n: int): int
    requires n > 0
  {
    (span * MicrosPerDay) / n
  }

  /** (start + diff * i) - start in whole days: the days field of the
      timedelta diff * i, which Python rounds toward minus infinity. */
  function BoundaryOffset(width: int, i: int): int
  {
    (width * i) / MicrosPerDay
  }

  /** Boundary i of the windows that start at s with the given width. */
  function Boundary(s: Date, width: int, i: int): Option<Date>
    requires InRange(s)
  {
    Shift(s, BoundaryOffset(width, i))
  }

  /** One window as date_range writes it. */
  function WindowText(a: Date, b: Date): string
    requires InRange(a) && InRange(b)
  {
    FormatDate(a) + "/" + FormatDate(b)
  }

  /** Window i, or None when one of its boundaries leaves years 1..9999
      (the OverflowError of date + timedelta). */
  function WindowAt(s: Date, width: int, i: int): Option<string>
    requires InRange(s)
  {
    var a, b := Boundary(s, width, i), Boundary(s, width, i + 1);
    if a.Some? && b.Some? then Some(WindowText(a.value, b.value)) else None
  }

  /** The windows in order, as the append loop collects them, or Overflow as
      soon as one of them is missing. */
  function Collect(ws: seq<Option<string>>): (r: Result<seq<string>, RangeError>)
    ensures r.Ok? <==> forall i :: 0 <= i < |ws| ==> ws[i].Some?
    ensures r.Ok? ==> |r.value| == |ws| && forall i :: 0 <= i < |ws| ==> r.value[i] == ws[i].value
    ensures r.Err? ==> r.error == Overflow
  {
    if ws == [] then Ok([])
    else
      var p := Collect(ws[..|ws| - 1]);
      if p.Err? then p
      else if ws[|ws| - 1].None? then Err(Overflow)
      else Ok(p.value + [ws[|ws| - 1].value])
  }

  /** Windows 0..n-1 of the given width, each possibly missing. */
  function WindowOptions(s: Date, width: int, n: nat): (r: seq<Option<string>>)
    requires InRange(s)
    ensures |r| == n && forall i :: 0 <= i < n ==> r[i] == WindowAt(s, width, i)
  {
    seq(n, i requires 0 <= i < n => WindowAt(s, width, i))
  }

  /** The n windows between two parsed dates, or Overflow. */
  function Windows(s: Date, e: Date, n: nat): Result<seq<string>, RangeError>
    requires InRange(s) && InRange(e) && n > 0
  {
    Collect(WindowOptions(s, WindowWidth(Ordinal(e) - Ordinal(s), n), n))
  }

  /** What date_range(start, end, intv) returns: intv is the configured
      interval text, converted with int(). */
  function DateRangeSpec(start: string, end: string, intv: string): Result<seq<string>, RangeError>
  {
    var s, e, n := ParseDate(start), ParseDate(end), ParseInt(intv);
    if s.None? || e.None? then Err(BadDate)
    else if n.None? then Err(BadInterval)
    else if n.value == 0 then Err(ZeroInterval)
    else if n.value < 0 then Ok([])
    else Windows(s.value, e.value, n.value)
  }

  /** date_range: both dates are parsed, the width is computed, and the
      windows are appended one at a time. */
  method DateRange(start: string, end: string, intv: string) returns (r: Result<seq<string>, RangeError>)
    ensures r == DateRangeSpec(start, end, intv)
  {
    var s := ParseDate(start);
    var e := ParseDate(end);
    if s.None? || e.None? {
      return Err(BadDate);
    }
    var n := ParseInt(intv);
    if n.None? {
      return Err(BadInterval);
    }
    if n.value == 0 {
      return Err(ZeroInterval);
    }
    if n.value < 0 {
      return Ok([]);
    }
    r := WindowList(s.value, e.value, n.value);
  }

  /** The loop of date_range over i in range(n). */
  method WindowList(s: Date, e: Date, n: nat) returns (r: Result<seq<string>, RangeError>)
    requires InRange(s) && InRange(e) && n > 0
    ensures r == Windows(s, e, n)
  {
    var diff := WindowWidth(Ordinal(e) - Ordinal(s), n);
    ghost var ws := WindowOptions(s, diff, n);
    var datelist: seq<string> := [];
    for i := 0 to n
      invariant Collect(ws[..i]) == Ok(datelist)
    {
      var startdate := Boundary(s, diff, i);
      var endDate := Boundary(s, diff, i + 1);
      if startdate.None? || endDate.None? {
        assert ws[i].None?;
        return Err(Overflow);
      }
      var window := FormatDate(startdate.value) + "/" + FormatDate(endDate.value);
      assert ws[i] == Some(window);
      CollectStep(ws, i, datelist, window);
      datelist := datelist + [window];
    }
    assert ws[..n] == ws;
    r := Ok(datelist);
  }

  /** One more window present: the collected list grows by that window. */
  lemma CollectStep(ws: seq<Option<string>>, i: int, list: seq<string>, w: string)
    requires 0 <= i < |ws| && ws[i] == Some(w) && Collect(ws[..i]) == Ok(list)
    ensures Collect(ws[..i + 1]) == Ok(list + [w])
  {
    assert ws[..i + 1][..i] == ws[..i];
  }

  // ---------------------------------------------------------------------------
  // Arithmetic of the boundaries

  /** For start <= end, every boundary 0..n lies between start and end. */
  lemma BoundaryWithinSpan(span: int, n: int, i: int)
    requires span >= 0 && n > 0 && 0 <= i <= n
    ensures 0 <= BoundaryOffset(WindowWidth(span, n), i) <= span
  {
    var w := WindowWidth(span, n);
    FloorDiv(span * MicrosPerDay, n);
    assert 0 <= w;
    MulMonotone(w, 0, i);
    MulMonotone(w, i, n);
    assert w * i <= w * n == n * w <= span * MicrosPerDay;
  }

  /** Boundaries never move backwards for start <= end. */
  lemma BoundaryMonotone(span: int, n: int, i: int, j: int)
    requires span >= 0 && n > 0 && i <= j
    ensures BoundaryOffset(WindowWidth(span, n), i) <= BoundaryOffset(WindowWidth(span, n), j)
  {
    var w := WindowWidth(span, n);
    FloorDiv(span * MicrosPerDay, n);
    MulMonotone(w, i, j);
  }

  /** The last boundary falls on the end date or on the day before it; the
      day before whenever n does not divide the span in microseconds. */
  lemma LastBoundary(span: int, n: int)
    requires span >= 0 && 0 < n <= MicrosPerDay
    ensures span - 1 <= BoundaryOffset(WindowWidth(span, n), n) <= span
    ensures BoundaryOffset(WindowWidth(span, n), n) == span <==> (span * MicrosPerDay) % n == 0
  {
    var x := span * MicrosPerDay;
    var w := WindowWidth(span, n);
    FloorDiv(x, n);
    assert w * n == n * w;
    assert x - n < w * n <= x;
    assert x == n * w + x % n;
    if x % n == 0 {
      assert w * n == x;
    } else {
      assert w * n < x;
      assert (w * n) / MicrosPerDay < span;
    }
  }

  /** Over a ten-day span in seven windows the last window ends on day 9. */
  lemma LastWindowShortExample()
    ensures WindowWidth(10, 7) == 123428571428
    ensures BoundaryOffset(WindowWidth(10, 7), 7) == 9
  {
  }

  /** Boundary i as intended: i/n of the span, rounded down, in whole days. */
  function IntendedOffset(span: int, n: int, i: int): int
    requires n > 0
  {
    (span * i) / n
  }

  /** The intended boundaries start at 0, end exactly at the span and never
      move backwards. */
  lemma IntendedBoundaries(span: int, n: int, i: int, j: int)
    requires span >= 0 && n > 0 && 0 <= i <= j <= n
    ensures IntendedOffset(span, n, 0) == 0
    ensures IntendedOffset(span, n, n) == span
    ensures 0 <= IntendedOffset(span, n, i) <= IntendedOffset(span, n, j) <= span
  {
    DivUnique(span * 0, n, 0);
    DivUnique(span * n, n, span);
    MulMonotone(span, 0, i);
    MulMonotone(span, i, j);
    MulMonotone(span, j, n);
    DivMonotone(span * 0, span * i, n);
    DivMonotone(span * i, span * j, n);
    DivMonotone(span * j, span * n, n);
  }

  // ---------------------------------------------------------------------------
  // What the windows are

  /** date_range returns exactly int(intv) windows (none for a negative count). */
  lemma WindowCount(start: string, end: string, intv: string)
    requires DateRangeSpec(start, end, intv).Ok?
    ensures ParseInt(intv).Some?
    ensures |DateRangeSpec(start, end, intv).value| == Max(ParseInt(intv).value, 0)
  {
  }

  /** A zero count or a date that does not parse yields False. */
  lemma RangeErrors(start: string, end: string, intv: string)
    ensures ParseDate(start).None? || ParseDate(end).None? ==> DateRangeSpec(start, end, intv) == Err(BadDate)
    ensures ParseDate(start).Some? && ParseDate(end).Some? && ParseInt(intv).None? ==>
      DateRangeSpec(start, end, intv) == Err(BadInterval)
    ensures ParseDate(start).Some? && ParseDate(end).Some? && ParseInt(intv) == Some(0) ==>
      DateRangeSpec(start, end, intv) == Err(ZeroInterval)
  {
  }

  /** For s <= e, boundary i (0 <= i <= n) is a date between s and e. */
  lemma BoundaryInPeriod(s: Date, e: Date, n: nat, i: int)
    requires InRange(s) && InRange(e) && 0 <= i <= n && n > 0
    requires Ordinal(s) <= Ordinal(e)
    ensures var b := Boundary(s, WindowWidth(Ordinal(e) - Ordinal(s), n), i);
      b.Some? && Ordinal(s) <= Ordinal(b.value) <= Ordinal(e)
  {
    BoundaryWithinSpan(Ordinal(e) - Ordinal(s), n, i);
    InRangeIffOrdinal(s);
    InRangeIffOrdinal(e);
  }

  /** With s no later than e, no boundary overflows. */
  lemma OrderedWindowsSucceed(s: Date, e: Date, n: nat)
    requires InRange(s) && InRange(e) && n > 0
    requires Ordinal(s) <= Ordinal(e)
    ensures Windows(s, e, n).Ok?
  {
    AllWindowsExist(s, e, n, WindowOptions(s, WindowWidth(Ordinal(e) - Ordinal(s), n), n));
  }

  lemma AllWindowsExist(s: Date, e: Date, n: nat, ws: seq<Option<string>>)
    requires InRange(s) && InRange(e) && n > 0
    requires Ordinal(s) <= Ordinal(e)
    requires ws == WindowOptions(s, WindowWidth(Ordinal(e) - Ordinal(s), n), n)
    ensures Collect(ws).Ok?
  {
    forall i | 0 <= i < |ws| ensures ws[i].Some? {
      WindowBoundsOrdered(s, e, n, i);
    }
  }

  /** Each window's text splits at '/' into the two formatted boundaries. */
  lemma WindowPieces(a: Date, b: Date)
    requires InRange(a) && InRange(b)
    ensures Split(WindowText(a, b), '/') == [FormatDate(a), FormatDate(b)]
  {
    FormatDateShape(a);
    FormatDateShape(b);
    SplitNoSep(FormatDate(b), '/');
    SplitHead(FormatDate(a), '/', FormatDate(b));
  }

  /** Window i, split at '/', is boundary i and boundary i + 1. */
  lemma WindowAtPieces(s: Date, width: int, i: int)
    requires InRange(s) && WindowAt(s, width, i).Some?
    ensures Split(WindowAt(s, width, i).value, '/') ==
      [FormatDate(Boundary(s, width, i).value), FormatDate(Boundary(s, width, i + 1).value)]
  {
    WindowPieces(Boundary(s, width, i).value, Boundary(s, width, i + 1).value);
  }

  /** The first window starts on the start date: read back with strptime it
      is s itself. */
  lemma FirstWindowStartsAtStart(s: Date, e: Date, n: nat)
    requires InRange(s) && InRange(e) && n > 0 && Windows(s, e, n).Ok?
    ensures ParseDate(Split(Windows(s, e, n).value[0], '/')[0]) == Some(s)
  {
    var width := WindowWidth(Ordinal(e) - Ordinal(s), n);
    WindowsElement(s, e, n, 0);
    WindowAtPieces(s, width, 0);
    assert BoundaryOffset(width, 0) == 0;
    AddDaysZero(s);
    ParseFormatDate(s);
  }

  /** Window i of a successful result is WindowAt i. */
  lemma WindowsElement(s: Date, e: Date, n: nat, i: int)
    requires InRange(s) && InRange(e) && n > 0 && Windows(s, e, n).Ok? && 0 <= i < n
    ensures var width := WindowWidth(Ordinal(e) - Ordinal(s), n);
      WindowAt(s, width, i).Some? && Windows(s, e, n).value[i] == WindowAt(s, width, i).value
  {
  }

  /** Window i's end is window i + 1's start, for windows of any width. */
  lemma WindowAtMeet(s: Date, width: int, i: int, x: string, y: string)
    requires InRange(s) && WindowAt(s, width, i).Some? && WindowAt(s, width, i + 1).Some?
    requires x == WindowAt(s, width, i).value && y == WindowAt(s, width, i + 1).value
    ensures |Split(x, '/')| == 2 && |Split(y, '/')| == 2 && Split(x, '/')[1] == Split(y, '/')[0]
  {
    WindowAtPieces(s, width, i);
    WindowAtPieces(s, width, i + 1);
  }

  /** Consecutive windows meet: window i ends where window i + 1 starts. */
  lemma WindowsMeet(s: Date, e: Date, n: nat, i: int)
    requires InRange(s) && InRange(e) && n > 0 && Windows(s, e, n).Ok? && 0 <= i < n - 1
    ensures var p, q := Split(Windows(s, e, n).value[i], '/'), Split(Windows(s, e, n).value[i + 1], '/');
      |p| == 2 && |q| == 2 && p[1] == q[0]
  {
    var width := WindowWidth(Ordinal(e) - Ordinal(s), n);
    var w := Windows(s, e, n).value;
    WindowsElement(s, e, n, i);
    WindowsElement(s, e, n, i + 1);
    WindowAtMeet(s, width, i, w[i], w[i + 1]);
  }

  /** For s <= e (when, by OrderedWindowsSucceed, the windows exist),
      window i is the text of two boundaries between s and e, the first no
      later than the second. */
  lemma WindowInPeriod(s: Date, e: Date, n: nat, i: int)
    requires InRange(s) && InRange(e) && n > 0 && 0 <= i < n
    requires Ordinal(s) <= Ordinal(e) && Windows(s, e, n).Ok?
    ensures var width := WindowWidth(Ordinal(e) - Ordinal(s), n);
      var a, b := Boundary(s, width, i), Boundary(s, width, i + 1);
      && a.Some? && b.Some?
      && Split(Windows(s, e, n).value[i], '/') == [FormatDate(a.value), FormatDate(b.value)]
      && Ordinal(s) <= Ordinal(a.value) <= Ordinal(b.value) <= Ordinal(e)
  {
    var width := WindowWidth(Ordinal(e) - Ordinal(s), n);
    WindowBoundsOrdered(s, e, n, i);
    WindowsElement(s, e, n, i);
    WindowAtPieces(s, width, i);
  }

  /** For s <= e, the two boundaries of window i lie in order between s and e. */
  lemma WindowBoundsOrdered(s: Date, e: Date, n: nat, i: int)
    requires InRange(s) && InRange(e) && n > 0 && 0 <= i < n
    requires Ordinal(s) <= Ordinal(e)
    ensures var width := WindowWidth(Ordinal(e) - Ordinal(s), n);
      var a, b := Boundary(s, width, i), Boundary(s, width, i + 1);
      && a.Some? && b.Some?
      && Ordinal(s) <= Ordinal(a.value) <= Ordinal(b.value) <= Ordinal(e)
  {
    BoundaryInPeriod(s, e, n, i);
    BoundaryInPeriod(s, e, n, i + 1);
    BoundaryMonotone(Ordinal(e) - Ordinal(s), n, i, i + 1);
  }

  /** Read back with strptime, both ends of window i are dates between s
      and e, the window's start no later than its end. */
  lemma WindowReadsBack(s: Date, e: Date, n: nat, i: int)
    requires InRange(s) && InRange(e) && n > 0 && 0 <= i < n
    requires Ordinal(s) <= Ordinal(e) && Windows(s, e, n).Ok?
    ensures var pieces := Split(Windows(s, e, n).value[i], '/');
      && |pieces| == 2
      && var a, b := ParseDate(pieces[0]), ParseDate(pieces[1]);
      && a.Some? && b.Some?
      && Ordinal(s) <= Ordinal(a.value) <= Ordinal(b.value) <= Ordinal(e)
  {
    var width := WindowWidth(Ordinal(e) - Ordinal(s), n);
    WindowInPeriod(s, e, n, i);
    ParseFormatDate(Boundary(s, width, i).value);
    ParseFormatDate(Boundary(s, width, i + 1).value);
  }

  /** With start no later than end and a non-zero count, date_range succeeds. */
  lemma OrderedRangeSucceeds(start: string, end: string, intv: string)
    requires ParseDate(start).Some? && ParseDate(end).Some?
    requires ParseInt(intv).Some? && ParseInt(intv).value != 0
    requires Ordinal(ParseDate(start).value) <= Ordinal(ParseDate(end).value)
    ensures DateRangeSpec(start, end, intv).Ok?
  {
    if ParseInt(intv).value > 0 {
      OrderedWindowsSucceed(ParseDate(start).value, ParseDate(end).value, ParseInt(intv).value);
    }
  }

  /** A count written in decimal digits, as in the configuration, yields that
      many windows when start <= end (the default interval 1 is the text "1"). */
  lemma CountTextWindows(start: string, end: string, n: nat)
    requires ParseDate(start).Some? && ParseDate(end).Some? && n > 0
    requires Ordinal(ParseDate(start).value) <= Ordinal(ParseDate(end).value)
    ensures DateRangeSpec(start, end, NatText(n)).Ok?
    ensures |DateRangeSpec(start, end, NatText(n)).value| == n
  {
    ParseNatText(n);
    OrderedRangeSucceeds(start, end, NatText(n));
  }

  lemma AddDaysZero(d: Date)
    requires InRange(d)
    ensures Shift(d, 0) == Some(d)
  {
    InRangeIffOrdinal(d);
  }
}
