/** The Q / Best ranking pass over the master tiles (findBestTiles in
    scripts/MDCS_UC.py). Each row's score combines how long after 1899-12-31
    the scene was acquired, its cloud cover and its footprint area; the pass
    overwrites Q and Best in place and stops at the first row whose date
    cannot be read. Arithmetic is over real numbers. */
module Scoring {
  import opened Common
  import opened Calendar

  /** One row of the update cursor over
      [AcquisitionDate, CloudCover, Q, Shape_Area, Best]. */
  datatype ScoreRow = ScoreRow(
    acquisitionDate: Option<DateTime>,
    cloudCover: Option<real>,
    q: real,
    shapeArea: real,
    best: real)

  /** The day the day count starts from. */
  const BaseDate: Date := Date(1899, 12, 31)

  /** Its ordinal. */
  const BaseOrdinal: int := 693595

  lemma BaseDateOrdinal()
    ensures Ordinal(BaseDate) == BaseOrdinal
  {
  }

  /** A date the storage layer can hand back is a real calendar moment. */
  predicate ValidRow(r: ScoreRow)
  {
    r.acquisitionDate.Some? ==> ValidDateTime(r.acquisitionDate.value)
  }

  /** str() of the AcquisitionDate value; a null date prints as "None". */
  function DateText(v: Option<DateTime>): string
    requires v.Some? ==> ValidDateTime(v.value)
  {
    match v
    case None => "None"
    case Some(t) => StrDateTime(t)
  }

  /** datetime(y, m, d) - datetime(1899, 12, 31): both ends are midnights,
      so the difference is a whole number of days. */
  lemma DateDiffWhole(d: Date)
    requires InRange(d)
    ensures Subtract(Midnight(d), Midnight(BaseDate)) == TimeDelta(Ordinal(d) - BaseOrdinal, 0)
  {
    MidnightDifference(d, BaseDate);
    BaseDateOrdinal();
  }

  /** aqdateFloat: float(datediff.days) + float(datediff.seconds) / 86400. */
  function AqDate(diff: TimeDelta): real
  {
    diff.days as real + diff.seconds as real / 86400.0
  }

  lemma AqDateWhole(diff: TimeDelta)
    requires diff.seconds == 0
    ensures AqDate(diff) == diff.days as real
  {
  }

  /** Year, month and day read back from the text of a stored date with
      split, int() and datetime(): the date itself, or nothing for a null
      date. */
  method ReadDate(v: Option<DateTime>) returns (ymd: Option<Date>)
    requires v.Some? ==> ValidDateTime(v.value)
    ensures ymd == if v.None? then None else Some(v.value.date)
  {
    ymd := ParseYmd(DateText(v));
    DateTextReadsBack(v);
  }

  /** The day count of one row: the days from 1899-12-31 to the date read
      back from the row, with no fractional part. */
  method DaysSinceBase(d: Date) returns (aqdateFloat: real)
    requires InRange(d)
    ensures aqdateFloat == (Ordinal(d) - BaseOrdinal) as real
  {
    var aDt := Midnight(d);
    var basedate := Midnight(BaseDate);
    var datediff := Subtract(aDt, basedate);
    DateDiffWhole(d);
    AqDateWhole(datediff);
    aqdateFloat := AqDate(datediff);
  }

  /** Cloud cover in percent, a missing value counting as 0, pushes a scene
      by up to 180 days. */
  function CloudPenalty(cc: Option<real>): real
  {
    var c := if cc.None? then 0.0 else cc.value;
    c / 100.0 * 180.0
  }

  /** Footprint area in km² relative to a full tile of 12115 km². */
  function AreaRatio(shapeArea: real): real
  {
    shapeArea / 1000000.0 / 12115.0
  }

  /** area_equ_date: 0 for a full tile or larger, a linear 0..-48 for ratios in
      (0.2, 1], a linear -480..-600 for ratios up to 0.2. */
  function AreaBonus(ratio: real): real
  {
    if ratio <= 1.0 && ratio > 0.2 then -(60.0 - ratio * 60.0)
    else if ratio <= 0.2 then -(600.0 - ratio * 600.0)
    else 0.0
  }

  /** The score a row receives, stated on the date's day number; None where
      the pass gives up (a null AcquisitionDate). */
  function Score(r: ScoreRow): Option<real>
    requires ValidRow(r)
  {
    match r.acquisitionDate
    case None => None
    case Some(t) =>
      var days := (Ordinal(t.date) - BaseOrdinal) as real;
      Some((100000.0 - days + CloudPenalty(r.cloudCover)) - AreaBonus(AreaRatio(r.shapeArea)))
  }

  /** A row after the pass: Q and Best both hold the score. */
  function Rescored(r: ScoreRow): ScoreRow
    requires ValidRow(r) && Score(r).Some?
  {
    r.(q := Score(r).value, best := Score(r).value)
  }

  /** Index of the first row the pass gives up on, or the row count. */
  function FirstUnscorable(rows: seq<ScoreRow>): (k: nat)
    requires forall i :: 0 <= i < |rows| ==> ValidRow(rows[i])
    ensures k <= |rows|
    ensures forall j :: 0 <= j < k ==> Score(rows[j]).Some?
    ensures k < |rows| ==> Score(rows[k]).None?
  {
    if rows == [] || Score(rows[0]).None? then 0
    else 1 + FirstUnscorable(rows[1..])
  }

  /** The body of findBestTiles' loop for one row: read year, month and day
      back from the date's text, default the cloud cover, count days from
      1899-12-31 and apply the area rule. None where the text has no date. */
  method ComputeQ(row: ScoreRow) returns (q: Option<real>)
    requires ValidRow(row)
    ensures q == Score(row)
  {
    var ymd := ReadDate(row.acquisitionDate);
    if ymd.None? {
      return None;
    }
    var cc := if row.cloudCover.None? then 0.0 else row.cloudCover.value;
    var cloudCover := cc / 100.0 * 180.0;
    var aqdateFloat := DaysSinceBase(ymd.value);
    var areaRatio := row.shapeArea / 1000000.0 / 12115.0;
    var areaDays := AreaBonus(areaRatio);
    assert cloudCover == CloudPenalty(row.cloudCover);
    assert areaRatio == AreaRatio(row.shapeArea);
    q := Some((100000.0 - aqdateFloat + cloudCover) - areaDays);
  }

  /** findBestTiles over the rows in cursor order. Q and Best of every row up
      to the first unreadable date get the score; that row and the rest are
      untouched (the exception ends the pass) and the result is false. */
  method FindBestTiles(rows: array<ScoreRow>) returns (ok: bool)
    requires forall i :: 0 <= i < rows.Length ==> ValidRow(rows[i])
    modifies rows
    ensures forall i :: 0 <= i < rows.Length ==> ValidRow(rows[i])
    ensures ok <==> FirstUnscorable(old(rows[..])) == rows.Length
    ensures forall i :: 0 <= i < rows.Length ==>
              rows[i] == if i < FirstUnscorable(old(rows[..])) then Rescored(old(rows[i])) else old(rows[i])
  {
    ghost var before := rows[..];
    var i := 0;
    while i < rows.Length
      invariant 0 <= i <= rows.Length
      invariant forall j :: 0 <= j < rows.Length ==> ValidRow(rows[j])
      invariant forall j :: 0 <= j < i ==> Score(before[j]).Some? && rows[j] == Rescored(before[j])
      invariant forall j :: i <= j < rows.Length ==> rows[j] == before[j]
    {
      var row := rows[i];
      var q := ComputeQ(row);
      if q.None? {
        FirstUnscorableAt(before, i);
        return false;
      }
      rows[i] := row.(q := q.value, best := q.value);
      i := i + 1;
    }
    FirstUnscorableAll(before);
    return true;
  }

  /** The text of a stored date reads back as that date, whatever its time
      of day; the text of a null date ("None") reads back as nothing. */
  lemma DateTextReadsBack(v: Option<DateTime>)
    requires v.Some? ==> ValidDateTime(v.value)
    ensures ParseYmd(DateText(v)) == if v.None? then None else Some(v.value.date)
  {
    if v.None? {
      assert DateText(v) == "None";
      ParseYmdOfNone();
    } else {
      assert DateText(v) == StrDateTime(v.value);
      ParseYmdOfStr(v.value);
    }
  }

  /** If every row before k scores and row k does not, k is the first unscorable row. */
  lemma {:induction false} FirstUnscorableAt(rows: seq<ScoreRow>, k: nat)
    requires forall i :: 0 <= i < |rows| ==> ValidRow(rows[i])
    requires k < |rows| && Score(rows[k]).None?
    requires forall j :: 0 <= j < k ==> Score(rows[j]).Some?
    ensures FirstUnscorable(rows) == k
  {
    if k > 0 {
      FirstUnscorableAt(rows[1..], k - 1);
    }
  }

  lemma {:induction false} FirstUnscorableAll(rows: seq<ScoreRow>)
    requires forall i :: 0 <= i < |rows| ==> ValidRow(rows[i])
    requires forall j :: 0 <= j < |rows| ==> Score(rows[j]).Some?
    ensures FirstUnscorable(rows) == |rows|
  {
    if rows != [] {
      FirstUnscorableAll(rows[1..]);
    }
  }

  // ---------------------------------------------------------------------------
  // What the score means

  /** The time of day never reaches the score: two datetimes on the same day
      read back to the same date, and the day count is whole. */
  lemma TimeOfDayIgnored(t1: DateTime, t2: DateTime)
    requires ValidDateTime(t1) && ValidDateTime(t2) && t1.date == t2.date
    ensures ParseYmd(StrDateTime(t1)) == ParseYmd(StrDateTime(t2)) == Some(t1.date)
  {
    ParseYmdOfStr(t1);
    ParseYmdOfStr(t2);
  }

  /** The same scene acquired at another time of the same day gets the same Q. */
  lemma SameDaySameScore(r: ScoreRow, t: DateTime)
    requires ValidRow(r) && r.acquisitionDate.Some? && ValidDateTime(t)
    requires t.date == r.acquisitionDate.value.date
    ensures Score(r.(acquisitionDate := Some(t))) == Score(r)
  {
  }

  /** A missing cloud cover scores like a cloud cover of 0. */
  lemma MissingCloudIsClear(r: ScoreRow)
    requires ValidRow(r)
    ensures Score(r.(cloudCover := None)) == Score(r.(cloudCover := Some(0.0)))
  {
  }

  /** The area rule at its boundaries: a ratio of exactly 0.2 takes the
      600-day branch (-480), exactly 1.0 gives 0, and the rule jumps by 432
      days just above 0.2. */
  lemma AreaBonusBoundaries()
    ensures AreaBonus(0.2) == -480.0
    ensures AreaBonus(1.0) == 0.0
    ensures forall r: real :: 0.2 < r <= 1.0 ==> -48.0 < AreaBonus(r) <= 0.0
  {
  }

  /** The area term never adds days: it lies in [-600, 0] for every
      non-negative ratio and is 0 for a full tile or larger. */
  lemma AreaBonusRange(ratio: real)
    requires ratio >= 0.0
    ensures -600.0 <= AreaBonus(ratio) <= 0.0
    ensures ratio >= 1.0 ==> AreaBonus(ratio) == 0.0
  {
  }

  /** Calendar order: year, then month, then day. */
  predicate Earlier(a: Date, b: Date)
  {
    a.year < b.year || (a.year == b.year && (a.month < b.month || (a.month == b.month && a.day < b.day)))
  }

  lemma EarlierOrdinal(a: Date, b: Date)
    requires ValidDate(a) && ValidDate(b) && Earlier(a, b)
    ensures Ordinal(a) < Ordinal(b)
  {
    if a.year < b.year { YearOrder(a, b); }
    else if a.month < b.month { MonthOrder(a, b); }
  }

  /** As written, an older scene scores higher than a newer one with the
      same cloud cover and footprint. */
  lemma OlderScoresHigher(r1: ScoreRow, r2: ScoreRow)
    requires ValidRow(r1) && ValidRow(r2)
    requires r1.acquisitionDate.Some? && r2.acquisitionDate.Some?
    requires Earlier(r1.acquisitionDate.value.date, r2.acquisitionDate.value.date)
    requires r1.cloudCover == r2.cloudCover && r1.shapeArea == r2.shapeArea
    ensures Score(r1).value > Score(r2).value
  {
    EarlierOrdinal(r1.acquisitionDate.value.date, r2.acquisitionDate.value.date);
  }

  /** As written, a cloudier scene scores higher than a clearer one from the
      same day with the same footprint. */
  lemma CloudierScoresHigher(r: ScoreRow, c1: real, c2: real)
    requires ValidRow(r) && r.acquisitionDate.Some? && c1 < c2
    ensures Score(r.(cloudCover := Some(c1))).value < Score(r.(cloudCover := Some(c2))).value
  {
  }

  /** As written, a small tile (at most a fifth of a full one) scores higher
      than a full tile from the same day with the same cloud cover. */
  lemma SmallTileScoresHigher(r: ScoreRow, small: real, full: real)
    requires ValidRow(r) && r.acquisitionDate.Some?
    requires 0.0 <= AreaRatio(small) <= 0.2 && AreaRatio(full) >= 1.0
    ensures Score(r.(shapeArea := small)).value > Score(r.(shapeArea := full)).value
  {
  }
}
