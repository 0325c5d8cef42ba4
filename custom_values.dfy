/** Per-row custom values of a mosaic dataset (customCV in
    scripts/MDCS_UC.py). Every row gets the pixel-size range 0..300; the
    path/row code, the month, the day of the year and the name are derived
    from other fields when those are present. The function has no exception
    handler: a value that does not convert stops the pass, leaving the rows
    already written updated and the current row and the rest untouched. */
module CustomValues {
  import opened Common
  import opened Calendar

  /** The fields customCV reads or writes. */
  datatype CvRow = CvRow(
    minPS: Option<int>,
    maxPS: Option<int>,
    wrsPath: Option<int>,
    wrsRow: Option<int>,
    pr: Option<int>,
    acquisitionDate: Option<DateTime>,
    month: Option<int>,
    groupName: Option<string>,
    dayOfYear: Option<int>,
    name: Option<string>,
    tag: Option<string>)

  predicate ValidRow(r: CvRow)
  {
    r.acquisitionDate.Some? ==> ValidDateTime(r.acquisitionDate.value)
  }

  const MinPixelSize: int := 0
  const MaxPixelSize: int := 300

  /** Group names shorter than this carry no day of the year. */
  const GroupNameMinLength: nat := 16

  /** WRS_Path * 1000 + WRS_Row. */
  function PathRow(path: int, row: int): int
  {
    path * 1000 + row
  }

  /** int(str(date).replace('-', '/').split()[0].split('/')[1]): the month. */
  function MonthOf(t: DateTime): Option<int>
    requires ValidDateTime(t)
  {
    match DatePieces(StrDateTime(t))
    case None => None
    case Some(p) => if |p| < 2 then None else ParseInt(p[1])
  }

  /** int(grp_name[13:16]). */
  function DayOfYearOf(grp: string): Option<int>
  {
    ParseInt(Slice(grp, 13, GroupNameMinLength))
  }

  /** grp_name.split('_')[0] + '_' + Tag. */
  function NameOf(grp: string, tag: string): string
  {
    Split(grp, '_')[0] + "_" + tag
  }

  /** The row after one pass of the loop body, or None where it raises. */
  function UpdatedRow(r: CvRow): Option<CvRow>
    requires ValidRow(r)
  {
    var withRange := r.(minPS := Some(MinPixelSize), maxPS := Some(MaxPixelSize));
    var withPr := if r.wrsPath.Some? && r.wrsRow.Some?
      then withRange.(pr := Some(PathRow(r.wrsPath.value, r.wrsRow.value))) else withRange;
    if r.acquisitionDate.Some? && MonthOf(r.acquisitionDate.value).None? then None
    else
      var withMonth := if r.acquisitionDate.Some?
        then withPr.(month := MonthOf(r.acquisitionDate.value)) else withPr;
      if r.groupName.None? || |r.groupName.value| < GroupNameMinLength then Some(withMonth)
      else if DayOfYearOf(r.groupName.value).None? || r.tag.None? then None
      else Some(withMonth.(dayOfYear := DayOfYearOf(r.groupName.value),
                           name := Some(NameOf(r.groupName.value, r.tag.value))))
  }

  /** The loop body of customCV for one row: it raises only on a long group
      name whose characters 13..15 are not a number or whose tag is null;
      otherwise it sets the pixel-size range, PR when path and row are both
      present, the acquisition month, and DayOfYear and Name for a long
      group name, and changes nothing else. */
  method UpdateRow(row: CvRow) returns (r: Option<CvRow>)
    requires ValidRow(row)
    ensures r.None? <==>
      (row.groupName.Some? && |row.groupName.value| >= 16
       && (DayOfYearOf(row.groupName.value).None? || row.tag.None?))
    ensures r.Some? ==>
      var u := r.value;
      && u.minPS == Some(0) && u.maxPS == Some(300)
      && u.pr == (if row.wrsPath.Some? && row.wrsRow.Some? then Some(row.wrsPath.value * 1000 + row.wrsRow.value) else row.pr)
      && u.month == (if row.acquisitionDate.Some? then Some(row.acquisitionDate.value.date.month) else row.month)
      && (row.groupName.Some? && |row.groupName.value| >= 16 ==>
            u.dayOfYear == DayOfYearOf(row.groupName.value) && u.name == Some(NameOf(row.groupName.value, row.tag.value)))
      && (row.groupName.None? || |row.groupName.value| < 16 ==> u.dayOfYear == row.dayOfYear && u.name == row.name)
      && u.wrsPath == row.wrsPath && u.wrsRow == row.wrsRow && u.acquisitionDate == row.acquisitionDate
      && u.groupName == row.groupName && u.tag == row.tag
    ensures r == UpdatedRow(row)
  {
    if row.acquisitionDate.Some? {
      MonthOfDate(row.acquisitionDate.value);
    }
    var updated := row;
    updated := updated.(minPS := Some(MinPixelSize));
    updated := updated.(maxPS := Some(MaxPixelSize));
    if row.wrsPath.Some? && row.wrsRow.Some? {
      var pr := row.wrsPath.value * 1000 + row.wrsRow.value;
      updated := updated.(pr := Some(pr));
    }
    if row.acquisitionDate.Some? {
      var day := MonthOf(row.acquisitionDate.value);
      if day.None? {
        return None;
      }
      updated := updated.(month := day);
    }
    if row.groupName.Some? {
      var grpName := row.groupName.value;
      if |grpName| >= GroupNameMinLength {
        var dayOfYear := DayOfYearOf(grpName);
        if dayOfYear.None? {
          return None;
        }
        updated := updated.(dayOfYear := dayOfYear);
        if row.tag.None? {
          return None;
        }
        updated := updated.(name := Some(NameOf(grpName, row.tag.value)));
      }
    }
    r := Some(updated);
  }

  /** Index of the row the pass stops at, or the row count. */
  function FirstFailure(rows: seq<CvRow>): (k: nat)
    requires forall i :: 0 <= i < |rows| ==> ValidRow(rows[i])
    ensures k <= |rows|
    ensures forall j :: 0 <= j < k ==> UpdatedRow(rows[j]).Some?
    ensures k < |rows| ==> UpdatedRow(rows[k]).None?
  {
    if rows == [] || UpdatedRow(rows[0]).None? then 0
    else 1 + FirstFailure(rows[1..])
  }

  /** customCV over the rows in cursor order. */
  method CustomValues(rows: array<CvRow>) returns (completed: bool)
    requires forall i :: 0 <= i < rows.Length ==> ValidRow(rows[i])
    modifies rows
    ensures completed <==> FirstFailure(old(rows[..])) == rows.Length
    ensures forall i :: 0 <= i < rows.Length ==>
              rows[i] == if i < FirstFailure(old(rows[..])) then UpdatedRow(old(rows[i])).value else old(rows[i])
  {
    ghost var before := rows[..];
    var i := 0;
    while i < rows.Length
      invariant 0 <= i <= rows.Length
      invariant forall j :: 0 <= j < i ==> UpdatedRow(before[j]).Some? && rows[j] == UpdatedRow(before[j]).value
      invariant forall j :: i <= j < rows.Length ==> rows[j] == before[j]
    {
      var row := UpdateRow(rows[i]);
      if row.None? {
        FirstFailureAt(before, i);
        return false;
      }
      rows[i] := row.value;
      i := i + 1;
    }
    FirstFailureAll(before);
    return true;
  }

  lemma {:induction false} FirstFailureAt(rows: seq<CvRow>, k: nat)
    requires forall i :: 0 <= i < |rows| ==> ValidRow(rows[i])
    requires k < |rows| && UpdatedRow(rows[k]).None?
    requires forall j :: 0 <= j < k ==> UpdatedRow(rows[j]).Some?
    ensures FirstFailure(rows) == k
  {
    if k > 0 {
      FirstFailureAt(rows[1..], k - 1);
    }
  }

  lemma {:induction false} FirstFailureAll(rows: seq<CvRow>)
    requires forall i :: 0 <= i < |rows| ==> ValidRow(rows[i])
    requires forall j :: 0 <= j < |rows| ==> UpdatedRow(rows[j]).Some?
    ensures FirstFailure(rows) == |rows|
  {
    if rows != [] {
      FirstFailureAll(rows[1..]);
    }
  }

  // ---------------------------------------------------------------------------
  // What the derived values mean

  /** PR packs path and row: for a row number below 1000 both come back out. */
  lemma PathRowDecodes(path: int, row: int)
    requires 0 <= row < 1000
    ensures PathRow(path, row) / 1000 == path && PathRow(path, row) % 1000 == row
  {
  }

  /** Month is the month of the acquisition date; a date never stops the pass. */
  lemma MonthOfDate(t: DateTime)
    requires ValidDateTime(t)
    ensures MonthOf(t) == Some(t.date.month)
  {
    DatePiecesOfStr(t);
    ParseDecimal(t.date.month, 2);
  }

  /** DayOfYear is the three digits at positions 13..15 of the group name,
      as in a scene identifier carrying year and day of the year there. */
  lemma DayOfYearDigits(prefix: string, digits: string, rest: string)
    requires |prefix| == 13 && |digits| == 3 && AllDigits(digits)
    ensures DayOfYearOf(prefix + digits + rest) == Some(DigitsValue(digits))
  {
    assert Slice(prefix + digits + rest, 13, 16) == digits;
    ParseIntDigits(digits);
  }

  /** Name is the group name up to its first '_', then '_' and the tag. */
  lemma NameOfPrefix(head: string, rest: string, tag: string)
    requires '_' !in head
    ensures NameOf(head + "_" + rest, tag) == head + "_" + tag
  {
    SplitHead(head, '_', rest);
  }

  /** A row the pass completes has the pixel-size range set, PR set exactly
      when both path and row are present, the acquisition month, and the
      group-name fields exactly when the name is long enough; the pass stops
      on a row only when its group name is long enough and either the three
      characters at 13..15 are not a number or the tag is null. */
  lemma UpdatedRowFields(r: CvRow)
    requires ValidRow(r)
    ensures UpdatedRow(r).None? <==>
      (r.groupName.Some? && |r.groupName.value| >= 16
       && (DayOfYearOf(r.groupName.value).None? || r.tag.None?))
    ensures UpdatedRow(r).Some? ==>
      var u := UpdatedRow(r).value;
      && u.minPS == Some(0) && u.maxPS == Some(300)
      && u.pr == (if r.wrsPath.Some? && r.wrsRow.Some? then Some(r.wrsPath.value * 1000 + r.wrsRow.value) else r.pr)
      && u.month == (if r.acquisitionDate.Some? then Some(r.acquisitionDate.value.date.month) else r.month)
      && (r.groupName.Some? && |r.groupName.value| >= 16 ==>
            u.dayOfYear == DayOfYearOf(r.groupName.value) && u.name == Some(NameOf(r.groupName.value, r.tag.value)))
      && (r.groupName.None? || |r.groupName.value| < 16 ==> u.dayOfYear == r.dayOfYear && u.name == r.name)
      && u.wrsPath == r.wrsPath && u.wrsRow == r.wrsRow && u.acquisitionDate == r.acquisitionDate
      && u.groupName == r.groupName && u.tag == r.tag
  {
    if r.acquisitionDate.Some? {
      MonthOfDate(r.acquisitionDate.value);
    }
  }
}
