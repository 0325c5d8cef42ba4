/** Marking duplicate tiles (markduplicate in scripts/MDCS_UC.py). The rows
    of the mosaic dataset are visited ordered by Name; a row whose name, as
    text, equals the last name seen gets Dataset_ID 'dup', any other row
    becomes the last name seen. The last name seen starts as 'gp'. */
module Duplicates {
  import opened Common

  /** The two columns the update cursor reads: Name and Dataset_ID. */
  datatype DupRow = DupRow(name: Option<string>, datasetId: Option<string>)

  /** The initial last-seen name. */
  const Sentinel: string := "gp"

  const DupMark: string := "dup"

  /** str(row[0]): a null name reads as "None". */
  function NameText(name: Option<string>): string
  {
    if name.None? then "None" else name.value
  }

  /** The name row i is compared with: the previous row's, or the sentinel. */
  function PreviousText(rows: seq<DupRow>, i: int): string
    requires 0 <= i < |rows|
  {
    if i == 0 then Sentinel else NameText(rows[i - 1].name)
  }

  /** Row i is marked by the sweep. */
  predicate IsRepeat(rows: seq<DupRow>, i: int)
    requires 0 <= i < |rows|
  {
    NameText(rows[i].name) == PreviousText(rows, i)
  }

  /** The rows after the sweep. */
  function Marked(rows: seq<DupRow>): seq<DupRow>
  {
    seq(|rows|, i requires 0 <= i < |rows| =>
      if IsRepeat(rows, i) then rows[i].(datasetId := Some(DupMark)) else rows[i])
  }

  /** markduplicate: one pass of the update cursor, carrying the last name
      seen (value1). */
  method MarkDuplicates(rows: array<DupRow>)
    modifies rows
    ensures rows[..] == Marked(old(rows[..]))
  {
    ghost var original := rows[..];
    var value1 := Sentinel;
    for i := 0 to rows.Length
      invariant forall j :: i <= j < rows.Length ==> rows[j] == original[j]
      invariant forall j :: 0 <= j < i ==> rows[j] == Marked(original)[j]
      invariant value1 == (if i == 0 then Sentinel else NameText(original[i - 1].name))
    {
      MarkedRows(original, i);
      var value := NameText(rows[i].name);
      if value == value1 {
        rows[i] := rows[i].(datasetId := Some(DupMark));
      } else {
        value1 := value;
      }
    }
  }

  // ---------------------------------------------------------------------------
  // What the sweep guarantees

  /** Names never change; a row is marked 'dup' exactly when its name text
      equals the previous row's (or 'gp' for the first row); every other
      row is left as it was. */
  lemma MarkedRows(rows: seq<DupRow>, i: int)
    requires 0 <= i < |rows|
    ensures |Marked(rows)| == |rows|
    ensures Marked(rows)[i].name == rows[i].name
    ensures IsRepeat(rows, i) ==> Marked(rows)[i].datasetId == Some(DupMark)
    ensures !IsRepeat(rows, i) ==> Marked(rows)[i] == rows[i]
    ensures IsRepeat(rows, i) <==>
      (i == 0 && NameText(rows[0].name) == "gp") || (i > 0 && NameText(rows[i].name) == NameText(rows[i - 1].name))
  {
  }

  /** Rows with the same name text sit next to each other, as ordering by
      Name makes them. */
  predicate Grouped(rows: seq<DupRow>)
  {
    forall i, j, k :: 0 <= i < j < k < |rows| && NameText(rows[i].name) == NameText(rows[k].name) ==>
      NameText(rows[j].name) == NameText(rows[i].name)
  }

  lemma GroupedAt(rows: seq<DupRow>, i: int, j: int, k: int)
    requires Grouped(rows) && 0 <= i < j < k < |rows|
    ensures NameText(rows[i].name) == NameText(rows[k].name) ==> NameText(rows[j].name) == NameText(rows[i].name)
  {
  }

  /** On grouped rows no two unmarked rows share a name. */
  lemma UnmarkedDistinct(rows: seq<DupRow>, i: int, j: int)
    requires Grouped(rows) && 0 <= i < j < |rows|
    requires !IsRepeat(rows, i) && !IsRepeat(rows, j)
    ensures NameText(rows[i].name) != NameText(rows[j].name)
  {
    if i < j - 1 {
      GroupedAt(rows, i, j - 1, j);
    }
  }

  /** The first row of each run of equal names stays unmarked, except a
      leading run named "gp": every row whose name is not "gp" has an
      unmarked row with its name at or before it. */
  lemma {:induction false} RunHasRepresentative(rows: seq<DupRow>, i: int)
    requires 0 <= i < |rows| && NameText(rows[i].name) != Sentinel
    ensures exists r :: 0 <= r <= i && !IsRepeat(rows, r) && NameText(rows[r].name) == NameText(rows[i].name)
    decreases i
  {
    if !IsRepeat(rows, i) {
      assert !IsRepeat(rows, i) && NameText(rows[i].name) == NameText(rows[i].name);
    } else {
      assert i > 0;
      RunHasRepresentative(rows, i - 1);
    }
  }

  /** Without the ordering the sweep misses duplicates: of A, B, A no row
      is marked. */
  lemma UnorderedMissesDuplicate()
    ensures var rows := [DupRow(Some("A"), None), DupRow(Some("B"), None), DupRow(Some("A"), None)];
      && !IsRepeat(rows, 0) && !IsRepeat(rows, 1) && !IsRepeat(rows, 2)
      && Marked(rows) == rows
  {
  }

  /** A first row named "gp" is compared with the sentinel and marked, though
      no other row has its name. */
  lemma SentinelMarksFirstRow()
    ensures var rows := [DupRow(Some("gp"), None)];
      IsRepeat(rows, 0) && Marked(rows)[0].datasetId == Some(DupMark)
  {
  }

  // ---------------------------------------------------------------------------
  // The sweep without a sentinel

  /** Row i repeats the previous row's name; the first row never does. */
  predicate FollowsSame(rows: seq<DupRow>, i: int)
    requires 0 <= i < |rows|
  {
    i > 0 && NameText(rows[i].name) == NameText(rows[i - 1].name)
  }

  /** The sweep starting with no last-seen name. */
  function MarkedFromStart(rows: seq<DupRow>): seq<DupRow>
  {
    seq(|rows|, i requires 0 <= i < |rows| =>
      if FollowsSame(rows, i) then rows[i].(datasetId := Some(DupMark)) else rows[i])
  }

  /** Without the sentinel, on grouped rows exactly the first row of each
      name stays unmarked: every row has an unmarked row of its name at or
      before it, and no two unmarked rows share a name. */
  lemma {:induction false} FromStartKeepsOnePerName(rows: seq<DupRow>, i: int, j: int)
    requires Grouped(rows) && 0 <= i < |rows| && 0 <= j < |rows|
    ensures exists r :: (0 <= r <= i && MarkedFromStart(rows)[r] == rows[r]
                         && !FollowsSame(rows, r) && NameText(rows[r].name) == NameText(rows[i].name))
    ensures i < j && !FollowsSame(rows, i) && !FollowsSame(rows, j) ==>
      NameText(rows[i].name) != NameText(rows[j].name)
    decreases i
  {
    if FollowsSame(rows, i) {
      FromStartKeepsOnePerName(rows, i - 1, j);
    } else {
      assert MarkedFromStart(rows)[i] == rows[i];
    }
    if i < j - 1 {
      GroupedAt(rows, i, j - 1, j);
    }
  }
}
