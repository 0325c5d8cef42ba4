# Sentinel-2 mosaic rules of MDCS_UC, modelled in Dafny

`scripts/MDCS_UC.py` builds an ArcGIS mosaic dataset of Sentinel-2 tiles. A
STAC search finds the tiles. Each item becomes a row of a master feature
class. Every master row is then expanded into one row per band, each
carrying a cached-MRF descriptor. Most of the script calls `arcpy` and the
network. Between those calls sit a few self-contained rules, and this
project models them and proves what they guarantee:

- **Scoring** (`findBestTiles`). Each row gets a Q (and an equal Best)
  from three things: the days since 1899-12-31, a cloud penalty, and a
  three-branch area term. The pass works in place and stops at the first
  row whose date cannot be read.
- **DateWindows** (`date_range`). The search period is split into `intv`
  windows written `YYYY-MM-DD/YYYY-MM-DD`. Python's floor division on
  microseconds and `date + timedelta` are modelled exactly.
- **Normalise** (`readJson`, `readStac`). A STAC item becomes the 13-slot
  master record: the closed footprint, the acquisition text, NumDate, the
  product URL, the two bounding-box texts and the placeholder scores.
  Every missing key or too-short list gives no record.
- **BandExpansion** (`embedMRF` and the band loop of `sentinelModifySrc`).
  Each master row is projected onto ten columns and repeated for fifteen
  bands. Each copy carries the band's MRF descriptor and its tag.
- **Duplicates** (`markduplicate`). One sweep over rows ordered by Name
  marks a row `dup` when its name equals the last name seen.
- **CustomValues** (`customCV`). The per-row derived fields: PR, Month,
  DayOfYear, Name and the pixel-size range.
- **Common**, **Calendar** and **Arith** are support modules:
  - Common holds Python's slicing, `split`, `replace`, `split()[0]` and
    `int()` on text.
  - Calendar holds the proleptic Gregorian calendar with Python's date
    ordinals, `strftime`/`strptime` for `%Y-%m-%d` and `str(datetime)`.
  - Arith holds facts about floor division.

Storage cursors are arrays (update cursors) or sequences (search and insert
cursors) of row datatypes that hold the columns each cursor names.
Exceptions become `Option` or `Result` values. Where an exception ends a
whole pass, the method updates the rows before the failing one, leaves the
rest as they were, and reports false. Two things the source leaves to
libraries are function parameters:

- `numText: real -> string` stands for `str()` of a float;
- `join: (string, string) -> string` stands for `os.path.join`.

Where the source returns nothing, the models return a value anyway:

- On success `findBestTiles` falls off its end and returns `None`. The
  model's `ok` is true in that case and false where the source returns
  `False`.
- `customCV` has no handler, so an exception escapes to its caller. The
  model's `completed` is false exactly when that happens.

## Model

| member | source | states |
|---|---|---|
| Scoring.DaysSinceBase | scripts/MDCS_UC.py:309-312 | `aqdateFloat` is exactly the number of days from 1899-12-31 to the date read back (the difference of their ordinals), with no fractional part |
| Scoring.DateDiffWhole | scripts/MDCS_UC.py:309-311 | `datetime(y, m, d) - datetime(1899, 12, 31)` is a whole number of days, the difference of the two ordinals, and zero seconds |
| Scoring.AqDateWhole | scripts/MDCS_UC.py:312 | when the seconds part is zero, `days + seconds / 86400` is just the days |
| Scoring.FirstUnscorable | scripts/MDCS_UC.py:299-330 | returns the first row whose date cannot be read, or the row count; every row before it has a score |
| Scoring.ComputeQ | scripts/MDCS_UC.py:300-324 | the loop body reads year, month and day back from `str(date)`, defaults the cloud cover and applies the area rule; its result is the row's `Score`, or None where the date text has no date |
| Scoring.FindBestTiles | scripts/MDCS_UC.py:289-330 | rows before the first unreadable date get Q = Best = their score; that row and all later ones are unchanged; the result is true exactly when every row was scored |
| Scoring.ReadDate | scripts/MDCS_UC.py:300-309 | the date read back from a row's stored AcquisitionDate is that datetime's date; for a null date nothing is read |
| Scoring.DateTextReadsBack | scripts/MDCS_UC.py:300-304 | the year, month and day read back from `str()` of a stored datetime are its date, whatever its time of day; from the text "None" of a null date nothing is read |
| Scoring.TimeOfDayIgnored | scripts/MDCS_UC.py:300-304 | two datetimes on the same day read back to the same year, month and day |
| Scoring.SameDaySameScore | scripts/MDCS_UC.py:300-324 | changing only the time of day leaves Q unchanged |
| Scoring.MissingCloudIsClear | scripts/MDCS_UC.py:305-308 | a null cloud cover scores exactly like 0 |
| Scoring.AreaBonusBoundaries | scripts/MDCS_UC.py:317-322 | a ratio of 0.2 takes the 600-day branch (-480); a ratio of 1.0 gives 0; ratios in (0.2, 1] give a value in (-48, 0] |
| Scoring.AreaBonusRange | scripts/MDCS_UC.py:315-322 | for any non-negative ratio the area term lies in [-600, 0], and it is 0 for a ratio of 1 or more |
| Scoring.EarlierOrdinal | scripts/MDCS_UC.py:309-311 | an earlier calendar date has a smaller day count |
| Scoring.OlderScoresHigher | scripts/MDCS_UC.py:309-323 | with equal cloud cover and area, an older scene gets a strictly higher Q |
| Scoring.CloudierScoresHigher | scripts/MDCS_UC.py:305-323 | with the same date and area, more cloud gives a strictly higher Q |
| Scoring.SmallTileScoresHigher | scripts/MDCS_UC.py:315-323 | with the same date and cloud cover, a tile of at most a fifth of a full one gets a higher Q than a full tile |
| Calendar.InRangeIffOrdinal | scripts/MDCS_UC.py:534-535 | a date is in years 1..9999 exactly when its ordinal is in 1..3652059, the range `date + timedelta` accepts |
| Calendar.FormatDateShape | scripts/MDCS_UC.py:534-536 | `strftime("%Y-%m-%d")` gives ten characters: four digits, '-', month, '-', day; the text has no '/', ',' or space |
| Calendar.Subtract | scripts/MDCS_UC.py:311 | `a - b` keeps its seconds part in 0..86399, and days * 86400 + seconds is the exact difference in seconds |
| Calendar.MidnightDifference | scripts/MDCS_UC.py:309-311 | the difference of two midnights is the difference of their ordinals in days, with no seconds |
| Calendar.ParseDatePieces | scripts/MDCS_UC.py:530-531 | `strptime` with `%Y-%m-%d` on four year digits, a month token and a day token gives that date exactly when the calendar has it |
| Calendar.ParseFormatDate | scripts/MDCS_UC.py:530-535 | `strptime` with `%Y-%m-%d` reads back what `strftime` wrote |
| Calendar.DatePiecesOfStr | scripts/MDCS_UC.py:301-304 | `str(dt).replace('-', '/').split()[0].split('/')` is the zero-padded year, month and day |
| Calendar.ParseYmdOfStr | scripts/MDCS_UC.py:300-309 | reading year, month and day back from `str(dt)` with `int()` and `datetime()` gives dt's date |
| Calendar.ParseYmdOfNone | scripts/MDCS_UC.py:300-302 | the text "None" of a null date yields no date |
| DateWindows.DateRange | scripts/MDCS_UC.py:528-544 | the method returns `DateRangeSpec`: BadDate if either date fails to parse, BadInterval if `int(intv)` fails, ZeroInterval for 0, no windows for a negative count, and otherwise the windows |
| DateWindows.WindowList | scripts/MDCS_UC.py:533-537 | the append loop builds exactly `Windows(s, e, n)`, and Overflow where a boundary leaves the date range |
| DateWindows.Collect | scripts/MDCS_UC.py:533-536 | the collected list exists exactly when every window does; it then holds every window, in order; otherwise the error is Overflow |
| DateWindows.BoundaryWithinSpan | scripts/MDCS_UC.py:532-535 | for start <= end, every boundary 0..n is between 0 and the span in days |
| DateWindows.BoundaryMonotone | scripts/MDCS_UC.py:532-535 | boundaries never move backwards |
| DateWindows.LastBoundary | scripts/MDCS_UC.py:532-535 | for at most 86 400 000 000 windows (one per microsecond of a day), the last boundary is the end date or the day before it; it is the end date exactly when n divides the span in microseconds |
| DateWindows.LastWindowShortExample | scripts/MDCS_UC.py:532-535 | for a ten-day span in seven windows the width is 123428571428 microseconds and the last window ends on day 9 |
| DateWindows.IntendedBoundaries | scripts/MDCS_UC.py:532-535 | boundaries computed as i/n of the span in days start at 0, end exactly at the span and are monotone |
| DateWindows.WindowCount | scripts/MDCS_UC.py:533-538 | a successful call returns exactly `int(intv)` windows, or none for a negative count |
| DateWindows.RangeErrors | scripts/MDCS_UC.py:529-544 | an unparsable date, an interval `int()` rejects, or an interval of 0 gives False |
| DateWindows.BoundaryInPeriod | scripts/MDCS_UC.py:532-535 | for start <= end, boundary i exists and lies between start and end |
| DateWindows.OrderedWindowsSucceed | scripts/MDCS_UC.py:533-537 | for start <= end, no boundary overflows |
| DateWindows.WindowPieces | scripts/MDCS_UC.py:534-536 | splitting a window at '/' gives its two formatted dates |
| DateWindows.WindowAtPieces | scripts/MDCS_UC.py:534-536 | window i splits into boundary i and boundary i + 1 |
| DateWindows.FirstWindowStartsAtStart | scripts/MDCS_UC.py:534-536 | read back, the first window starts on the start date |
| DateWindows.WindowsElement | scripts/MDCS_UC.py:533-537 | element i of the result is window i |
| DateWindows.WindowsMeet | scripts/MDCS_UC.py:534-536 | window i ends on the date window i + 1 starts |
| DateWindows.WindowBoundsOrdered | scripts/MDCS_UC.py:532-535 | for start <= end, both boundaries of window i exist and start <= boundary i <= boundary i + 1 <= end |
| DateWindows.WindowInPeriod | scripts/MDCS_UC.py:532-537 | for start <= end, window i is two formatted boundaries a <= b, both between start and end |
| DateWindows.WindowReadsBack | scripts/MDCS_UC.py:532-537 | read back with strptime, both ends of every window lie in [start, end], and each window's start is no later than its end |
| DateWindows.OrderedRangeSucceeds | scripts/MDCS_UC.py:528-538 | with parsable dates, start <= end and a non-zero interval, the call succeeds |
| DateWindows.CountTextWindows | scripts/MDCS_UC.py:583-590 | an interval written as the decimal text of n > 0 (the default 1 included) yields exactly n windows for start <= end |
| DateWindows.AddDaysZero | scripts/MDCS_UC.py:534 | boundary 0 is the start date itself |
| Normalise.CloseRings | scripts/MDCS_UC.py:352-357 | the ring loop leaves the last ring closed with its first point; there is no polygon when there are no rings or any ring is empty |
| Normalise.ClosedLastRing | scripts/MDCS_UC.py:352-357 | the polygon is closed (first point = last point); it is the last ring plus its first point; earlier rings do not affect it |
| Normalise.AcquisitionOfDateTime | scripts/MDCS_UC.py:362-363 | for an RFC 3339 date-time, the acquisition text is the full-date, a space, and the partial-time without fractions or offset |
| Normalise.NumDateOfDate | scripts/MDCS_UC.py:362-389 | for an item dated d, NumDate is d's zero-padded digits and `int()` reads it as `y*10000 + m*100 + d` |
| Normalise.NumDateOfPieces | scripts/MDCS_UC.py:388 | NumDate of "yyyy-mm-dd hh:mm:ss" is yyyy, mm and dd joined, without the dashes and the time |
| Normalise.DateDigitsValue | scripts/MDCS_UC.py:388-389 | `int()` of the eight digits of a date, as stored into the Long NumDate field, is `y*10000 + m*100 + d` |
| Normalise.ProductUrlOfAsset | scripts/MDCS_UC.py:377 | the product URL is the href without its last seven characters: the folder of a `TCI.tif` asset |
| Normalise.RasterBoxSides | scripts/MDCS_UC.py:399-405 | the raster-proxy box is a square of side `shape*pixel` whose top-left corner is `(transform[2], transform[5])` |
| Normalise.BoxTextsSplit | scripts/MDCS_UC.py:391-408 | if no number text contains ',', the tile box text splits into minX,minY,maxX,maxY and the raster box text into maxX,maxY,minX,minY |
| Normalise.ReadItem | scripts/MDCS_UC.py:333-428 | the lookups and derivations of readJson (and of readStac at lines 431-525 of the same file), made in the source's order from the closed ring, build exactly `Normalise` of the item; a record comes back exactly when every lookup succeeds |
| Normalise.NormaliseSucceedsIff | scripts/MDCS_UC.py:337-428 | a record is produced exactly when every key is present and the lists are long enough |
| Normalise.RecordFields | scripts/MDCS_UC.py:359-416 | the record holds the closed footprint, the acquisition and NumDate texts, the href minus its last seven characters (the empty text for a shorter href), both box texts, CloudCover, Name, ProductID, Constellation and SRS passed through with null as None, and Q = 42572, Best = 542572 |
| Normalise.ItemUrlIff | scripts/MDCS_UC.py:663-664 | a URL is read exactly when it starts with "http" and ends with ".json"; the "https" test adds nothing |
| BandExpansion.RasterSizeTiers | scripts/MDCS_UC.py:209-279 | the size is 1830 exactly for B01, B09 and AOT; 5490 exactly for B05, B06, B07, B8A, B11, B12 and SCL; 10980 exactly for every other band |
| BandExpansion.BandListSizes | scripts/MDCS_UC.py:781 | over the fifteen bands in order, the sizes are three 1830, seven 5490 and five 10980 |
| BandExpansion.SizeTextOfBand | scripts/MDCS_UC.py:209-268 | the Size line of the template carries "1830" for B01, B09 and AOT, "5490" for B05, B06, B07, B8A, B11, B12 and SCL, and "10980" for every other band |
| BandExpansion.EmbedMrfDescriptor | scripts/MDCS_UC.py:203-287 | for a non-null tile string the descriptor starts with `<MRF_META>` and contains the Source line `/vsicurl/` + tile + band + ".tif", the Size line with 1830, 5490 or 10980 by band, the PageSize line with 512, the DataFile and IndexFile line on `join(cache_loc + tile[55:], band)`, the BoundingBox line with the four bounds verbatim and the Projection line with the srs text; a null tile string gives None |
| BandExpansion.ExpandBands | scripts/MDCS_UC.py:757-797 | the nested loops insert exactly `Expansion(rows)` |
| BandExpansion.InsertBands | scripts/MDCS_UC.py:779-787 | the band loop for one master row inserts exactly that row's fifteen band rows, in band order |
| BandExpansion.BandRowsShape | scripts/MDCS_UC.py:760-789 | a master row with a usable box expands to 15 rows; row k is tagged `Bands[k]` and copies the ten projected columns 0,1,2,3,4,6,7,8,11,12 |
| BandExpansion.ExpansionBlocks | scripts/MDCS_UC.py:757-789 | when every master row has a usable box, there are 15 band rows per master row, and row 15j+k is band k of master row j |
| BandExpansion.ExpansionSkips | scripts/MDCS_UC.py:775-785 | a master row whose box text is null or has fewer than four pieces inserts nothing |
| BandExpansion.RasterBoxReachesDescriptor | scripts/MDCS_UC.py:775-785 | a box written by the normaliser reaches every band's descriptor as maxX, maxY, minX, minY, in that order |
| Duplicates.MarkDuplicates | scripts/MDCS_UC.py:811-833 | the sweep leaves exactly `Marked(old rows)` |
| Duplicates.MarkedRows | scripts/MDCS_UC.py:817-826 | names never change; row i gets 'dup' exactly when its name text equals the previous row's, or "gp" for row 0; any other row is unchanged |
| Duplicates.UnmarkedDistinct | scripts/MDCS_UC.py:817-826 | on name-ordered rows, no two unmarked rows share a name |
| Duplicates.RunHasRepresentative | scripts/MDCS_UC.py:817-826 | every row not named "gp" has an unmarked row of the same name at or before it |
| Duplicates.UnorderedMissesDuplicate | scripts/MDCS_UC.py:817 | without the ordering, rows A, B, A are left unmarked |
| Duplicates.SentinelMarksFirstRow | scripts/MDCS_UC.py:818-823 | a first row named "gp" is marked 'dup' although no other row shares its name |
| Duplicates.FromStartKeepsOnePerName | scripts/MDCS_UC.py:817-826 | with no sentinel, every name on grouped rows keeps exactly one unmarked row, the first of its run |
| CustomValues.UpdateRow | scripts/MDCS_UC.py:74-93 | the loop body for one row raises exactly when GroupName has 16 or more characters and either characters 13..15 are not a number or Tag is null; otherwise it sets MinPS = 0, MaxPS = 300, PR = path * 1000 + row when both are present, Month to the date's month, DayOfYear and Name for long group names, and leaves every other field as it was; the result is `UpdatedRow` of the row |
| CustomValues.FirstFailure | scripts/MDCS_UC.py:73-94 | returns the first row the pass raises on, or the row count; every row before it updates |
| CustomValues.CustomValues | scripts/MDCS_UC.py:65-95 | rows before the first failing row get their update and the rest are unchanged; the result is true exactly when no row fails |
| CustomValues.UpdatedRowFields | scripts/MDCS_UC.py:74-92 | a row fails exactly when its GroupName has 16 or more characters and either characters 13..15 are not a number or Tag is null; otherwise MinPS = 0, MaxPS = 300, PR is set exactly when path and row are present, Month is the date's month, and DayOfYear and Name are set exactly for long group names |
| CustomValues.PathRowDecodes | scripts/MDCS_UC.py:78-81 | for a row number below 1000, PR / 1000 is the path and PR % 1000 is the row |
| CustomValues.MonthOfDate | scripts/MDCS_UC.py:82-86 | the value written to Month is the month of AcquisitionDate, and reading it never fails |
| CustomValues.DayOfYearDigits | scripts/MDCS_UC.py:87-91 | DayOfYear is the number formed by the three digits at positions 13..15 of the group name |
| CustomValues.NameOfPrefix | scripts/MDCS_UC.py:92 | Name is the group name up to its first '_', then '_' and the tag |

## Left out

- `arcpy` is not modelled. That covers feature class and field creation,
  cursor mechanics, spatial references, polygon construction and area.
  `Shape_Area` is an input, and geometry is a sequence of points.
- Network and file I/O are not modelled: `urlopen`, `json.loads`, the
  pystac search, and CSV reading. Only the URL filter of lines 663-664 is
  modelled.
- Logging is not modelled. Swallowed exceptions appear as `None`/`Err`
  results.
- IEEE floating point is not modelled. Scores and box coordinates are
  `real`. The truncation of Q and Best into Long fields is not modelled
  either.
- `str()` of a float and `os.path.join` are function parameters. Their
  exact text is not modelled.
- Normalise.CloseRings: a coordinate pair with other than two values
  (`arcpy.Point(*coords)`) is not modelled. Points are always pairs.
- Scoring.FindBestTiles: Shape_Area is always a number. A null area
  raising TypeError is not modelled.
- Duplicates.MarkDuplicates: the `False` returned when the cursor cannot
  be opened is left out, with the cursor itself. Every `updateRow` is
  taken to succeed: a row whose update raises would stay unmarked while
  the sweep goes on, and that case is not modelled.
- BandExpansion.ExpandBands: an insert that raises inside the band loop
  is not modelled. Every insert is taken to succeed.
- Calendar.ParseDate accepts only ASCII digits in `%Y`, `%m` and `%d`.
  `strptime` also accepts other Unicode decimal digits there, which the
  model rejects.
- Common.ParseInt models `int()` on text with ASCII digits, an optional
  sign and surrounding ASCII whitespace. Underscores between digits and
  non-ASCII digits and spaces are not modelled.
- Not modelled: the XML configuration update at line 800, `sample00` to
  `sample02`, and the commented-out search code.

## Findings

| source | as written | input that shows it | evidently intended | confidence | as-written member | corrected member |
|---|---|---|---|---|---|---|
| scripts/MDCS_UC.py:532-535 | each boundary is `start + (end - start) // n * i`; the width is floored to whole microseconds before it is multiplied, so the last boundary can fall a day before `end` | start 2021-01-01, end 2021-01-11, intv 7: the width is 123428571428 microseconds, and 7 times it is 9.99999999995 days, so the last window ends 2021-01-10 | the n windows cover the period, and the last one ends on `end` | medium, not executed | DateWindows.LastWindowShortExample | DateWindows.IntendedBoundaries |
| scripts/MDCS_UC.py:818-823 | the last-seen name starts as the text "gp", so the first row is compared with it | a first row named "gp" with no other row of that name is marked 'dup' | only a repeat of an earlier row is marked | low, not executed | Duplicates.SentinelMarksFirstRow | Duplicates.FromStartKeepsOnePerName |
