/** Turning one STAC item into a master-tile record (readJson and readStac
    in scripts/MDCS_UC.py). Both read the same fields of the item, readJson
    from the decoded JSON document and readStac from a pystac Item, and
    derive the same 13 values in the order of the master feature class:
    SHAPE@, AcquisitionDate, CloudCover, Name, ProductID, ProductURL,
    Constellation, SRS, NumDate, Tile_BB_Values, RasterProxy_BB_Values, Q
    and Best. Any exception (a missing key, a null where a value is sliced
    or indexed, a list too short) makes the whole record fail. */
module Normalise {
  import opened Common
  import opened Calendar

  /** A key of the item: missing (KeyError), JSON null (Python None) or a value. */
  datatype Field<+T> = Absent | Null | Is(value: T)

  /** A coordinate pair of the footprint. */
  datatype Point = Point(x: real, y: real)

  /** The item fields the two readers look at. `productId` is
      properties['sentinel:product_id'] for readJson and
      properties['s2:product_uri'] for readStac; `visualHref`, `shape` and
      `transform` come from the 'visual' asset. */
  datatype Item = Item(
    coordinates: Field<seq<seq<Point>>>,
    datetime: Field<string>,
    cloudCover: Field<real>,
    id: Field<string>,
    productId: Field<string>,
    visualHref: Field<string>,
    constellation: Field<string>,
    epsg: Field<int>,
    bbox: Field<seq<real>>,
    shape: Field<seq<int>>,
    transform: Field<seq<real>>)

  /** The 13-slot list the readers return, in master feature class order. */
  datatype MasterRecord = MasterRecord(
    shape: seq<Point>,
    acquisitionDate: string,
    cloudCover: Option<real>,
    name: Option<string>,
    productId: Option<string>,
    productUrl: string,
    constellation: Option<string>,
    srs: Option<int>,
    numDate: string,
    tileBB: string,
    rasterBB: string,
    q: int,
    best: int)

  /** Placeholder scores written before findBestTiles computes the real ones. */
  const PlaceholderQ: int := 42572
  const PlaceholderBest: int := 542572

  /** A field that is only appended to the list: null becomes None. */
  function Nullable<T>(f: Field<T>): Option<T>
    requires !f.Absent?
  {
    if f.Null? then None else Some(f.value)
  }

  // ---------------------------------------------------------------------------
  // The footprint

  /** What the ring loop leaves behind: the last ring closed with its first
      point. No ring at all leaves `array` unbound, and an empty ring fails
      on array[0]. */
  function LastRingClosed(rings: seq<seq<Point>>): Option<seq<Point>>
  {
    if rings == [] || exists k :: 0 <= k < |rings| && rings[k] == [] then None
    else
      var last := rings[|rings| - 1];
      Some(last + [last[0]])
  }

  /** The ring loop: every ring is closed in turn and overwrites the previous one. */
  method CloseRings(rings: seq<seq<Point>>) returns (polygon: Option<seq<Point>>)
    ensures polygon == LastRingClosed(rings)
  {
    var closed: Option<seq<Point>> := None;
    for k := 0 to |rings|
      invariant forall j :: 0 <= j < k ==> rings[j] != []
      invariant closed == (if k == 0 then None else Some(rings[k - 1] + [rings[k - 1][0]]))
    {
      var feature := rings[k];
      if feature == [] {
        return None;
      }
      closed := Some(feature + [feature[0]]);
    }
    return closed;
  }

  /** The polygon is closed, and it is the last ring alone: earlier rings
      (holes, or the other parts of a multi-ring footprint) are dropped. */
  lemma ClosedLastRing(rings: seq<seq<Point>>)
    requires LastRingClosed(rings).Some?
    ensures var p := LastRingClosed(rings).value;
      && |p| == |rings[|rings| - 1]| + 1 >= 2
      && p[0] == p[|p| - 1]
      && p[..|p| - 1] == rings[|rings| - 1]
      && LastRingClosed([rings[|rings| - 1]]) == LastRingClosed(rings)
  {
    var last := rings[|rings| - 1];
    assert last != [];
    assert (last + [last[0]])[..|last|] == last;
  }

  // ---------------------------------------------------------------------------
  // Derived text fields

  /** s[0:10] + ' ' + s[11:19]. */
  function AcquisitionText(s: string): string
  {
    Slice(s, 0, 10) + " " + Slice(s, 11, 19)
  }

  /** AD[0:4] + AD[5:7] + AD[8:10]. */
  function NumDateText(a: string): string
  {
    Slice(a, 0, 4) + Slice(a, 5, 7) + Slice(a, 8, 10)
  }

  /** href[:-7]: the asset file name "TCI.tif" dropped. */
  function ProductUrl(href: string): (r: string)
  {
    DropLast(href, 7)
  }

  /** For an RFC 3339 date-time (a 10-character full-date, one separator
      character, an 8-character partial-time, then fractions and offset),
      the acquisition text is the date and the time joined by a space. */
  lemma AcquisitionOfDateTime(date: string, sep: char, time: string, rest: string)
    requires |date| == 10 && |time| == 8
    ensures AcquisitionText(date + [sep] + time + rest) == date + " " + time
  {
    var s := date + [sep] + time + rest;
    assert Slice(s, 0, 10) == date;
    assert Slice(s, 11, 19) == time;
  }

  /** For an item dated d, the acquisition text starts with d formatted
      "%Y-%m-%d", and its NumDate is the date's digits, which int() reads as
      yyyymmdd. */
  lemma NumDateOfDate(d: Date, sep: char, time: string, rest: string)
    requires InRange(d) && |time| == 8
    ensures var a := AcquisitionText(FormatDate(d) + [sep] + time + rest);
      && a == FormatDate(d) + " " + time
      && NumDateText(a) == Decimal(d.year, 4) + Decimal(d.month, 2) + Decimal(d.day, 2)
      && ParseInt(NumDateText(a)) == Some(d.year * 10000 + d.month * 100 + d.day)
  {
    var y, m, dd := Decimal(d.year, 4), Decimal(d.month, 2), Decimal(d.day, 2);
    AcquisitionOfDateTime(FormatDate(d), sep, time, rest);
    NumDateOfPieces(y, m, dd, time);
    DateDigitsValue(d);
  }

  /** NumDate of "yyyy-mm-dd hh:mm:ss" drops the two dashes and the time. */
  lemma NumDateOfPieces(y: string, m: string, dd: string, time: string)
    requires |y| == 4 && |m| == 2 && |dd| == 2
    ensures NumDateText(y + "-" + m + "-" + dd + " " + time) == y + m + dd
  {
    var a := y + "-" + m + "-" + dd + " " + time;
    assert Slice(a, 0, 4) == y;
    assert Slice(a, 5, 7) == m;
    assert Slice(a, 8, 10) == dd;
  }

  /** int() of a date's eight digits is yyyymmdd. */
  lemma DateDigitsValue(d: Date)
    requires InRange(d)
    ensures ParseInt(Decimal(d.year, 4) + Decimal(d.month, 2) + Decimal(d.day, 2))
         == Some(d.year * 10000 + d.month * 100 + d.day)
  {
    var digits := Decimal(d.year, 4) + Decimal(d.month, 2) + Decimal(d.day, 2);
    EightDigits(d);
    ParseIntDigits(digits);
  }

  /** The eight digits of a date, read as one number. */
  lemma EightDigits(d: Date)
    requires InRange(d)
    ensures AllDigits(Decimal(d.year, 4) + Decimal(d.month, 2) + Decimal(d.day, 2))
    ensures DigitsValue(Decimal(d.year, 4) + Decimal(d.month, 2) + Decimal(d.day, 2))
         == d.year * 10000 + d.month * 100 + d.day
  {
    var y, m, dd := Decimal(d.year, 4), Decimal(d.month, 2), Decimal(d.day, 2);
    assert Pow10(2) == 100;
    DecimalValue(d.year, 4);
    DecimalValue(d.month, 2);
    DecimalValue(d.day, 2);
    DigitsConcat(y, m);
    DigitsConcat(y + m, dd);
  }

  /** The value of two digit strings written one after the other. */
  lemma {:induction false} DigitsConcat(a: string, b: string)
    requires AllDigits(a) && AllDigits(b)
    ensures AllDigits(a + b)
    ensures DigitsValue(a + b) == DigitsValue(a) * Pow10(|b|) + DigitsValue(b)
    decreases |b|
  {
    assert AllDigits(a + b) by {
      forall i | 0 <= i < |a + b| ensures IsDigit((a + b)[i]) {
        if i < |a| { assert (a + b)[i] == a[i]; } else { assert (a + b)[i] == b[i - |a|]; }
      }
    }
    if b != [] {
      var b' := b[..|b| - 1];
      assert (a + b)[..|a + b| - 1] == a + b';
      assert (a + b)[|a + b| - 1] == b[|b| - 1];
      assert AllDigits(b');
      DigitsConcat(a, b');
      var x, v, c, p := DigitsValue(a), DigitsValue(b'), DigitValue(b[|b| - 1]), Pow10(|b'|);
      assert DigitsValue(a + b) == (x * p + v) * 10 + c;
      assert DigitsValue(b) == v * 10 + c && Pow10(|b|) == 10 * p;
      ShiftDigit(x, p, v, c);
    } else {
      assert a + b == a;
    }
  }

  /** Appending a digit c to x * p + v multiplies the place value p by ten. */
  lemma ShiftDigit(x: int, p: int, v: int, c: int)
    ensures (x * p + v) * 10 + c == x * (10 * p) + (v * 10 + c)
  {
  }

  /** The product URL is the href without its last seven characters: the
      folder of an asset named "TCI.tif". */
  lemma ProductUrlOfAsset(folder: string)
    ensures ProductUrl(folder + "TCI.tif") == folder
    ensures forall h: string :: |h| >= 7 ==> ProductUrl(h) + h[|h| - 7..] == h
  {
  }

  // ---------------------------------------------------------------------------
  // Bounding boxes

  /** An axis-aligned box. */
  datatype Box = Box(minX: real, minY: real, maxX: real, maxY: real)

  /** The raster-proxy box from proj:shape[0] and proj:transform: the
      origin (transform[2], transform[5]) is the top-left corner, and the
      square raster spans shape * transform[0] in each direction. */
  function RasterBox(shape: seq<int>, transform: seq<real>): Box
    requires |shape| >= 1 && |transform| >= 6
  {
    var minX := transform[2];
    var maxY := transform[5];
    var pixel := transform[0];
    var maxX := minX + shape[0] as real * pixel;
    var minY := maxY - shape[0] as real * pixel;
    Box(minX, minY, maxX, maxY)
  }

  /** The raster box is a square of side shape * pixel anchored at the top-left origin. */
  lemma RasterBoxSides(shape: seq<int>, transform: seq<real>)
    requires |shape| >= 1 && |transform| >= 6
    ensures var b := RasterBox(shape, transform);
      && b.maxX - b.minX == shape[0] as real * transform[0]
      && b.maxY - b.minY == shape[0] as real * transform[0]
      && b.minX == transform[2] && b.maxY == transform[5]
  {
  }

  /** RasterProxy_BB_Values: maxX,maxY,minX,minY. */
  function RasterBoxText(b: Box, numText: real -> string): string
  {
    Join([numText(b.maxX), numText(b.maxY), numText(b.minX), numText(b.minY)], ',')
  }

  /** Tile_BB_Values: bbox[0],bbox[1],bbox[2],bbox[3] (minX,minY,maxX,maxY). */
  function TileBoxText(bbox: seq<real>, numText: real -> string): string
    requires |bbox| >= 4
  {
    Join([numText(bbox[0]), numText(bbox[1]), numText(bbox[2]), numText(bbox[3])], ',')
  }

  /** When no number text holds a comma (str of a float never does),
      splitting either box text at ',' gives back its four numbers in order. */
  lemma BoxTextsSplit(b: Box, bbox: seq<real>, numText: real -> string)
    requires |bbox| >= 4
    requires forall x :: ',' !in numText(x)
    ensures Split(RasterBoxText(b, numText), ',') ==
      [numText(b.maxX), numText(b.maxY), numText(b.minX), numText(b.minY)]
    ensures Split(TileBoxText(bbox, numText), ',') ==
      [numText(bbox[0]), numText(bbox[1]), numText(bbox[2]), numText(bbox[3])]
  {
    var raster := [numText(b.maxX), numText(b.maxY), numText(b.minX), numText(b.minY)];
    var tile := [numText(bbox[0]), numText(bbox[1]), numText(bbox[2]), numText(bbox[3])];
    assert SepFree(raster, ',') && SepFree(tile, ',') by {
      var x0, x1, x2, x3 := bbox[0], bbox[1], bbox[2], bbox[3];
      assert ',' !in numText(x0) && ',' !in numText(x1) && ',' !in numText(x2) && ',' !in numText(x3);
      assert ',' !in numText(b.maxX) && ',' !in numText(b.maxY) && ',' !in numText(b.minX) && ',' !in numText(b.minY);
    }
    SplitJoin(raster, ',');
    SplitJoin(tile, ',');
  }

  // ---------------------------------------------------------------------------
  // The whole record

  /** Every lookup the readers make succeeds. */
  predicate WellFormed(it: Item)
  {
    && it.coordinates.Is? && |it.coordinates.value| >= 1
    && (forall k :: 0 <= k < |it.coordinates.value| ==> |it.coordinates.value[k]| >= 1)
    && it.datetime.Is?
    && !it.cloudCover.Absent? && !it.id.Absent? && !it.productId.Absent?
    && it.visualHref.Is?
    && !it.constellation.Absent? && !it.epsg.Absent?
    && it.bbox.Is? && |it.bbox.value| >= 4
    && it.shape.Is? && |it.shape.value| >= 1
    && it.transform.Is? && |it.transform.value| >= 6
  }

  /** The record readJson / readStac returns, or None where they return False. */
  function Normalise(it: Item, numText: real -> string): Option<MasterRecord>
  {
    var polygon := if it.coordinates.Is? then LastRingClosed(it.coordinates.value) else None;
    if polygon.None? || !it.datetime.Is? || it.cloudCover.Absent? || it.id.Absent?
      || it.productId.Absent? || !it.visualHref.Is? || it.constellation.Absent? || it.epsg.Absent?
      || !(it.bbox.Is? && |it.bbox.value| >= 4)
      || !(it.shape.Is? && |it.shape.value| >= 1)
      || !(it.transform.Is? && |it.transform.value| >= 6)
    then None
    else
      var acquisition := AcquisitionText(it.datetime.value);
      Some(MasterRecord(
        polygon.value,
        acquisition,
        Nullable(it.cloudCover),
        Nullable(it.id),
        Nullable(it.productId),
        ProductUrl(it.visualHref.value),
        Nullable(it.constellation),
        Nullable(it.epsg),
        NumDateText(acquisition),
        TileBoxText(it.bbox.value, numText),
        RasterBoxText(RasterBox(it.shape.value, it.transform.value), numText),
        PlaceholderQ,
        PlaceholderBest))
  }

  /** readJson / readStac: the ring loop, then the lookups and derivations
      in the order the readers make them; the first failing lookup ends the
      read with no record. */
  method ReadItem(it: Item, numText: real -> string) returns (r: Option<MasterRecord>)
    ensures r == Normalise(it, numText)
    ensures r.Some? <==> WellFormed(it)
  {
    NormaliseSucceedsIff(it, numText);
    if !it.coordinates.Is? {
      return None;
    }
    var features := CloseRings(it.coordinates.value);
    if features.None? || !it.datetime.Is? {
      return None;
    }
    var datetime := it.datetime.value;
    var acquisitionDate := Slice(datetime, 0, 10) + " " + Slice(datetime, 11, 19);
    if it.cloudCover.Absent? || it.id.Absent? || it.productId.Absent? || !it.visualHref.Is? {
      return None;
    }
    var cloudCover := if it.cloudCover.Null? then None else Some(it.cloudCover.value);
    var productName := if it.id.Null? then None else Some(it.id.value);
    var productId := if it.productId.Null? then None else Some(it.productId.value);
    var productUrl := DropLast(it.visualHref.value, 7);
    if it.constellation.Absent? || it.epsg.Absent? {
      return None;
    }
    var constellation := if it.constellation.Null? then None else Some(it.constellation.value);
    var srs := if it.epsg.Null? then None else Some(it.epsg.value);
    var numDate := Slice(acquisitionDate, 0, 4) + Slice(acquisitionDate, 5, 7) + Slice(acquisitionDate, 8, 10);
    if !it.bbox.Is? || |it.bbox.value| < 4 {
      return None;
    }
    var bbox := it.bbox.value;
    var tileBB := Join([numText(bbox[0]), numText(bbox[1]), numText(bbox[2]), numText(bbox[3])], ',');
    if !it.shape.Is? || |it.shape.value| < 1 || !it.transform.Is? || |it.transform.value| < 6 {
      return None;
    }
    var side := it.shape.value[0] as real;
    var transform := it.transform.value;
    var minX, maxY, multiplier := transform[2], transform[5], transform[0];
    var maxX := minX + side * multiplier;
    var minY := maxY - side * multiplier;
    var rasterBB := Join([numText(maxX), numText(maxY), numText(minX), numText(minY)], ',');
    // the raster proxy box as RasterBox computes it
    assert RasterBox(it.shape.value, transform) == Box(minX, minY, maxX, maxY);
    r := Some(MasterRecord(features.value, acquisitionDate, cloudCover, productName, productId,
      productUrl, constellation, srs, numDate, tileBB, rasterBB, 42572, 542572));
  }

  /** A record is produced exactly when every lookup succeeds. */
  lemma NormaliseSucceedsIff(it: Item, numText: real -> string)
    ensures Normalise(it, numText).Some? <==> WellFormed(it)
  {
    if it.coordinates.Is? {
      var rings := it.coordinates.value;
      if (exists k :: 0 <= k < |rings| && rings[k] == []) {
        var k :| 0 <= k < |rings| && rings[k] == [];
        assert |rings[k]| < 1;
      }
    }
  }

  /** What the record holds: the closed footprint, the acquisition and
      NumDate texts, the product folder, the two box texts and the
      placeholder scores; values that may be null are passed through. */
  lemma RecordFields(it: Item, numText: real -> string)
    requires WellFormed(it)
    ensures Normalise(it, numText).Some?
    ensures var r := Normalise(it, numText).value;
      && r.shape == LastRingClosed(it.coordinates.value).value
      && r.acquisitionDate == AcquisitionText(it.datetime.value)
      && r.numDate == NumDateText(r.acquisitionDate)
      && r.name == (if it.id.Null? then None else Some(it.id.value))
      && r.cloudCover == (if it.cloudCover.Null? then None else Some(it.cloudCover.value))
      && r.productId == (if it.productId.Null? then None else Some(it.productId.value))
      && (|it.visualHref.value| >= 7 ==> r.productUrl + it.visualHref.value[|it.visualHref.value| - 7..] == it.visualHref.value)
      && (|it.visualHref.value| < 7 ==> r.productUrl == "")
      && r.constellation == (if it.constellation.Null? then None else Some(it.constellation.value))
      && r.srs == (if it.epsg.Null? then None else Some(it.epsg.value))
      && r.tileBB == TileBoxText(it.bbox.value, numText)
      && r.rasterBB == RasterBoxText(RasterBox(it.shape.value, it.transform.value), numText)
      && r.q == 42572 && r.best == 542572
  {
    NormaliseSucceedsIff(it, numText);
  }

  // ---------------------------------------------------------------------------
  // The URL filter of the CSV path

  predicate StartsWith(s: string, p: string) { |p| <= |s| && s[..|p|] == p }
  predicate EndsWith(s: string, p: string) { |p| <= |s| && s[|s| - |p|..] == p }

  /** url.startswith("https") or url.startswith("http"), and url.endswith('.json'). */
  predicate IsItemUrl(url: string)
  {
    (StartsWith(url, "https") || StartsWith(url, "http")) && EndsWith(url, ".json")
  }

  /** The "https" test adds nothing: a URL is read exactly when it starts
      with "http" and ends with ".json". */
  lemma ItemUrlIff(url: string)
    ensures IsItemUrl(url) <==> |url| >= 5 && url[..4] == "http" && url[|url| - 5..] == ".json"
  {
    if StartsWith(url, "https") {
      assert url[..4] == url[..5][..4];
    }
  }
}
