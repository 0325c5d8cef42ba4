/** Expanding master tiles into band rows (the band loop of
    sentinelModifySrc and embedMRF in scripts/MDCS_UC.py). Every master row
    is projected onto ten of its columns and then repeated once per band of
    a fixed list of fifteen, each copy carrying a cached-MRF descriptor for
    that band and the band name as its tag. */
module BandExpansion {
  import opened Common
  import opened Calendar
  import opened Normalise

  /** A master row as the search cursor returns it, in the order SHAPE@,
      AcquisitionDate, CloudCover, Name, ProductID, ProductURL,
      Constellation, SRS (a text field), NumDate, Tile_BB_Values,
      RasterProxy_BB_Values, Q, Best. */
  datatype MasterRow = MasterRow(
    shape: seq<Point>,
    acquisitionDate: Option<DateTime>,
    cloudCover: Option<real>,
    name: Option<string>,
    productId: Option<string>,
    productUrl: Option<string>,
    constellation: Option<string>,
    srs: Option<string>,
    numDate: Option<int>,
    tileBB: Option<string>,
    rasterBB: Option<string>,
    q: Option<int>,
    best: Option<int>)

  /** A band row in the order SHAPE@, AcquisitionDate, CloudCover, ID,
      ProductID, Constellation, SRS, NumDate, Q, Best, Raster, Tag. Raster
      is None where embedMRF returns None. */
  datatype BandRow = BandRow(
    shape: seq<Point>,
    acquisitionDate: Option<DateTime>,
    cloudCover: Option<real>,
    id: Option<string>,
    productId: Option<string>,
    constellation: Option<string>,
    srs: Option<string>,
    numDate: Option<int>,
    q: Option<int>,
    best: Option<int>,
    raster: Option<string>,
    tag: string)

  /** The bands every tile is expanded into, in this order. */
  const Bands: seq<string> :=
    ["B01", "B02", "B03", "B04", "B05", "B06", "B07", "B08", "B8A", "B09", "B11", "B12", "SCL", "WVP", "AOT"]

  /** Where the cached MRF files go. */
  const CacheLoc: string := "C:/mrfcache/cachingmrf/"

  /** Characters of the product URL dropped before it is appended to CacheLoc. */
  const UrlPrefixLength: nat := 55

  /** Raster width and height in pixels: the 60 m bands are 1830 pixels
      across, the 20 m bands 5490 and everything else 10980. */
  function RasterSize(band: string): nat
  {
    if band in ["B01", "B09", "AOT"] then 1830
    else if band in ["B05", "B06", "B07", "B8A", "B11", "B12", "SCL"] then 5490
    else 10980
  }

  /** The values embedMRF fills into its template. */
  datatype MrfMeta = MrfMeta(
    source: string,
    cachePath: string,
    size: nat,
    maxX: string,
    maxY: string,
    minX: string,
    minY: string,
    projection: string)

  /** The template lines that carry filled-in values. */
  function SourceLine(source: string): string
  {
    "    <Source>/vsicurl/" + source + "</Source>"
  }

  function SizeLine(size: string): string
  {
    "    <Size c=\"1\" x=\"" + size + "\" y=\"" + size + "\"/>"
  }

  const PageSizeLine: string := "    <PageSize c=\"1\" x=\"512\" y=\"512\"/>"

  function CacheLine(cachePath: string): string
  {
    "  <DataFile>" + cachePath + ".mrf_cache</DataFile><IndexFile>" + cachePath + ".mrf_cache</IndexFile></Raster>"
  }

  function BoundsLine(maxX: string, maxY: string, minX: string, minY: string): string
  {
    "    <BoundingBox maxx=\"" + maxX + "\" maxy=\"" + maxY + "\" minx=\"" + minX + "\" miny=\"" + minY + "\"/>"
  }

  function ProjectionLine(projection: string): string
  {
    "    <Projection>" + projection + "</Projection>"
  }

  /** The lines of the MRF_META document embedMRF writes, each ended by a
      newline; the three templates of the source differ only in the Size
      line. */
  function MrfLines(m: MrfMeta): seq<string>
  {
    [ "<MRF_META>",
      "  <CachedSource>",
      SourceLine(m.source),
      "  </CachedSource>",
      "  <Raster>",
      SizeLine(NatText(m.size)),
      PageSizeLine,
      "    <Compression>LERC</Compression>",
      "    <DataType>UInt16</DataType>",
      CacheLine(m.cachePath),
      "  <Rsets model=\"uniform\" scale=\"2\"/>",
      "  <GeoTags>",
      BoundsLine(m.maxX, m.maxY, m.minX, m.minY),
      ProjectionLine(m.projection),
      "  </GeoTags>",
      "  <Options>V2=ON</Options>",
      "</MRF_META>",
      "" ]
  }

  /** The MRF_META document: its lines joined by newlines. */
  function Render(m: MrfMeta): string
  {
    Join(MrfLines(m), '\n')
  }

  /** What embedMRF fills in, or None where it returns None: slicing a null
      tile string raises, and the outer handler returns nothing. `join` is
      os.path.join. */
  function EmbedMrfMeta(cacheLoc: string, tile: Option<string>, maxX: string, maxY: string,
                        minX: string, minY: string, srs: string, band: string,
                        join: (string, string) -> string): Option<MrfMeta>
  {
    if tile.None? then None
    else
      var tileUrl := cacheLoc + SliceFrom(tile.value, UrlPrefixLength);
      Some(MrfMeta(tile.value + band + ".tif", join(tileUrl, band), RasterSize(band),
                   maxX, maxY, minX, minY, srs))
  }

  /** embedMRF: the rendered descriptor. */
  function EmbedMrf(cacheLoc: string, tile: Option<string>, maxX: string, maxY: string,
                    minX: string, minY: string, srs: string, band: string,
                    join: (string, string) -> string): Option<string>
  {
    var m := EmbedMrfMeta(cacheLoc, tile, maxX, maxY, minX, minY, srs, band, join);
    if m.None? then None else Some(Render(m.value))
  }

  /** The size tiers of embedMRF, each stated as membership in its band set. */
  lemma RasterSizeTiers(band: string)
    ensures RasterSize(band) == 1830 <==> band in {"B01", "B09", "AOT"}
    ensures RasterSize(band) == 5490 <==> band in {"B05", "B06", "B07", "B8A", "B11", "B12", "SCL"}
    ensures RasterSize(band) == 10980 <==>
      band !in {"B01", "B09", "AOT", "B05", "B06", "B07", "B8A", "B11", "B12", "SCL"}
  {
  }

  /** Over the fifteen bands: three 60 m tiers, seven 20 m tiers and five at 10980. */
  lemma BandListSizes()
    ensures seq(|Bands|, k requires 0 <= k < |Bands| => RasterSize(Bands[k])) ==
      [1830, 10980, 10980, 10980, 5490, 5490, 5490, 10980, 5490, 1830, 5490, 5490, 5490, 10980, 1830]
  {
  }

  /** The three raster sizes as str() writes them. */
  lemma SizeTexts()
    ensures NatText(1830) == "1830" && NatText(5490) == "5490" && NatText(10980) == "10980"
  {
    assert NatText(1) == "1" && NatText(5) == "5";
    assert NatText(18) == "18" && NatText(54) == "54" && NatText(10) == "10";
    assert NatText(183) == "183" && NatText(549) == "549" && NatText(109) == "109";
    assert NatText(1098) == "1098";
  }

  /** The Size value each band's template writes. */
  lemma SizeTextOfBand(band: string)
    ensures NatText(RasterSize(band)) ==
      if band in {"B01", "B09", "AOT"} then "1830"
      else if band in {"B05", "B06", "B07", "B8A", "B11", "B12", "SCL"} then "5490"
      else "10980"
  {
    SizeTexts();
    RasterSizeTiers(band);
  }

  /** For a non-null tile string, the descriptor is an MRF_META document
      that reads its source over /vsicurl/ from tile + band + ".tif",
      declares the band's raster size (1830, 5490 or 10980) and 512-pixel
      pages, caches under the product path below the cache folder, and
      carries the four bounds and the projection verbatim; a null tile
      string gives None. */
  lemma EmbedMrfDescriptor(cacheLoc: string, tile: string, maxX: string, maxY: string,
                           minX: string, minY: string, srs: string, band: string,
                           join: (string, string) -> string)
    ensures EmbedMrf(cacheLoc, Some(tile), maxX, maxY, minX, minY, srs, band, join).Some?
    ensures var d := EmbedMrf(cacheLoc, Some(tile), maxX, maxY, minX, minY, srs, band, join).value;
      var size := if band in {"B01", "B09", "AOT"} then "1830"
        else if band in {"B05", "B06", "B07", "B8A", "B11", "B12", "SCL"} then "5490"
        else "10980";
      && OccursAt(d, "<MRF_META>", 0)
      && Contains(d, SourceLine(tile + band + ".tif"))
      && Contains(d, SizeLine(size))
      && Contains(d, PageSizeLine)
      && Contains(d, CacheLine(join(cacheLoc + SliceFrom(tile, 55), band)))
      && Contains(d, BoundsLine(maxX, maxY, minX, minY))
      && Contains(d, ProjectionLine(srs))
    ensures EmbedMrf(cacheLoc, None, maxX, maxY, minX, minY, srs, band, join).None?
  {
    var m := MrfMeta(tile + band + ".tif", join(cacheLoc + SliceFrom(tile, 55), band),
                     RasterSize(band), maxX, maxY, minX, minY, srs);
    var lines := MrfLines(m);
    JoinContains(lines, '\n', 2);
    JoinContains(lines, '\n', 5);
    JoinContains(lines, '\n', 6);
    JoinContains(lines, '\n', 9);
    JoinContains(lines, '\n', 12);
    JoinContains(lines, '\n', 13);
    SizeTextOfBand(band);
  }

  // ---------------------------------------------------------------------------
  // The expansion

  /** 'EPSG:' + str(row[7]); str(None) is "None". */
  function SrsText(srs: Option<string>): string
  {
    "EPSG:" + (if srs.None? then "None" else srs.value)
  }

  /** One band row: the ten projected columns, the descriptor and the tag.
      The bounds are the first four pieces of RasterProxy_BB_Values, passed
      as maxX, maxY, minX, minY. */
  function BandRowFor(row: MasterRow, coordinate: seq<string>, band: string,
                      join: (string, string) -> string): BandRow
    requires |coordinate| >= 4
  {
    BandRow(row.shape, row.acquisitionDate, row.cloudCover, row.name, row.productId,
            row.constellation, row.srs, row.numDate, row.q, row.best,
            EmbedMrf(CacheLoc, row.productUrl, coordinate[0], coordinate[1], coordinate[2],
                     coordinate[3], SrsText(row.srs), band, join),
            band)
  }

  /** The pieces of RasterProxy_BB_Values when there are at least four. A
      null value (None.split) and fewer than four pieces (coordinate[3]
      raises before the first insert) give no band rows. */
  function Coordinates(row: MasterRow): Option<seq<string>>
  {
    if row.rasterBB.None? then None
    else
      var coordinate := Split(row.rasterBB.value, ',');
      if |coordinate| < 4 then None else Some(coordinate)
  }

  /** The band rows one master row expands into. */
  function BandRowsOf(row: MasterRow, join: (string, string) -> string): seq<BandRow>
  {
    var coordinate := Coordinates(row);
    if coordinate.None? then []
    else seq(|Bands|, k requires 0 <= k < |Bands| => BandRowFor(row, coordinate.value, Bands[k], join))
  }

  /** All band rows inserted for the master rows, in cursor order. */
  function Expansion(rows: seq<MasterRow>, join: (string, string) -> string): seq<BandRow>
  {
    if rows == [] then [] else Expansion(rows[..|rows| - 1], join) + BandRowsOf(rows[|rows| - 1], join)
  }

  /** The band loop: for each master row, one insert per band. */
  method ExpandBands(rows: seq<MasterRow>, join: (string, string) -> string) returns (inserted: seq<BandRow>)
    ensures inserted == Expansion(rows, join)
  {
    inserted := [];
    for i := 0 to |rows|
      invariant inserted == Expansion(rows[..i], join)
    {
      var row := rows[i];
      assert rows[..i + 1][..i] == rows[..i];
      var coordinate := Coordinates(row);
      if coordinate.Some? {
        var bandRows := InsertBands(row, coordinate.value, join);
        inserted := inserted + bandRows;
      }
    }
    assert rows[..|rows|] == rows;
  }

  /** The inner loop over the fifteen bands for one master row. */
  method InsertBands(row: MasterRow, coordinate: seq<string>, join: (string, string) -> string)
    returns (out: seq<BandRow>)
    requires Coordinates(row) == Some(coordinate)
    ensures out == BandRowsOf(row, join)
  {
    out := [];
    var srs := SrsText(row.srs);
    for k := 0 to |Bands|
      invariant |out| == k
      invariant forall j :: 0 <= j < k ==> out[j] == BandRowFor(row, coordinate, Bands[j], join)
    {
      var band := Bands[k];
      var cachingmrf := EmbedMrf(CacheLoc, row.productUrl, coordinate[0], coordinate[1],
                                 coordinate[2], coordinate[3], srs, band, join);
      var datareq := BandRow(row.shape, row.acquisitionDate, row.cloudCover, row.name, row.productId,
                             row.constellation, row.srs, row.numDate, row.q, row.best, cachingmrf, band);
      out := out + [datareq];
    }
    BandRowsElements(row, join, out);
  }

  /** Fifteen rows, row k being band k's, are the rows of the master row. */
  lemma BandRowsElements(row: MasterRow, join: (string, string) -> string, out: seq<BandRow>)
    requires Coordinates(row).Some? && |out| == |Bands|
    requires forall j :: 0 <= j < |Bands| ==> out[j] == BandRowFor(row, Coordinates(row).value, Bands[j], join)
    ensures out == BandRowsOf(row, join)
  {
  }

  // ---------------------------------------------------------------------------
  // What the expansion produces

  /** A master row with a usable box gives fifteen rows, band k tagged
      Bands[k], each copying the ten projected columns. */
  lemma BandRowsShape(row: MasterRow, join: (string, string) -> string)
    requires Coordinates(row).Some?
    ensures var out := BandRowsOf(row, join);
      && |out| == 15
      && forall k :: 0 <= k < 15 ==>
           && out[k].tag == Bands[k]
           && out[k].shape == row.shape && out[k].acquisitionDate == row.acquisitionDate
           && out[k].cloudCover == row.cloudCover && out[k].id == row.name
           && out[k].productId == row.productId && out[k].constellation == row.constellation
           && out[k].srs == row.srs && out[k].numDate == row.numDate
           && out[k].q == row.q && out[k].best == row.best
  {
  }

  /** When every master row has a usable box, the band rows come in blocks of
      fifteen: row 15 * j + k is band k of master row j. */
  lemma {:induction false} ExpansionBlocks(rows: seq<MasterRow>, join: (string, string) -> string)
    requires forall j :: 0 <= j < |rows| ==> Coordinates(rows[j]).Some?
    ensures |Expansion(rows, join)| == 15 * |rows|
    ensures forall j, k :: 0 <= j < |rows| && 0 <= k < 15 ==>
      Expansion(rows, join)[15 * j + k] == BandRowFor(rows[j], Coordinates(rows[j]).value, Bands[k], join)
  {
    if rows != [] {
      var init := rows[..|rows| - 1];
      var last := rows[|rows| - 1];
      ExpansionBlocks(init, join);
      var front, back := Expansion(init, join), BandRowsOf(last, join);
      assert |back| == 15;
      forall j, k | 0 <= j < |rows| && 0 <= k < 15
        ensures Expansion(rows, join)[15 * j + k] == BandRowFor(rows[j], Coordinates(rows[j]).value, Bands[k], join)
      {
        if j < |rows| - 1 {
          assert init[j] == rows[j];
          assert 15 * j + k < 15 * |init|;
          assert Expansion(rows, join)[15 * j + k] == front[15 * j + k];
        } else {
          assert 15 * j + k == |front| + k;
          assert Expansion(rows, join)[15 * j + k] == back[k];
        }
      }
    }
  }

  /** Rows whose box is null or has fewer than four pieces add nothing. */
  lemma ExpansionSkips(rows: seq<MasterRow>, row: MasterRow, join: (string, string) -> string)
    requires Coordinates(row).None?
    ensures Expansion(rows + [row], join) == Expansion(rows, join)
  {
    assert (rows + [row])[..|rows|] == rows;
  }

  /** End to end: when the master row's RasterProxy_BB_Values is the text
      the normaliser wrote for box b, every band descriptor carries b's
      maxX, maxY, minX and minY, in that order, in its BoundingBox. */
  lemma RasterBoxReachesDescriptor(row: MasterRow, b: Box, numText: real -> string,
                                   join: (string, string) -> string, k: int)
    requires row.rasterBB == Some(RasterBoxText(b, numText))
    requires forall x :: ',' !in numText(x)
    requires row.productUrl.Some? && 0 <= k < 15
    ensures Coordinates(row) == Some([numText(b.maxX), numText(b.maxY), numText(b.minX), numText(b.minY)])
    ensures var m := EmbedMrfMeta(CacheLoc, row.productUrl, numText(b.maxX), numText(b.maxY),
                                  numText(b.minX), numText(b.minY), SrsText(row.srs), Bands[k], join);
      && BandRowsOf(row, join)[k].raster == Some(Render(m.value))
      && m.value.maxX == numText(b.maxX) && m.value.maxY == numText(b.maxY)
      && m.value.minX == numText(b.minX) && m.value.minY == numText(b.minY)
      && m.value.size == RasterSize(Bands[k])
  {
    BoxTextsSplit(b, [0.0, 0.0, 0.0, 0.0], numText);
  }
}
