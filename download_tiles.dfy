/**
 The offline tile downloader: for each zoom level it turns the trail's
 bounding box into a rectangle of tile coordinates widened by one tile on
 every side, counts the tiles, fetches every tile not already on disk, and
 tallies each one as downloaded, skipped or failed.

 `deg2num` (floating-point trigonometry) is a parameter: every property here
 holds whatever tile numbers it returns. The tile server is a function from
 tile to HTTP outcome, and the tiles folder is the set of tiles present.
 */
module TileDownload {

  /** deg2num(lat, lon, zoom) = (xtile, ytile). */
  type Deg2Num = (real, real, int) -> (int, int)

  datatype Bounds = Bounds(north: real, south: real, east: real, west: real)

  const TrailBounds: Bounds := Bounds(39.119012, 39.097729, -77.841725, -77.868256)

  const ZoomLevels: seq<int> := [14, 15, 16, 17, 18]

  /** Inclusive tile ranges: x_min..x_max and y_min..y_max. */
  datatype TileRange = TileRange(xMin: int, xMax: int, yMin: int, yMax: int)

  datatype Tile = Tile(z: int, x: int, y: int)

  /**
   What happens to a tile that is not on disk yet: `requests.get` answers
   with a status code or raises, or it answers 200 and the file is created
   but writing its content raises, which leaves a partial file behind.
   */
  datatype HttpOutcome = Status(code: int) | RequestFailed(reason: string) | WriteFailed(reason: string)
  {
    /** The outcome leaves a file at the tile's path, complete or partial. */
    predicate LeavesFile()
    {
      this == Status(200) || WriteFailed?
    }
  }

  /** The message download_tile returns beside its success flag. */
  datatype TileMsg = Exists | Downloaded | HttpError(code: int) | Failure(reason: string)

  datatype TileResult = TileResult(success: bool, msg: TileMsg)

  datatype Counters = Counters(downloaded: int, skipped: int, failed: int)

  function Min(a: int, b: int): int { if a <= b then a else b }

  function Max(a: int, b: int): int { if a <= b then b else a }

  // ---------------------------------------------------------------------------
  // Tile ranges and totals
  // ---------------------------------------------------------------------------

  /**
   get_tile_bounds: the smallest tile rectangle holding the north-west and
   south-east corner tiles, widened by one tile on each side.
   */
  function GetTileBounds(deg2num: Deg2Num, zoom: int, bounds: Bounds): (r: TileRange)
    ensures var nw := deg2num(bounds.north, bounds.west, zoom);
            var se := deg2num(bounds.south, bounds.east, zoom);
            && r.xMin + 1 <= nw.0 && r.xMin + 1 <= se.0 && (r.xMin + 1 == nw.0 || r.xMin + 1 == se.0)
            && r.xMax - 1 >= nw.0 && r.xMax - 1 >= se.0 && (r.xMax - 1 == nw.0 || r.xMax - 1 == se.0)
            && r.yMin + 1 <= nw.1 && r.yMin + 1 <= se.1 && (r.yMin + 1 == nw.1 || r.yMin + 1 == se.1)
            && r.yMax - 1 >= nw.1 && r.yMax - 1 >= se.1 && (r.yMax - 1 == nw.1 || r.yMax - 1 == se.1)
    ensures r.xMin + 2 <= r.xMax && r.yMin + 2 <= r.yMax
  {
    var nw := deg2num(bounds.north, bounds.west, zoom);
    var se := deg2num(bounds.south, bounds.east, zoom);
    var xMin, xMax := Min(nw.0, se.0), Max(nw.0, se.0);
    var yMin, yMax := Min(nw.1, se.1), Max(nw.1, se.1);
    TileRange(xMin - 1, xMax + 1, yMin - 1, yMax + 1)
  }

  function TileCount(r: TileRange): int
  {
    (r.xMax - r.xMin + 1) * (r.yMax - r.yMin + 1)
  }

  /** The number of tiles fetched for one zoom level of the trail's bounds. */
  function ZoomTileCount(deg2num: Deg2Num, zoom: int): int
  {
    TileCount(GetTileBounds(deg2num, zoom, TrailBounds))
  }

  /** Every zoom level asks for at least a 3 by 3 block of tiles. */
  lemma ZoomTileCountAtLeastNine(deg2num: Deg2Num, zoom: int)
    ensures ZoomTileCount(deg2num, zoom) >= 9
  {
  }

  /** The tiles needed over a list of zoom levels. */
  function TotalTiles(deg2num: Deg2Num, levels: seq<int>): int
  {
    if levels == [] then 0
    else TotalTiles(deg2num, levels[..|levels| - 1]) + ZoomTileCount(deg2num, levels[|levels| - 1])
  }

  /**
   The sum of the counts in a details list of (zoom, count) pairs. main prints
   `details` and `total` side by side, so calculate_totals promises that the
   total is the sum of the printed counts as well as the tiles the levels need.
   */
  function SumCounts(details: seq<(int, int)>): int
  {
    if details == [] then 0
    else SumCounts(details[..|details| - 1]) + details[|details| - 1].1
  }

  lemma {:induction false} TotalTilesAtLeast(deg2num: Deg2Num, levels: seq<int>)
    ensures TotalTiles(deg2num, levels) >= 9 * |levels|
  {
    if levels != [] {
      TotalTilesAtLeast(deg2num, levels[..|levels| - 1]);
      ZoomTileCountAtLeastNine(deg2num, levels[|levels| - 1]);
    }
  }

  /**
   calculate_totals: one (zoom, count) pair per zoom level, in order, and the
   total of the counts. main runs it over ZoomLevels.
   */
  method CalculateTotals(deg2num: Deg2Num, levels: seq<int>) returns (total: int, details: seq<(int, int)>)
    ensures |details| == |levels|
    ensures forall i :: 0 <= i < |details| ==> details[i] == (levels[i], ZoomTileCount(deg2num, levels[i]))
    ensures total == SumCounts(details)
    ensures total == TotalTiles(deg2num, levels)
  {
    total := 0;
    details := [];
    for i := 0 to |levels|
      invariant |details| == i
      invariant forall j :: 0 <= j < i ==> details[j] == (levels[j], ZoomTileCount(deg2num, levels[j]))
      invariant total == SumCounts(details)
      invariant total == TotalTiles(deg2num, levels[..i])
    {
      var zoom := levels[i];
      var r := GetTileBounds(deg2num, zoom, TrailBounds);
      var count := (r.xMax - r.xMin + 1) * (r.yMax - r.yMin + 1);
      ghost var previous := details;
      total := total + count;
      details := details + [(zoom, count)];
      assert details[..i] == previous;
      assert levels[..i + 1][..i] == levels[..i];
    }
    assert levels[..|levels|] == levels;
  }

  // ---------------------------------------------------------------------------
  // Downloading
  // ---------------------------------------------------------------------------

  /**
   download_tile: a tile already on disk is reported as existing and nothing
   is requested; otherwise the server's answer decides. A 200 writes the tile
   file; a write that raises part-way reports a failure yet leaves the file.
   */
  function DownloadTile(files: set<Tile>, t: Tile, server: HttpOutcome): (out: (TileResult, set<Tile>))
    ensures out.0.success <==> t in files || server == Status(200)
    ensures out.0.msg == Exists <==> t in files
    ensures out.0.msg == Downloaded <==> t !in files && server == Status(200)
    ensures out.1 == if server.LeavesFile() then files + {t} else files
  {
    if t in files then (TileResult(true, Exists), files)
    else match server
      case Status(code) =>
        if code == 200 then (TileResult(true, Downloaded), files + {t})
        else (TileResult(false, HttpError(code)), files)
      case RequestFailed(reason) => (TileResult(false, Failure(reason)), files)
      case WriteFailed(reason) => (TileResult(false, Failure(reason)), files + {t})
  }

  /**
   A tile whose write failed part-way is counted as failed, and the next run
   finds its partial file and skips it as existing.
   */
  lemma PartialFileLaterSkipped(files: set<Tile>, t: Tile, first: HttpOutcome, second: HttpOutcome)
    requires t !in files && first.WriteFailed?
    ensures !DownloadTile(files, t, first).0.success
    ensures DownloadTile(DownloadTile(files, t, first).1, t, second).0 == TileResult(true, Exists)
  {
  }

  function Handled(c: Counters): int
  {
    c.downloaded + c.skipped + c.failed
  }

  /** The tally in main's inner loop: every tile raises exactly one of the three counters by one. */
  function Tally(c: Counters, result: TileResult): (next: Counters)
    ensures Handled(next) == Handled(c) + 1
    ensures c.downloaded <= next.downloaded && c.skipped <= next.skipped && c.failed <= next.failed
    ensures next.skipped > c.skipped <==> result.success && result.msg == Exists
    ensures next.failed > c.failed <==> !result.success
  {
    if result.success then
      if result.msg == Exists then c.(skipped := c.skipped + 1)
      else c.(downloaded := c.downloaded + 1)
    else c.(failed := c.failed + 1)
  }

  predicate InRange(r: TileRange, t: Tile)
  {
    r.xMin <= t.x <= r.xMax && r.yMin <= t.y <= r.yMax
  }

  /** The tiles main plans to fetch: one rectangle per zoom level. */
  predicate Planned(deg2num: Deg2Num, levels: seq<int>, t: Tile)
  {
    t.z in levels && InRange(GetTileBounds(deg2num, t.z, TrailBounds), t)
  }

  /**
   The body of main's loop for one zoom level: every tile of the rectangle is
   visited once, so zoom_done ends equal to zoom_total and the counters grow
   by exactly that much; afterwards the folder holds what it held before plus
   every tile of the rectangle whose fetch left a file.
   */
  method DownloadZoom(deg2num: Deg2Num, zoom: int, files: set<Tile>, server: Tile -> HttpOutcome, before: Counters)
    returns (after: set<Tile>, counters: Counters, zoomDone: int)
    ensures zoomDone == ZoomTileCount(deg2num, zoom)
    ensures Handled(counters) == Handled(before) + zoomDone
    ensures before.downloaded <= counters.downloaded && before.skipped <= counters.skipped
    ensures before.failed <= counters.failed
    ensures forall t :: t in after <==>
      t in files || (t.z == zoom && InRange(GetTileBounds(deg2num, zoom, TrailBounds), t) && server(t).LeavesFile())
  {
    var r := GetTileBounds(deg2num, zoom, TrailBounds);
    var height := r.yMax - r.yMin + 1;
    after, counters, zoomDone := files, before, 0;
    var x := r.xMin;
    while x < r.xMax + 1
      invariant r.xMin <= x <= r.xMax + 1
      invariant zoomDone == (x - r.xMin) * height
      invariant Handled(counters) == Handled(before) + zoomDone
      invariant before.downloaded <= counters.downloaded && before.skipped <= counters.skipped
      invariant before.failed <= counters.failed
      invariant forall t :: t in after <==>
        t in files || (t.z == zoom && r.xMin <= t.x < x && r.yMin <= t.y <= r.yMax && server(t).LeavesFile())
    {
      var y := r.yMin;
      while y < r.yMax + 1
        invariant r.yMin <= y <= r.yMax + 1
        invariant zoomDone == (x - r.xMin) * height + (y - r.yMin)
        invariant Handled(counters) == Handled(before) + zoomDone
        invariant before.downloaded <= counters.downloaded && before.skipped <= counters.skipped
        invariant before.failed <= counters.failed
        invariant forall t :: t in after <==>
          t in files || (t.z == zoom && r.yMin <= t.y <= r.yMax && server(t).LeavesFile() &&
                         (r.xMin <= t.x < x || (t.x == x && t.y < y)))
      {
        var tile := Tile(zoom, x, y);
        var out := DownloadTile(after, tile, server(tile));
        after := out.1;
        counters := Tally(counters, out.0);
        zoomDone := zoomDone + 1;
        y := y + 1;
      }
      assert (x - r.xMin) * height + height == (x + 1 - r.xMin) * height;
      x := x + 1;
    }
  }

  lemma TotalTilesSnoc(deg2num: Deg2Num, levels: seq<int>, zoom: int, longer: seq<int>)
    requires longer == levels + [zoom]
    ensures TotalTiles(deg2num, longer) == TotalTiles(deg2num, levels) + ZoomTileCount(deg2num, zoom)
  {
    assert longer[..|levels|] == levels;
  }

  /** Downloading one more zoom level adds that level's rectangle to the planned tiles on disk. */
  lemma FolderSnoc(deg2num: Deg2Num, levels: seq<int>, zoom: int, longer: seq<int>, server: Tile -> HttpOutcome,
                   files: set<Tile>, before: set<Tile>, after: set<Tile>)
    requires longer == levels + [zoom]
    requires forall t :: t in before <==> t in files || (Planned(deg2num, levels, t) && server(t).LeavesFile())
    requires forall t :: t in after <==>
      t in before || (t.z == zoom && InRange(GetTileBounds(deg2num, zoom, TrailBounds), t) && server(t).LeavesFile())
    ensures forall t :: t in after <==> t in files || (Planned(deg2num, longer, t) && server(t).LeavesFile())
  {
    forall t
      ensures t in after <==> t in files || (Planned(deg2num, longer, t) && server(t).LeavesFile())
    {
      assert t.z in longer <==> t.z in levels || t.z == zoom;
    }
  }

  /**
   main's outer loop over a list of zoom levels: every planned tile of every
   level is visited once, so downloaded + skipped + failed grows by the total
   for those levels, and the folder gains exactly the planned tiles whose fetch
   left a file.
   */
  method DownloadLevels(deg2num: Deg2Num, levels: seq<int>, files: set<Tile>, server: Tile -> HttpOutcome,
                        before: Counters)
    returns (counters: Counters, after: set<Tile>)
    ensures Handled(counters) == Handled(before) + TotalTiles(deg2num, levels)
    ensures forall t :: t in after <==> t in files || (Planned(deg2num, levels, t) && server(t).LeavesFile())
  {
    counters, after := before, files;
    for i := 0 to |levels|
      invariant Handled(counters) == Handled(before) + TotalTiles(deg2num, levels[..i])
      invariant forall t :: t in after <==> t in files || (Planned(deg2num, levels[..i], t) && server(t).LeavesFile())
    {
      var zoomDone;
      ghost var previous := after;
      after, counters, zoomDone := DownloadZoom(deg2num, levels[i], after, server, counters);
      TotalTilesSnoc(deg2num, levels[..i], levels[i], levels[..i + 1]);
      FolderSnoc(deg2num, levels[..i], levels[i], levels[..i + 1], server, files, previous, after);
    }
    assert levels[..|levels|] == levels;
  }

  /**
   main after the confirmation prompt, over the zoom levels it is given (main
   passes ZoomLevels): totals from calculate_totals, then the download.
   Declining the prompt downloads nothing. On completion downloaded + skipped +
   failed is the total and the folder holds the planned tiles whose fetch left
   a file.
   */
  method RunDownload(deg2num: Deg2Num, levels: seq<int>, proceed: bool, files: set<Tile>, server: Tile -> HttpOutcome)
    returns (total: int, counters: Counters, after: set<Tile>)
    ensures total == TotalTiles(deg2num, levels)
    ensures !proceed ==> counters == Counters(0, 0, 0) && after == files
    ensures proceed ==> Handled(counters) == total
    ensures proceed ==> forall t :: t in after <==> t in files || (Planned(deg2num, levels, t) && server(t).LeavesFile())
  {
    var details;
    total, details := CalculateTotals(deg2num, levels);
    counters, after := Counters(0, 0, 0), files;
    if proceed {
      counters, after := DownloadLevels(deg2num, levels, files, server, counters);
    }
  }

  /** Over main's five zoom levels at least 45 tiles are requested. */
  lemma ZoomLevelsTotalAtLeast(deg2num: Deg2Num)
    ensures TotalTiles(deg2num, ZoomLevels) >= 45
  {
    TotalTilesAtLeast(deg2num, ZoomLevels);
  }
}
