/** The pixel window that covers a point's region of interest
    (ImageReader.get_pix_window in pixdrill/image_reader.py).

    Along each axis a window is the half-open span of pixel indices
    [off, off + size). The window is the smallest one holding every pixel
    whose interior meets the ROI square ("all touched"), clipped to the
    image's grid.
 */
module PixelWindows {
  import opened Results
  import opened Geo
  import opened DrillPoints

  /** (xoff, yoff, win_xsize, win_ysize); a size of zero or less means no
      pixel is read. */
  datatype Window = Window(xoff: int, yoff: int, xsize: int, ysize: int)
  {
    predicate NonEmpty() { xsize > 0 && ysize > 0 }

    predicate WithinGrid(ncols: nat, nrows: nat) {
      0 <= xoff && 0 <= yoff && xoff + xsize <= ncols && yoff + ysize <= nrows
    }

    /** Pixel (col, row) is read. */
    predicate Holds(col: int, row: int) {
      InSpan(col, xoff, xsize) && InSpan(row, yoff, ysize)
    }
  }

  predicate InSpan(k: int, off: int, size: int) { off <= k < off + size }

  /** The pixels, along one axis, whose interior (k, k+1) meets the closed
      pixel-coordinate interval [lo, hi]: floor of the lower end to ceiling
      of the upper end. */
  function CoverSpan(lo: real, hi: real): (s: (int, int))
    ensures forall k :: InSpan(k, s.0, s.1) <==> lo < (k + 1) as real && (k as real) < hi
  {
    (Floor(lo), Ceil(hi) - Floor(lo))
  }

  /** Clipping along one axis, corrected: cut the part before 0 and then the
      part after n, so that exactly the in-grid pixels remain. */
  function ClipSpan(off: int, size: int, n: nat): (s: (int, int))
    ensures forall k :: InSpan(k, s.0, s.1) <==> InSpan(k, off, size) && 0 <= k < n
    ensures s.0 >= 0
    ensures s.1 > 0 ==> s.0 + s.1 <= n
  {
    var (o, z) := if off < 0 then (0, size + off) else (off, size);
    if o + z > n then (o, n - o) else (o, z)
  }

  /** Column clipping as image_reader.py writes it: the right-hand cut sits
      in an `elif` of the left-hand one. */
  function ClipColsAsWritten(off: int, size: int, n: nat): (s: (int, int))
    ensures s.0 >= 0
    ensures !(off < 0 && off + size > n) ==> s == ClipSpan(off, size, n)
  {
    if off < 0 then (0, size + off)
    else if off + size > n then (off, n - off)
    else (off, size)
  }

  /** Row clipping as written: the same `elif`, with `>=` in place of `>`. */
  function ClipRowsAsWritten(off: int, size: int, n: nat): (int, int)
  {
    if off < 0 then (0, size + off)
    else if off + size >= n then (off, n - off)
    else (off, size)
  }

  /** The `>=` in the row test makes no difference: at equality both
      branches give the same window. */
  lemma ClipRowsAsWrittenAgreesWithCols(off: int, size: int, n: nat)
    ensures ClipRowsAsWritten(off, size, n) == ClipColsAsWritten(off, size, n)
  {
  }

  /** A window overhanging both the left and the right edge is only cut on
      the left, and then reaches past the last column. */
  lemma ClipColsAsWrittenOverhangs()
    ensures ClipColsAsWritten(-1, 12, 10) == (0, 11)
    ensures ClipSpan(-1, 12, 10) == (0, 10)
    ensures InSpan(10, 0, 11) && !(10 < 10)
  {
  }

  /** The single pixel read for a ROI that is a point (buffer <= 0),
      corrected: the pixel holding (px, py), provided it is in the grid. */
  function SinglePixel(px: real, py: real, ncols: nat, nrows: nat): (w: Window)
    ensures w.xoff == Floor(px) && w.yoff == Floor(py)
    ensures w.NonEmpty() <==> 0.0 <= px < ncols as real && 0.0 <= py < nrows as real
    ensures w.NonEmpty() ==> w.xsize == 1 && w.ysize == 1 && w.WithinGrid(ncols, nrows)
    ensures !w.NonEmpty() ==> w.xsize == 0 && w.ysize == 0
  {
    var c := Floor(px);
    var r := Floor(py);
    if 0 <= c < ncols && 0 <= r < nrows then Window(c, r, 1, 1) else Window(c, r, 0, 0)
  }

  /** The single pixel as written: `ul_px <= ncols` and `ul_py <= nrows`
      also accept the column just past the right edge and the row just past
      the bottom edge. */
  function SinglePixelAsWritten(px: real, py: real, ncols: nat, nrows: nat): (w: Window)
    ensures (0.0 <= px < ncols as real && 0.0 <= py < nrows as real) ==>
              w == SinglePixel(px, py, ncols, nrows)
  {
    var c := Floor(px);
    var r := Floor(py);
    if c >= 0 && c <= ncols && r >= 0 && r <= nrows then Window(c, r, 1, 1)
    else Window(c, r, 0, 0)
  }

  /** A point on the east edge of a 10 x 10 grid gets a 1 x 1 window in
      column 10, which does not exist. */
  lemma SinglePixelAsWrittenOutsideGrid()
    ensures SinglePixelAsWritten(10.0, 5.5, 10, 10) == Window(10, 5, 1, 1)
    ensures !Window(10, 5, 1, 1).WithinGrid(10, 10)
    ensures !SinglePixel(10.0, 5.5, 10, 10).NonEmpty()
  {
  }

  /** The pixel-coordinate corners of the ROI square of half-width `buffer`
      around the map coordinate (cx, cy). */
  function RoiCorners(gt: GeoTransform, cx: real, cy: real, buffer: real)
    : ((real, real), (real, real))
    requires gt.Invertible()
  {
    (Wld2Pix(gt, cx - buffer, cy + buffer), Wld2Pix(gt, cx + buffer, cy - buffer))
  }

  /** Pixel (col, row)'s interior meets the ROI square. */
  predicate Touches(gt: GeoTransform, cx: real, cy: real, buffer: real, col: int, row: int)
    requires gt.Invertible()
  {
    var (ul, lr) := RoiCorners(gt, cx, cy, buffer);
    ul.0 < (col + 1) as real && (col as real) < lr.0 &&
    ul.1 < (row + 1) as real && (row as real) < lr.1
  }

  /** The window of get_pix_window for a map coordinate (cx, cy) already in
      the image's CRS and a buffer already in the image's units, with the
      corrected clipping and single-pixel test. */
  function PixWindow(gt: GeoTransform, ncols: nat, nrows: nat,
                     cx: real, cy: real, buffer: real): (w: Window)
    requires gt.Invertible()
    // every window that reads something lies in the grid
    ensures w.NonEmpty() ==> w.WithinGrid(ncols, nrows)
    // all touched: exactly the in-grid pixels the ROI square meets
    ensures buffer > 0.0 ==> forall col, row :: w.Holds(col, row) <==>
      Touches(gt, cx, cy, buffer, col, row) && 0 <= col < ncols && 0 <= row < nrows
    // a point ROI reads the one pixel holding it, when that is in the grid
    ensures buffer <= 0.0 ==> w == SinglePixel(Wld2Pix(gt, cx, cy).0, Wld2Pix(gt, cx, cy).1, ncols, nrows)
  {
    if buffer > 0.0 then
      var (ul, lr) := RoiCorners(gt, cx, cy, buffer);
      var (c0, cs) := CoverSpan(ul.0, lr.0);
      var (r0, rs) := CoverSpan(ul.1, lr.1);
      var (xoff, xsize) := ClipSpan(c0, cs, ncols);
      var (yoff, ysize) := ClipSpan(r0, rs, nrows);
      Window(xoff, yoff, xsize, ysize)
    else
      var (px, py) := Wld2Pix(gt, cx, cy);
      SinglePixel(px, py, ncols, nrows)
  }

  /** get_pix_window exactly as written, with the `elif` clipping and the
      inclusive single-pixel test. */
  function PixWindowAsWritten(gt: GeoTransform, ncols: nat, nrows: nat,
                              cx: real, cy: real, buffer: real): (w: Window)
    requires gt.Invertible()
    ensures buffer <= 0.0 && 0.0 <= Wld2Pix(gt, cx, cy).0 < ncols as real
            && 0.0 <= Wld2Pix(gt, cx, cy).1 < nrows as real
            ==> w == PixWindow(gt, ncols, nrows, cx, cy, buffer)
  {
    if buffer > 0.0 then
      var (ul, lr) := RoiCorners(gt, cx, cy, buffer);
      var (c0, cs) := CoverSpan(ul.0, lr.0);
      var (r0, rs) := CoverSpan(ul.1, lr.1);
      var (xoff, xsize) := ClipColsAsWritten(c0, cs, ncols);
      var (yoff, ysize) := ClipRowsAsWritten(r0, rs, nrows);
      Window(xoff, yoff, xsize, ysize)
    else
      var (px, py) := Wld2Pix(gt, cx, cy);
      SinglePixelAsWritten(px, py, ncols, nrows)
  }

  /** When the ROI does not overhang two opposite edges, the written window
      and the corrected one coincide. */
  lemma PixWindowAsWrittenAgrees(gt: GeoTransform, ncols: nat, nrows: nat,
                                 cx: real, cy: real, buffer: real)
    requires gt.Invertible() && buffer > 0.0
    requires var (ul, lr) := RoiCorners(gt, cx, cy, buffer);
             !(Floor(ul.0) < 0 && Ceil(lr.0) > ncols) && !(Floor(ul.1) < 0 && Ceil(lr.1) > nrows)
    ensures PixWindowAsWritten(gt, ncols, nrows, cx, cy, buffer) == PixWindow(gt, ncols, nrows, cx, cy, buffer)
  {
    var (ul, lr) := RoiCorners(gt, cx, cy, buffer);
    ClipRowsAsWrittenAgreesWithCols(Floor(ul.1), Ceil(lr.1) - Floor(ul.1), nrows);
  }

  /** A 10 x 10 grid of 10 m pixels and a ROI of half-width 60 m around its
      centre: the written window reads 11 columns and 11 rows. */
  lemma PixWindowAsWrittenPastGrid()
    ensures PixWindowAsWritten(GeoTransform(0.0, 10.0, 100.0, -10.0), 10, 10, 50.0, 50.0, 60.0)
            == Window(0, 0, 11, 11)
    ensures PixWindow(GeoTransform(0.0, 10.0, 100.0, -10.0), 10, 10, 50.0, 50.0, 60.0)
            == Window(0, 0, 10, 10)
  {
    assert Floor(-1.0) == -1 && Ceil(11.0) == 11;
  }

  /** ImageReader.get_pix_window: project the point into the image's CRS,
      convert its buffer to the image's units, and take the window. */
  function GetPixWindow(info: ImageInfo, p: Point, proj: Projection): (r: Result<Window>)
    requires info.transform.Invertible()
    ensures r.Err? <==> ChangeBufferUnits(p, info.crs, proj, Corrected).Err?
    ensures r.Err? ==> r.error == ChangeBufferUnits(p, info.crs, proj, Corrected).error
    ensures r.Ok? && r.value.NonEmpty() ==> r.value.WithinGrid(info.ncols, info.nrows)
    ensures r.Ok? ==> var c := proj(p.crs, info.crs, p.x, p.y);
      r.value == PixWindow(info.transform, info.ncols, info.nrows, c.0, c.1,
                           ChangeBufferUnits(p, info.crs, proj, Corrected).value)
  {
    var buffer :- ChangeBufferUnits(p, info.crs, proj, Corrected);
    var (cx, cy) := proj(p.crs, info.crs, p.x, p.y);
    Ok(PixWindow(info.transform, info.ncols, info.nrows, cx, cy, buffer))
  }

  /** get_pix_window as written: the buffer converted with the truncating
      zone rule, and the window of PixWindowAsWritten. */
  function GetPixWindowAsWritten(info: ImageInfo, p: Point, proj: Projection): (r: Result<Window>)
    requires info.transform.Invertible()
    ensures r.Err? <==> ChangeBufferUnits(p, info.crs, proj, AsWritten).Err?
    ensures r.Err? ==> r.error == ChangeBufferUnits(p, info.crs, proj, AsWritten).error
    ensures r.Ok? ==> r.value.xoff >= 0 || !r.value.NonEmpty()
  {
    var buffer :- ChangeBufferUnits(p, info.crs, proj, AsWritten);
    var (cx, cy) := proj(p.crs, info.crs, p.x, p.y);
    Ok(PixWindowAsWritten(info.transform, info.ncols, info.nrows, cx, cy, buffer))
  }

  /** get_pix_window as written gives the corrected answer when the two
      zone rules convert the buffer alike and the window is none of the
      defective cases: a positive buffer whose ROI overhangs no two opposite
      edges, or a zero buffer whose point lies inside the grid. */
  lemma GetPixWindowAsWrittenAgrees(info: ImageInfo, p: Point, proj: Projection)
    requires info.transform.Invertible()
    requires ChangeBufferUnits(p, info.crs, proj, AsWritten) == ChangeBufferUnits(p, info.crs, proj, Corrected)
    requires ChangeBufferUnits(p, info.crs, proj, AsWritten).Ok? ==>
      var c := proj(p.crs, info.crs, p.x, p.y);
      var b := ChangeBufferUnits(p, info.crs, proj, AsWritten).value;
      if b > 0.0 then
        var (ul, lr) := RoiCorners(info.transform, c.0, c.1, b);
        !(Floor(ul.0) < 0 && Ceil(lr.0) > info.ncols) && !(Floor(ul.1) < 0 && Ceil(lr.1) > info.nrows)
      else
        var px := Wld2Pix(info.transform, c.0, c.1);
        0.0 <= px.0 < info.ncols as real && 0.0 <= px.1 < info.nrows as real
    ensures GetPixWindowAsWritten(info, p, proj) == GetPixWindow(info, p, proj)
  {
    var cb := ChangeBufferUnits(p, info.crs, proj, AsWritten);
    if cb.Ok? && cb.value > 0.0 {
      var c := proj(p.crs, info.crs, p.x, p.y);
      PixWindowAsWrittenAgrees(info.transform, info.ncols, info.nrows, c.0, c.1, cb.value);
    }
  }

  /** The worked example of the test suite: a 50 m square ROI centred at
      (634335, 5959545) on the 10 m and on the 20 m grid of a Sentinel-2
      tile with origin (600000, 6000040). */
  lemma SentinelWindows()
    ensures PixWindow(GeoTransform(600000.0, 10.0, 6000040.0, -10.0), 10980, 10980,
                      634335.0, 5959545.0, 50.0) == Window(3428, 4044, 11, 11)
    ensures PixWindow(GeoTransform(600000.0, 20.0, 6000040.0, -20.0), 5490, 5490,
                      634335.0, 5959545.0, 50.0) == Window(1714, 2022, 6, 6)
  {
    assert Floor(3428.5) == 3428 && Ceil(3438.5) == 3439;
    assert Floor(4044.5) == 4044 && Ceil(4054.5) == 4055;
    assert Floor(1714.25) == 1714 && Ceil(1719.25) == 1720;
    assert Floor(2022.25) == 2022 && Ceil(2027.25) == 2028;
  }
}
