/** The older reader of pixelstac/asset_reader.py: AssetReader.get_pix_window
    and the clipping and read assembly of AssetReader.read_roi.

    Unlike the newer ImageReader, the older reader takes the point's buffer
    as it is (no unit conversion), has no separate branch for a zero
    buffer, leaves clipping to read_roi, and never masks the ROI's shape.
    The older Point's x, y, CRS and buffer are those of DrillPoints.Point.
 */
module AssetReader {
  import opened Results
  import opened Geo
  import opened DrillPoints
  import opened PixelWindows
  import opened MaskedArrays
  import opened ImageReader

  /** AssetReader.get_pix_window: floor of the upper-left pixel coordinate
      of the ROI square, ceiling of the lower-right one, and the size as
      their difference, with no clipping. */
  function LegacyPixWindow(gt: GeoTransform, cx: real, cy: real, buffer: real): (w: Window)
    requires gt.Invertible()
    // all touched, unclipped: exactly the pixels whose interior meets the ROI square
    ensures forall col, row :: w.Holds(col, row) <==> Touches(gt, cx, cy, buffer, col, row)
    ensures w.xoff == Floor(RoiCorners(gt, cx, cy, buffer).0.0)
    ensures w.yoff == Floor(RoiCorners(gt, cx, cy, buffer).0.1)
  {
    var (ul, lr) := RoiCorners(gt, cx, cy, buffer);
    var (c0, cs) := CoverSpan(ul.0, lr.0);
    var (r0, rs) := CoverSpan(ul.1, lr.1);
    Window(c0, r0, cs, rs)
  }

  /** The clipping at the top of AssetReader.read_roi: the same `elif` rule
      as the newer reader, columns with `>` and rows with `>=`. */
  function LegacyClip(w: Window, ncols: nat, nrows: nat): (c: Window)
    ensures c.xoff >= 0 && c.yoff >= 0
    // a window that does not start left of (above) the image is cut to end
    // at the last column (row)
    ensures w.xoff >= 0 ==> c.xoff == w.xoff && c.xoff + c.xsize == Min(w.xoff + w.xsize, ncols)
    ensures w.yoff >= 0 ==> c.yoff == w.yoff && c.yoff + c.ysize == Min(w.yoff + w.ysize, nrows)
    // a window starting left of (above) the image is only cut there
    ensures w.xoff < 0 ==> c.xoff == 0 && c.xsize == w.xsize + w.xoff
    ensures w.yoff < 0 ==> c.yoff == 0 && c.ysize == w.ysize + w.yoff
  {
    var (xoff, xsize) := ClipColsAsWritten(w.xoff, w.xsize, ncols);
    var (yoff, ysize) := ClipRowsAsWritten(w.yoff, w.ysize, nrows);
    Window(xoff, yoff, xsize, ysize)
  }

  function Min(a: int, b: int): int { if a <= b then a else b }

  /** The window AssetReader.read_roi reads for a point: the point projected
      into the image's CRS, its raw buffer, and the clipping. */
  function LegacyRoiWindow(info: ImageInfo, p: Point, proj: Projection): (w: Window)
    requires info.transform.Invertible()
    ensures w.xoff >= 0 && w.yoff >= 0
  {
    var (cx, cy) := proj(p.crs, info.crs, p.x, p.y);
    LegacyClip(LegacyPixWindow(info.transform, cx, cy, p.buffer), info.ncols, info.nrows)
  }

  /** AssetReader.read_roi: the bands are read and masked only when the
      clipped window is not empty, the bounds come from the clipped window,
      and the array carries the asset id. A window reaching past the grid is
      a failed read. */
  function LegacyReadRoi(raster: Raster, p: Point, ignore: Option<real>, assetId: string,
                         proj: Projection): (r: Result<ArrayInfo>)
    requires raster.Valid()
    ensures r.Err? <==> (var w := LegacyRoiWindow(raster.info, p, proj);
                         w.NonEmpty() && !w.WithinGrid(raster.info.ncols, raster.info.nrows))
    ensures r.Ok? ==> r.value.Window() == LegacyRoiWindow(raster.info, p, proj)
    ensures r.Ok? ==> r.value.assetId == Some(assetId)
    ensures r.Ok? ==> (r.value.IsEmpty() <==> !r.value.Window().NonEmpty() || raster.info.rasterCount == 0)
    // the bounds are those of the clipped window
    ensures r.Ok? ==>
      (r.value.ulx, r.value.uly) == Pix2Wld(raster.info.transform, r.value.xoff as real, r.value.yoff as real)
  {
    var w := LegacyRoiWindow(raster.info, p, proj);
    var r := ReadArray(raster, w, ignore, Some(assetId));
    ReadArrayEmptyIff(raster, w, ignore, Some(assetId));
    r
  }

  /** An array read through a window is empty exactly when the window holds
      no pixel or the image has no band. */
  lemma ReadArrayEmptyIff(raster: Raster, w: Window, ignore: Option<real>, assetId: Option<string>)
    requires raster.Valid()
    ensures ReadArray(raster, w, ignore, assetId).Ok? ==>
            (ReadArray(raster, w, ignore, assetId).value.IsEmpty() <==>
             !w.NonEmpty() || raster.info.rasterCount == 0)
  {
    var r := ReadArray(raster, w, ignore, assetId);
    if r.Ok? && w.NonEmpty() {
      var ai := r.value;
      SizeOfShaped(ai.data, w.ysize, w.xsize);
      PositiveProduct(raster.info.rasterCount, w.ysize, w.xsize);
    }
  }

  lemma PositiveProduct(n: nat, h: int, w: int)
    requires h > 0 && w > 0
    ensures n * (h * w) == 0 <==> n == 0
  {
    if n > 0 {
      assert h * w >= 1;
      assert n * (h * w) >= h * w;
    }
  }

  /** For a positive buffer already in the image's units, the older and the
      newer reader ask for the same window: the newer one only moves the
      clipping into get_pix_window. */
  lemma LegacyWindowMatchesImageReader(info: ImageInfo, p: Point, proj: Projection)
    requires info.transform.Invertible()
    requires p.buffer > 0.0 && ChangeBufferUnits(p, info.crs, proj, AsWritten) == Ok(p.buffer)
    ensures GetPixWindowAsWritten(info, p, proj) == Ok(LegacyRoiWindow(info, p, proj))
  {
  }

  /** For a square ROI with a positive buffer in the image's units, the older
      read_roi returns what the newer one as written returns, up to the asset
      id it records. */
  lemma LegacyReadRoiMatchesImageReader(raster: Raster, p: Point, ignore: Option<real>,
                                        assetId: string, proj: Projection)
    requires raster.Valid()
    requires p.shape == Square
    requires p.buffer > 0.0 && ChangeBufferUnits(p, raster.info.crs, proj, AsWritten) == Ok(p.buffer)
    ensures ReadRoiAsWritten(raster, p, ignore, Some(assetId), proj) ==
            LegacyReadRoi(raster, p, ignore, assetId, proj)
  {
    LegacyWindowMatchesImageReader(raster.info, p, proj);
  }

  /** A ROI overhanging both sides of the image: the older reader also asks
      for 11 columns of a 10-column image. */
  lemma LegacyReadRoiFailsOnWideRoi()
    ensures LegacyRoiWindow(SmallRaster(1).info, PointAt(50.0, 50.0, 60.0, Square), Unprojected())
            == Window(0, 0, 11, 11)
    ensures LegacyReadRoi(SmallRaster(1), PointAt(50.0, 50.0, 60.0, Square), None, "B02", Unprojected())
            == Err(RasterIo("small.tif"))
  {
    assert Floor(-1.0) == -1 && Ceil(11.0) == 11;
  }

  /** The worked examples of the older test suite: the 50 m ROI on the 10 m
      and the 20 m grids of the Sentinel-2 tile with origin (600000, 6000040). */
  lemma LegacySentinelWindows()
    ensures LegacyPixWindow(GeoTransform(600000.0, 10.0, 6000040.0, -10.0),
                            634335.0, 5959545.0, 50.0) == Window(3428, 4044, 11, 11)
    ensures LegacyPixWindow(GeoTransform(600000.0, 20.0, 6000040.0, -20.0),
                            634335.0, 5959545.0, 50.0) == Window(1714, 2022, 6, 6)
  {
    assert Floor(3428.5) == 3428 && Ceil(3438.5) == 3439;
    assert Floor(4044.5) == 4044 && Ceil(4054.5) == 4055;
    assert Floor(1714.25) == 1714 && Ceil(1719.25) == 1720;
    assert Floor(2022.25) == 2022 && Ceil(2027.25) == 2028;
  }

  /** The older ImageInfo's extents for the tile of the older test suite. */
  lemma LegacyTileExtent()
    ensures var info := MakeImageInfo(GeoTransform(399960.0, 10.0, 6000040.0, -10.0),
                                      10980, 10980, 1, Crs(Epsg(32754), Projected), [Some(0.0)]);
            info.xMin == 399960.0 && info.xMax == 509760.0 &&
            info.yMin == 5890240.0 && info.yMax == 6000040.0 && info.yRes == 10.0
  {
  }
}
