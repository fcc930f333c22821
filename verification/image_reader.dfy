/** Reading the pixels around a point (ImageReader.read_roi and
    ImageReader.mask_roi_shape in pixdrill/image_reader.py).

    The opened GDAL dataset is a `Raster`: its metadata and a function from
    (band, row, column) to the stored value. Reading a window that is not
    inside the pixel grid is GDAL's "access window out of range"
    RuntimeError, `Err(RasterIo(path))`.
 */
module ImageReader {
  import opened Results
  import opened Geo
  import opened DrillPoints
  import opened PixelWindows
  import opened MaskedArrays

  datatype Raster = Raster(path: string, info: ImageInfo, pixel: (int, int, int) -> real)
  {
    ghost predicate Valid() { info.Valid() }
  }

  /** gdal.Open on a path: the raster, or None for GDAL's RuntimeError. */
  type Opener = string -> Option<Raster>

  /** Every raster the opener returns is a well-formed north-up image. */
  ghost predicate OpensValid(open: Opener) {
    forall path :: open(path).Some? ==> open(path).value.Valid()
  }

  /** The array read around one point for one asset, with its provenance. */
  datatype ArrayInfo = ArrayInfo(
    data: MaskedArray, assetId: Option<string>,
    xoff: int, yoff: int, winXsize: int, winYsize: int,
    ulx: real, uly: real, lrx: real, lry: real,
    xRes: real, yRes: real)
  {
    /** ArrayInfo.isempty. */
    predicate IsEmpty() { Size(data) == 0 }

    function Window(): Window { PixelWindows.Window(xoff, yoff, winXsize, winYsize) }
  }

  /** band.ReadAsArray(xoff, yoff, win_xsize, win_ysize) for band `b`
      (0-based). */
  function ReadBand(raster: Raster, b: int, w: Window): (r: Result<seq<seq<real>>>)
    requires w.NonEmpty()
    ensures r.Ok? <==> w.WithinGrid(raster.info.ncols, raster.info.nrows)
    ensures r.Err? ==> r.error == RasterIo(raster.path)
    ensures r.Ok? ==> |r.value| == w.ysize
    ensures r.Ok? ==> forall i :: 0 <= i < w.ysize ==> |r.value[i]| == w.xsize
    ensures r.Ok? ==> forall i, j :: 0 <= i < w.ysize && 0 <= j < w.xsize ==>
      r.value[i][j] == raster.pixel(b, w.yoff + i, w.xoff + j)
  {
    if w.WithinGrid(raster.info.ncols, raster.info.nrows) then
      Ok(seq(w.ysize, i => seq(w.xsize, j => raster.pixel(b, w.yoff + i, w.xoff + j))))
    else
      Err(RasterIo(raster.path))
  }

  /** The per-band loop of read_roi: every band read and masked with its own
      null value (ignore_val when truthy, else the band's no-data value). */
  function ReadBands(raster: Raster, w: Window, ignore: Option<real>): (r: Result<MaskedArray>)
    requires raster.Valid() && w.NonEmpty()
    ensures r.Ok? <==> w.WithinGrid(raster.info.ncols, raster.info.nrows)
    ensures r.Err? ==> r.error == RasterIo(raster.path)
    ensures r.Ok? ==> |r.value| == raster.info.rasterCount && Shaped(r.value, w.ysize, w.xsize)
    ensures r.Ok? ==> forall b, i, j :: 0 <= b < |r.value| && 0 <= i < w.ysize && 0 <= j < w.xsize ==>
      var v := raster.pixel(b, w.yoff + i, w.xoff + j);
      var nodata := EffectiveNodata(ignore, raster.info.nodata[b]);
      r.value[b][i][j] == Pixel(v, nodata.Some? && v == nodata.value)
  {
    if w.WithinGrid(raster.info.ncols, raster.info.nrows) then
      Ok(seq(raster.info.rasterCount, b requires 0 <= b < raster.info.rasterCount =>
        MaskBand(ReadBand(raster, b, w).value, EffectiveNodata(ignore, raster.info.nodata[b]))))
    else
      Err(RasterIo(raster.path))
  }

  /** A pixel corner, `lower` and `right` in {0, 1}, lies strictly outside the
      circle: its squared distance from the centre exceeds radius squared. */
  predicate CornerOutside(ai: ArrayInfo, cx: real, cy: real, radius: real,
                          i: int, j: int, lower: int, right: int)
  {
    CornerDistance2(ai.ulx, ai.uly, ai.xRes, ai.yRes, cx, cy, i + lower, j + right) > radius * radius
  }

  /** The squared distance from the circle's centre to the grid point at
      row `row` and column `col` of the array: rows run down from uly,
      columns right from ulx. */
  function CornerDistance2(ulx: real, uly: real, xRes: real, yRes: real,
                           cx: real, cy: real, row: int, col: int): real
  {
    var y := uly - row as real * yRes;
    var x := ulx + col as real * xRes;
    (y - cy) * (y - cy) + (x - cx) * (x - cx)
  }

  /** Pixel (i, j) of the array is excluded from the circle: all four of its
      corners lie outside. */
  predicate PixelOutside(ai: ArrayInfo, cx: real, cy: real, radius: real, i: int, j: int) {
    CornerOutside(ai, cx, cy, radius, i, j, 0, 0) && CornerOutside(ai, cx, cy, radius, i, j, 0, 1) &&
    CornerOutside(ai, cx, cy, radius, i, j, 1, 0) && CornerOutside(ai, cx, cy, radius, i, j, 1, 1)
  }

  /** The circle mask: excluded pixels take the band's null value, where it
      has one, and are masked; the others are untouched. */
  function MaskOutside(ai: ArrayInfo, cx: real, cy: real, radius: real,
                       nodata: seq<Option<real>>): (a: MaskedArray)
    requires |nodata| >= |ai.data|
    ensures |a| == |ai.data|
    ensures forall b :: 0 <= b < |a| ==> |a[b]| == |ai.data[b]|
    ensures forall b, i :: 0 <= b < |a| && 0 <= i < |a[b]| ==> |a[b][i]| == |ai.data[b][i]|
    ensures forall b, i, j :: 0 <= b < |a| && 0 <= i < |a[b]| && 0 <= j < |a[b][i]| ==>
      a[b][i][j] == (if PixelOutside(ai, cx, cy, radius, i, j) then
                       Pixel(if nodata[b].Some? then nodata[b].value else ai.data[b][i][j].value, true)
                     else ai.data[b][i][j])
  {
    seq(|ai.data|, b requires 0 <= b < |ai.data| =>
      seq(|ai.data[b]|, i requires 0 <= i < |ai.data[b]| =>
        seq(|ai.data[b][i]|, j requires 0 <= j < |ai.data[b][i]| =>
          if PixelOutside(ai, cx, cy, radius, i, j) then
            Pixel(if nodata[b].Some? then nodata[b].value else ai.data[b][i][j].value, true)
          else ai.data[b][i][j])))
  }

  /** The null value each band uses when the circle mask is applied. */
  function BandNodata(raster: Raster, ignore: Option<real>): (n: seq<Option<real>>)
    ensures |n| == |raster.info.nodata|
    ensures forall b :: 0 <= b < |n| ==> n[b] == EffectiveNodata(ignore, raster.info.nodata[b])
  {
    seq(|raster.info.nodata|, b requires 0 <= b < |raster.info.nodata| =>
      EffectiveNodata(ignore, raster.info.nodata[b]))
  }

  /** ImageReader.mask_roi_shape. */
  function MaskRoiShape(raster: Raster, p: Point, ai: ArrayInfo, ignore: Option<real>,
                        proj: Projection, v: Variant): (r: Result<ArrayInfo>)
    requires |ai.data| <= |raster.info.nodata|
    // a square ROI is left as read
    ensures p.shape == Square ==> r == Ok(ai)
    // a circle needs at least 5 elements; any other shape is refused
    ensures p.shape == Circle && Size(ai.data) < 5 ==> r == Err(TooFewPixels)
    ensures p.shape.OtherShape? ==> r == Err(UnknownShape(p.shape.name))
    ensures p.shape == Circle && Size(ai.data) >= 5 ==>
      (r.Err? <==> ChangeBufferUnits(p, raster.info.crs, proj, v).Err?)
    // only the data changes, and only at excluded pixels
    ensures r.Ok? ==> r.value == ai.(data := r.value.data)
    ensures r.Ok? && p.shape == Circle ==>
      var radius := ChangeBufferUnits(p, raster.info.crs, proj, v).value;
      var c := proj(p.crs, raster.info.crs, p.x, p.y);
      var a := r.value.data;
      |a| == |ai.data| &&
      forall b, i, j :: 0 <= b < |a| && 0 <= i < |a[b]| && 0 <= j < |a[b][i]| ==>
        |a[b]| == |ai.data[b]| && |a[b][i]| == |ai.data[b][i]| &&
        (PixelOutside(ai, c.0, c.1, radius, i, j) ==>
           (a[b][i][j].masked &&
            a[b][i][j].value == (var n := EffectiveNodata(ignore, raster.info.nodata[b]);
                                 if n.Some? then n.value else ai.data[b][i][j].value))) &&
        (!PixelOutside(ai, c.0, c.1, radius, i, j) ==> a[b][i][j] == ai.data[b][i][j])
  {
    match p.shape
    case Square => Ok(ai)
    case Circle =>
      if Size(ai.data) < 5 then Err(TooFewPixels)
      else
        var radius :- ChangeBufferUnits(p, raster.info.crs, proj, v);
        var (cx, cy) := proj(p.crs, raster.info.crs, p.x, p.y);
        Ok(ai.(data := MaskOutside(ai, cx, cy, radius, BandNodata(raster, ignore))))
    case OtherShape(name) => Err(UnknownShape(name))
  }

  /** Masking again changes nothing: the excluded pixels depend on the
      window, not on the data. */
  lemma MaskOutsideIdempotent(ai: ArrayInfo, cx: real, cy: real, radius: real,
                              nodata: seq<Option<real>>)
    requires |nodata| >= |ai.data|
    ensures var once := ai.(data := MaskOutside(ai, cx, cy, radius, nodata));
            MaskOutside(once, cx, cy, radius, nodata) == once.data
  {
    var once := ai.(data := MaskOutside(ai, cx, cy, radius, nodata));
    var twice := MaskOutside(once, cx, cy, radius, nodata);
    forall b | 0 <= b < |twice| ensures twice[b] == once.data[b] {
      forall i | 0 <= i < |twice[b]| ensures twice[b][i] == once.data[b][i] {
        forall j | 0 <= j < |twice[b][i]| ensures twice[b][i][j] == once.data[b][i][j] {
          SameCorners(once, ai, cx, cy, radius, i, j);
        }
      }
    }
  }

  /** Arrays read at the same place are masked at the same pixels. */
  lemma SameCorners(a1: ArrayInfo, a2: ArrayInfo, cx: real, cy: real, radius: real, i: int, j: int)
    requires a1.ulx == a2.ulx && a1.uly == a2.uly && a1.xRes == a2.xRes && a1.yRes == a2.yRes
    ensures PixelOutside(a1, cx, cy, radius, i, j) == PixelOutside(a2, cx, cy, radius, i, j)
  {
  }

  /** mask_roi_shape applied to its own result changes nothing. */
  lemma MaskRoiShapeIdempotent(raster: Raster, p: Point, ai: ArrayInfo, ignore: Option<real>,
                               proj: Projection, v: Variant)
    requires |ai.data| <= |raster.info.nodata|
    requires MaskRoiShape(raster, p, ai, ignore, proj, v).Ok?
    ensures var once := MaskRoiShape(raster, p, ai, ignore, proj, v).value;
            MaskRoiShape(raster, p, once, ignore, proj, v) == Ok(once)
  {
    if p.shape == Circle {
      var radius := ChangeBufferUnits(p, raster.info.crs, proj, v).value;
      var (cx, cy) := proj(p.crs, raster.info.crs, p.x, p.y);
      var nodata := BandNodata(raster, ignore);
      var once := ai.(data := MaskOutside(ai, cx, cy, radius, nodata));
      SameShapeSameSize(once.data, ai.data);
      MaskOutsideIdempotent(ai, cx, cy, radius, nodata);
    }
  }

  /** Arrays with the same nesting of lengths have the same size. */
  lemma {:induction false} SameShapeSameSize(a: MaskedArray, c: MaskedArray)
    requires |a| == |c|
    requires forall b :: 0 <= b < |a| ==> |a[b]| == |c[b]|
    requires forall b, i :: 0 <= b < |a| && 0 <= i < |a[b]| ==> |a[b][i]| == |c[b][i]|
    ensures Size(a) == Size(c)
  {
    if a != [] {
      FlattenSameLength(a[0], c[0]);
      SameShapeSameSize(a[1..], c[1..]);
    }
  }

  lemma {:induction false} FlattenSameLength<T>(s: seq<seq<T>>, t: seq<seq<T>>)
    requires |s| == |t|
    requires forall i :: 0 <= i < |s| ==> |s[i]| == |t[i]|
    ensures |Flatten(s)| == |Flatten(t)|
  {
    if s != [] {
      FlattenSameLength(s[1..], t[1..]);
    }
  }

  /** A larger circle never excludes a pixel a smaller one keeps. */
  lemma PixelOutsideShrinks(ai: ArrayInfo, cx: real, cy: real, r1: real, r2: real, i: int, j: int)
    requires 0.0 <= r1 <= r2
    requires PixelOutside(ai, cx, cy, r2, i, j)
    ensures PixelOutside(ai, cx, cy, r1, i, j)
  {
    SquareMonotone(r1, r2);
  }

  lemma SquareMonotone(r1: real, r2: real)
    requires 0.0 <= r1 <= r2
    ensures r1 * r1 <= r2 * r2
  {
    assert r1 * r1 <= r1 * r2;
    assert r1 * r2 <= r2 * r2;
  }

  /** Whether read_roi goes on to mask the ROI's shape, corrected: the
      window holds more than four pixels, whatever the number of bands. */
  predicate ShapeGate(ai: ArrayInfo) {
    ai.winXsize > 0 && ai.winYsize > 0 && ai.winXsize * ai.winYsize > 4
  }

  /** The gate as written, `arr_info.data.size > 4`: it counts elements,
      bands included. */
  predicate ShapeGateAsWritten(ai: ArrayInfo) {
    Size(ai.data) > 4
  }

  /** On a single-band array of the window's shape the two gates agree. */
  lemma ShapeGatesAgreeOnOneBand(ai: ArrayInfo)
    requires ai.winXsize > 0 && ai.winYsize > 0
    requires |ai.data| == 1 && Shaped(ai.data, ai.winYsize, ai.winXsize)
    ensures ShapeGate(ai) <==> ShapeGateAsWritten(ai)
  {
    SizeOfShaped(ai.data, ai.winYsize, ai.winXsize);
  }

  /** Past the corrected gate, a circle always has the elements it needs:
      mask_roi_shape cannot fail for too few pixels. */
  lemma ShapeGateEnoughPixels(ai: ArrayInfo, bands: nat)
    requires bands >= 1 && ShapeGate(ai)
    requires |ai.data| == bands && Shaped(ai.data, ai.winYsize, ai.winXsize)
    ensures Size(ai.data) >= 5
  {
    SizeOfShaped(ai.data, ai.winYsize, ai.winXsize);
    assert bands * (ai.winYsize * ai.winXsize) >= ai.winYsize * ai.winXsize;
  }

  /** The read part of read_roi for a given window: the map bounds of the
      window's corners, and the masked bands when the window is not empty,
      else the empty array. */
  function ReadArray(raster: Raster, w: Window, ignore: Option<real>,
                     assetId: Option<string>): (r: Result<ArrayInfo>)
    requires raster.Valid()
    ensures r.Err? <==> w.NonEmpty() && !w.WithinGrid(raster.info.ncols, raster.info.nrows)
    ensures r.Err? ==> r.error == RasterIo(raster.path)
    ensures r.Ok? ==> r.value.Window() == w && r.value.assetId == assetId
    // the bounds are the map coordinates of the window's outer corners
    ensures r.Ok? ==> (r.value.ulx, r.value.uly) == Pix2Wld(raster.info.transform, w.xoff as real, w.yoff as real)
    ensures r.Ok? ==>
      (r.value.lrx, r.value.lry) == Pix2Wld(raster.info.transform, (w.xoff + w.xsize) as real, (w.yoff + w.ysize) as real)
    ensures r.Ok? ==> r.value.xRes == raster.info.xRes && r.value.yRes == raster.info.yRes
    ensures r.Ok? && !w.NonEmpty() ==> r.value.data == []
    ensures r.Ok? && w.NonEmpty() ==> r.value.data == ReadBands(raster, w, ignore).value
  {
    var data :- if w.NonEmpty() then ReadBands(raster, w, ignore) else Ok([]);
    var (ulx, uly) := Pix2Wld(raster.info.transform, w.xoff as real, w.yoff as real);
    var (lrx, lry) := Pix2Wld(raster.info.transform, (w.xoff + w.xsize) as real, (w.yoff + w.ysize) as real);
    Ok(ArrayInfo(data, assetId, w.xoff, w.yoff, w.xsize, w.ysize, ulx, uly, lrx, lry,
                 raster.info.xRes, raster.info.yRes))
  }

  /** read_roi, with the corrected window and shape gate. */
  function ReadRoi(raster: Raster, p: Point, ignore: Option<real>, assetId: Option<string>,
                   proj: Projection): (r: Result<ArrayInfo>)
    requires raster.Valid()
    // GDAL is never asked for pixels outside the image
    ensures r.Err? ==> !r.error.RasterIo?
    // a circle reaches mask_roi_shape with too few elements only when the
    // image has no band at all
    ensures r.Err? && r.error == TooFewPixels ==> raster.info.rasterCount == 0
    ensures GetPixWindow(raster.info, p, proj).Err? ==> r == Err(GetPixWindow(raster.info, p, proj).error)
    ensures GetPixWindow(raster.info, p, proj).Ok? ==>
      var w := GetPixWindow(raster.info, p, proj).value;
      ReadArray(raster, w, ignore, assetId).Ok? &&
      var ai := ReadArray(raster, w, ignore, assetId).value;
      // unmasked unless the gate opens; square ROIs are never reshaped
      (!ShapeGate(ai) || p.shape == Square ==> r == Ok(ai)) &&
      (ShapeGate(ai) ==> r == MaskRoiShape(raster, p, ai, ignore, proj, Corrected))
  {
    var w :- GetPixWindow(raster.info, p, proj);
    var ai := ReadArray(raster, w, ignore, assetId).value;
    if ShapeGate(ai) then
      ShapeGateMasks(raster, w, ignore, assetId);
      MaskRoiShape(raster, p, ai, ignore, proj, Corrected)
    else Ok(ai)
  }

  /** What the gate lets through has one band per raster band and enough
      elements for the circle mask. */
  lemma ShapeGateMasks(raster: Raster, w: Window, ignore: Option<real>, assetId: Option<string>)
    requires raster.Valid()
    requires ReadArray(raster, w, ignore, assetId).Ok?
    requires ShapeGate(ReadArray(raster, w, ignore, assetId).value)
    ensures var ai := ReadArray(raster, w, ignore, assetId).value;
            |ai.data| == raster.info.rasterCount == |raster.info.nodata| &&
            (raster.info.rasterCount >= 1 ==> Size(ai.data) >= 5)
  {
    var ai := ReadArray(raster, w, ignore, assetId).value;
    if raster.info.rasterCount >= 1 {
      ShapeGateEnoughPixels(ai, raster.info.rasterCount);
    }
  }

  /** The array is empty exactly when the window holds no pixel (for an image
      with at least one band). */
  lemma ReadRoiEmptyIffNoOverlap(raster: Raster, p: Point, ignore: Option<real>,
                                 assetId: Option<string>, proj: Projection)
    requires raster.Valid() && raster.info.rasterCount >= 1
    requires ReadRoi(raster, p, ignore, assetId, proj).Ok?
    ensures ReadRoi(raster, p, ignore, assetId, proj).value.IsEmpty() <==>
            !GetPixWindow(raster.info, p, proj).value.NonEmpty()
  {
    var w := GetPixWindow(raster.info, p, proj).value;
    var ai := ReadArray(raster, w, ignore, assetId).value;
    var r := ReadRoi(raster, p, ignore, assetId, proj).value;
    if w.NonEmpty() {
      SizeOfShaped(ai.data, w.ysize, w.xsize);
      assert Size(ai.data) >= 1 by {
        assert raster.info.rasterCount * (w.ysize * w.xsize) >= 1;
      }
      if ShapeGate(ai) && p.shape == Circle {
        SameShapeSameSize(r.data, ai.data);
      }
    }
  }

  /** read_roi as written: the truncating zone rule, the `elif` clipping
      and the inclusive single-pixel test in the window, and the
      element-counting shape gate. GDAL raises exactly when the window
      holds pixels outside the grid. */
  function ReadRoiAsWritten(raster: Raster, p: Point, ignore: Option<real>,
                            assetId: Option<string>, proj: Projection): (r: Result<ArrayInfo>)
    requires raster.Valid()
    ensures r.Ok? ==> |r.value.data| <= |raster.info.nodata|
    ensures GetPixWindowAsWritten(raster.info, p, proj).Err? ==>
      r == Err(GetPixWindowAsWritten(raster.info, p, proj).error)
    ensures GetPixWindowAsWritten(raster.info, p, proj).Ok? ==>
      var w := GetPixWindowAsWritten(raster.info, p, proj).value;
      // the RuntimeError of ReadAsArray
      (r.Err? && r.error.RasterIo? <==> w.NonEmpty() && !w.WithinGrid(raster.info.ncols, raster.info.nrows)) &&
      (r.Err? && r.error.RasterIo? ==> r.error == RasterIo(raster.path)) &&
      (ReadArray(raster, w, ignore, assetId).Ok? ==>
         var ai := ReadArray(raster, w, ignore, assetId).value;
         (!ShapeGateAsWritten(ai) || p.shape == Square ==> r == Ok(ai)) &&
         (ShapeGateAsWritten(ai) ==> r == MaskRoiShape(raster, p, ai, ignore, proj, AsWritten)))
  {
    var w :- GetPixWindowAsWritten(raster.info, p, proj);
    var ai :- ReadArray(raster, w, ignore, assetId);
    if ShapeGateAsWritten(ai) then MaskRoiShape(raster, p, ai, ignore, proj, AsWritten) else Ok(ai)
  }

  /** read_roi in either version. Only the version as written can ask GDAL
      for pixels outside the image. */
  function ReadRoiOf(v: Variant, raster: Raster, p: Point, ignore: Option<real>,
                     assetId: Option<string>, proj: Projection): (r: Result<ArrayInfo>)
    requires raster.Valid()
    ensures v == Corrected ==> r == ReadRoi(raster, p, ignore, assetId, proj)
    ensures v == AsWritten ==> r == ReadRoiAsWritten(raster, p, ignore, assetId, proj)
    ensures r.Err? && r.error.RasterIo? ==> v == AsWritten && r.error == RasterIo(raster.path)
  {
    match v
    case AsWritten => ReadRoiAsWritten(raster, p, ignore, assetId, proj)
    case Corrected => ReadRoi(raster, p, ignore, assetId, proj)
  }

  /** A 10 x 10 image of 10 m pixels with its origin at (0, 100), `bands`
      bands of constant value 7 and no-data value 0. */
  function SmallRaster(bands: nat): (r: Raster)
    ensures r.Valid()
  {
    var crs := Crs(Epsg(32755), Projected);
    Raster("small.tif",
           MakeImageInfo(GeoTransform(0.0, 10.0, 100.0, -10.0), 10, 10, bands, crs,
                         seq(bands, _ => Some(0.0))),
           (b, i, j) => 7.0)
  }

  /** A point in the image's CRS with a metre buffer. */
  function PointAt(x: real, y: real, buffer: real, shape: Shape): Point {
    var t := DateTime(0, Some(0));
    Point(x, y, t, Crs(Epsg(32755), Projected), 0.0, 0.0, t, t, buffer, shape, false)
  }

  /** The identity projection: every CRS here is the image's CRS. */
  function Unprojected(): Projection {
    (src: Crs, dst: Crs, x: real, y: real) => (x, y)
  }

  /** A zero-buffer point on the image's east edge intersects the image, but
      the written window asks GDAL for column 10 of 10 and the read fails;
      the corrected window reads nothing. */
  lemma ReadRoiAsWrittenFailsOnEastEdge()
    ensures Intersects(PointAt(100.0, 45.0, 0.0, Square), SmallRaster(1).info, Unprojected())
    ensures ReadRoiAsWritten(SmallRaster(1), PointAt(100.0, 45.0, 0.0, Square), None, None, Unprojected())
            == Err(RasterIo("small.tif"))
    ensures ReadRoi(SmallRaster(1), PointAt(100.0, 45.0, 0.0, Square), None, None, Unprojected()).Ok?
    ensures ReadRoi(SmallRaster(1), PointAt(100.0, 45.0, 0.0, Square), None, None, Unprojected()).value.data == []
  {
    var raster := SmallRaster(1);
    var p := PointAt(100.0, 45.0, 0.0, Square);
    assert ChangeBufferUnits(p, raster.info.crs, Unprojected(), AsWritten) == Ok(0.0);
    assert ChangeBufferUnits(p, raster.info.crs, Unprojected(), Corrected) == Ok(0.0);
    assert Wld2Pix(raster.info.transform, 100.0, 45.0) == (10.0, 5.5);
    assert Floor(10.0) == 10 && Floor(5.5) == 5;
    assert GetPixWindowAsWritten(raster.info, p, Unprojected()) == Ok(Window(10, 5, 1, 1));
    assert GetPixWindow(raster.info, p, Unprojected()) == Ok(Window(10, 5, 0, 0));
  }

  /** A ROI overhanging both sides of the image: the written window is
      11 x 11 and the read fails; the corrected one reads the whole image. */
  lemma ReadRoiAsWrittenFailsOnWideRoi()
    ensures ReadRoiAsWritten(SmallRaster(1), PointAt(50.0, 50.0, 60.0, Square), None, None, Unprojected())
            == Err(RasterIo("small.tif"))
    ensures ReadRoi(SmallRaster(1), PointAt(50.0, 50.0, 60.0, Square), None, None, Unprojected()).Ok?
    ensures ReadRoi(SmallRaster(1), PointAt(50.0, 50.0, 60.0, Square), None, None, Unprojected()).value.Window()
            == Window(0, 0, 10, 10)
  {
    var raster := SmallRaster(1);
    var p := PointAt(50.0, 50.0, 60.0, Square);
    assert ChangeBufferUnits(p, raster.info.crs, Unprojected(), AsWritten) == Ok(60.0);
    assert ChangeBufferUnits(p, raster.info.crs, Unprojected(), Corrected) == Ok(60.0);
    PixWindowAsWrittenPastGrid();
    assert GetPixWindowAsWritten(raster.info, p, Unprojected()) == Ok(Window(0, 0, 11, 11));
    assert GetPixWindow(raster.info, p, Unprojected()) == Ok(Window(0, 0, 10, 10));
  }

  /** A zero-radius circle inside one pixel of a five-band image: the written
      gate counts 5 elements, masks, and drops the only pixel in every band;
      on a one-band image, and under the corrected gate, the pixel is kept. */
  lemma ReadRoiAsWrittenMasksMultibandPoint()
    ensures ReadRoiAsWritten(SmallRaster(5), PointAt(55.0, 45.0, 0.0, Circle), None, None, Unprojected()).Ok?
    ensures var a := ReadRoiAsWritten(SmallRaster(5), PointAt(55.0, 45.0, 0.0, Circle), None, None, Unprojected()).value;
            |a.data| == 5 && a.data[0][0][0].masked
    ensures var a := ReadRoiAsWritten(SmallRaster(1), PointAt(55.0, 45.0, 0.0, Circle), None, None, Unprojected()).value;
            |a.data| == 1 && !a.data[0][0][0].masked
    ensures var a := ReadRoi(SmallRaster(5), PointAt(55.0, 45.0, 0.0, Circle), None, None, Unprojected()).value;
            |a.data| == 5 && !a.data[0][0][0].masked
  {
    var p := PointAt(55.0, 45.0, 0.0, Circle);
    var w := Window(5, 5, 1, 1);
    SmallRasterPointWindow(1);
    SmallRasterPointWindow(5);
    var ai := ReadArray(SmallRaster(5), w, None, None).value;
    assert ai.data[0][0][0] == Pixel(7.0, false);
    assert ai.ulx == 50.0 && ai.uly == 50.0;
    assert PixelOutside(ai, 55.0, 45.0, 0.0, 0, 0);
  }

  /** The zero-radius circle at (55, 45) reads the single pixel (5, 5), one
      element per band. */
  lemma SmallRasterPointWindow(bands: nat)
    requires bands == 1 || bands == 5
    ensures var p := PointAt(55.0, 45.0, 0.0, Circle);
            && GetPixWindowAsWritten(SmallRaster(bands).info, p, Unprojected()) == Ok(Window(5, 5, 1, 1))
            && GetPixWindow(SmallRaster(bands).info, p, Unprojected()) == Ok(Window(5, 5, 1, 1))
    ensures ReadArray(SmallRaster(bands), Window(5, 5, 1, 1), None, None).Ok?
    ensures Size(ReadArray(SmallRaster(bands), Window(5, 5, 1, 1), None, None).value.data) == bands
  {
    var p := PointAt(55.0, 45.0, 0.0, Circle);
    var w := Window(5, 5, 1, 1);
    var raster := SmallRaster(bands);
    assert Floor(5.5) == 5;
    assert ChangeBufferUnits(p, raster.info.crs, Unprojected(), AsWritten) == Ok(0.0);
    assert ChangeBufferUnits(p, raster.info.crs, Unprojected(), Corrected) == Ok(0.0);
    assert Wld2Pix(raster.info.transform, 55.0, 45.0) == (5.5, 5.5);
    SizeOfShaped(ReadArray(raster, w, None, None).value.data, 1, 1);
  }
}
