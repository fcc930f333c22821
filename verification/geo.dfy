/** Coordinate reference systems, geotransforms and image metadata.

    A GDAL geotransform `gt` maps pixel coordinates (px, py) to map
    coordinates by `x = gt[0] + px*gt[1] + py*gt[2]` and
    `y = gt[3] + px*gt[4] + py*gt[5]`. The drilled images are north-up, so the
    rotation terms gt[2] and gt[4] are zero and are not represented.
 */
module Geo {
  import opened Results

  /** What OSR reports through IsProjected / IsGeographic; anything else
      (a local or engineering CRS) is `OtherKind`. */
  datatype CrsKind = Projected | Geographic | OtherKind

  datatype CrsName = Epsg(code: int) | Wkt(text: string)

  datatype Crs = Crs(name: CrsName, kind: CrsKind)

  /** EPSG:4326, the CRS used for the WGS84 coordinates of a point. */
  const Wgs84: Crs := Crs(Epsg(4326), Geographic)

  /** A coordinate projection from one CRS to another, as OSR performs it
      with the traditional GIS (x, y) axis order. It is opaque to the model. */
  type Projection = (Crs, Crs, real, real) -> (real, real)

  /** Python's math.floor on a float. */
  function Floor(r: real): (f: int)
    ensures f as real <= r < f as real + 1.0
  {
    r.Floor
  }

  /** Python's math.ceil on a float. */
  function Ceil(r: real): (c: int)
    ensures c as real - 1.0 < r <= c as real
  {
    -((-r).Floor)
  }

  /** Python's int() on a float: truncation toward zero. */
  function Trunc(r: real): (t: int)
    ensures r >= 0.0 ==> t == Floor(r)
    ensures r < 0.0 ==> t == Ceil(r)
  {
    if r >= 0.0 then r.Floor else -((-r).Floor)
  }

  function Abs(r: real): (a: real)
    ensures a >= 0.0 && (a == r || a == -r)
  {
    if r < 0.0 then -r else r
  }

  /** gt[0], gt[1], gt[3] and gt[5] of a GDAL geotransform. */
  datatype GeoTransform = GeoTransform(
    originX: real, pixelWidth: real, originY: real, pixelHeight: real)
  {
    /** GDAL can invert the transform. */
    predicate Invertible() { pixelWidth != 0.0 && pixelHeight != 0.0 }

    /** The usual image layout: columns run east, rows run south. */
    predicate NorthUp() { pixelWidth > 0.0 && pixelHeight < 0.0 }
  }

  /** Map coordinates of the pixel coordinate (px, py): GDAL's
      ApplyGeoTransform (ImageReader.pix2wld). */
  function Pix2Wld(gt: GeoTransform, px: real, py: real): (real, real)
  {
    (gt.originX + px * gt.pixelWidth, gt.originY + py * gt.pixelHeight)
  }

  /** Pixel coordinates of the map coordinate (x, y): ApplyGeoTransform with
      GDAL's InvGeoTransform (ImageReader.wld2pix). */
  function Wld2Pix(gt: GeoTransform, x: real, y: real): (real, real)
    requires gt.Invertible()
  {
    ((x - gt.originX) / gt.pixelWidth, (y - gt.originY) / gt.pixelHeight)
  }

  /** wld2pix undoes pix2wld. */
  lemma Wld2PixOfPix2Wld(gt: GeoTransform, px: real, py: real)
    requires gt.Invertible()
    ensures Wld2Pix(gt, Pix2Wld(gt, px, py).0, Pix2Wld(gt, px, py).1) == (px, py)
  {
    var (x, y) := Pix2Wld(gt, px, py);
    assert (x - gt.originX) / gt.pixelWidth == px;
    assert (y - gt.originY) / gt.pixelHeight == py;
  }

  /** pix2wld undoes wld2pix. */
  lemma Pix2WldOfWld2Pix(gt: GeoTransform, x: real, y: real)
    requires gt.Invertible()
    ensures Pix2Wld(gt, Wld2Pix(gt, x, y).0, Wld2Pix(gt, x, y).1) == (x, y)
  {
    var px := (x - gt.originX) / gt.pixelWidth;
    var py := (y - gt.originY) / gt.pixelHeight;
    assert px * gt.pixelWidth == x - gt.originX;
    assert py * gt.pixelHeight == y - gt.originY;
    var w := Pix2Wld(gt, px, py);
    assert w.0 == x && w.1 == y;
  }

  /** The metadata ImageInfo keeps about an opened image. */
  datatype ImageInfo = ImageInfo(
    xMin: real, xMax: real, yMin: real, yMax: real,
    xRes: real, yRes: real,
    ncols: nat, nrows: nat, rasterCount: nat,
    transform: GeoTransform, crs: Crs,
    /** the no-data value of each band, None where a band has none */
    nodata: seq<Option<real>>)
  {
    /** The metadata of a north-up image as the ImageInfo constructor
        derives it, with one no-data entry per band. */
    ghost predicate Valid() {
      && transform.NorthUp()
      && this == MakeImageInfo(transform, ncols, nrows, rasterCount, crs, nodata)
      && |nodata| == rasterCount
    }
  }

  /** The ImageInfo constructor: the extents and resolutions are derived
      from the geotransform and the raster size. */
  function MakeImageInfo(gt: GeoTransform, ncols: nat, nrows: nat,
                         rasterCount: nat, crs: Crs, nodata: seq<Option<real>>)
    : (info: ImageInfo)
    ensures info.yRes > 0.0 <==> gt.pixelHeight != 0.0
    ensures info.xMax - info.xMin == ncols as real * gt.pixelWidth
    ensures info.yMax - info.yMin == nrows as real * info.yRes
    // the upper-left corner of pixel (0, 0) is the image's upper-left corner
    ensures Pix2Wld(gt, 0.0, 0.0) == (info.xMin, info.yMax)
    // on a north-up image the far corner of pixel (ncols-1, nrows-1) is the
    // image's lower-right corner
    ensures Pix2Wld(gt, ncols as real, nrows as real).0 == info.xMax
    ensures gt.pixelHeight <= 0.0 ==> Pix2Wld(gt, ncols as real, nrows as real).1 == info.yMin
  {
    var yRes := Abs(gt.pixelHeight);
    var n := nrows as real;
    assert gt.pixelHeight <= 0.0 ==> yRes == -gt.pixelHeight;
    assert gt.pixelHeight <= 0.0 ==> n * gt.pixelHeight == -(n * yRes);
    var far := Pix2Wld(gt, ncols as real, n);
    assert gt.pixelHeight <= 0.0 ==> far.1 == gt.originY - n * yRes;
    ImageInfo(
      gt.originX, gt.originX + ncols as real * gt.pixelWidth,
      gt.originY - nrows as real * yRes, gt.originY,
      gt.pixelWidth, yRes, ncols, nrows, rasterCount, gt, crs, nodata)
  }

  /** Two worked examples from the test suite: 10 m and 20 m Sentinel-2
      tiles of 10980 and 5490 pixels share the same extent. */
  lemma SentinelTileExtent()
    ensures var info := MakeImageInfo(GeoTransform(600000.0, 10.0, 6000040.0, -10.0),
                                      10980, 10980, 1, Crs(Epsg(32753), Projected), [Some(0.0)]);
            info.xMax == 709800.0 && info.yMin == 5890240.0 && info.yRes == 10.0
    ensures var info := MakeImageInfo(GeoTransform(600000.0, 20.0, 6000040.0, -20.0),
                                      5490, 5490, 1, Crs(Epsg(32753), Projected), [Some(0.0)]);
            info.xMax == 709800.0 && info.yMin == 5890240.0 && info.yRes == 20.0
  {
  }
}
