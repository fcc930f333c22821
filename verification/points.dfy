/** Drill points: a location, an acquisition-time window and a region of
    interest, with the conversion of the ROI's buffer distance between
    metres and degrees (pixdrill/drillpoints.py, class Point).

    A point's statistics store (Point.stats) is not a field here: the
    statistics stores are kept beside the points, see module ItemDrillers.
 */
module DrillPoints {
  import opened Results
  import opened Geo

  /** ROI_SHP_SQUARE, ROI_SHP_CIRCLE, or any other string a caller passes. */
  datatype Shape = Square | Circle | OtherShape(name: string)

  /** A Python datetime in seconds: the wall-clock reading and, for an aware
      datetime, its UTC offset. */
  datatype DateTime = DateTime(wall: int, offset: Option<int>)
  {
    /** Seconds since the epoch in UTC; only meaningful when aware. */
    function Instant(): int { wall - (if offset.Some? then offset.value else 0) }
  }

  datatype Point = Point(
    x: real, y: real, t: DateTime, crs: Crs,
    wgs84X: real, wgs84Y: real,
    startDate: DateTime, endDate: DateTime,
    buffer: real, shape: Shape, bufferDegrees: bool)

  /** Python's math.isclose with its default tolerances. */
  predicate IsClose(a: real, b: real) {
    Abs(a - b) <= 1.0 / 1000000000.0 * (if Abs(a) < Abs(b) then Abs(b) else Abs(a))
  }

  /** The Point constructor. `proj` stands for OSR's coordinate transformation
      and `tDelta` for the timedelta in seconds. */
  function MakePoint(x: real, y: real, t: DateTime, crs: Crs, tDelta: int,
                     buffer: real, shape: Shape, bufferDegrees: bool,
                     proj: Projection): (p: Point)
    // a naive time is taken to be UTC; an aware time is kept as given
    ensures p.t.offset.Some?
    ensures t.offset.Some? ==> p.t == t
    ensures t.offset.None? ==> p.t == DateTime(t.wall, Some(0))
    // the acquisition window is centred on the point's time, in the same zone
    ensures p.startDate.offset == p.endDate.offset == p.t.offset
    ensures p.startDate.Instant() == p.t.Instant() - tDelta
    ensures p.endDate.Instant() == p.t.Instant() + tDelta
    // the WGS84 location, with longitude 180 folded onto -180
    ensures p.wgs84Y == proj(crs, Wgs84, x, y).1
    ensures !IsClose(proj(crs, Wgs84, x, y).0, 180.0) ==> p.wgs84X == proj(crs, Wgs84, x, y).0
    ensures IsClose(proj(crs, Wgs84, x, y).0, 180.0) ==> p.wgs84X == -180.0
    ensures !IsClose(p.wgs84X, 180.0)
    ensures p.x == x && p.y == y && p.crs == crs && p.buffer == buffer
    ensures p.shape == shape && p.bufferDegrees == bufferDegrees
  {
    var aware := if t.offset.None? then DateTime(t.wall, Some(0)) else t;
    var (lon, lat) := proj(crs, Wgs84, x, y);
    Point(x, y, aware, crs,
          if IsClose(lon, 180.0) then -180.0 else lon, lat,
          DateTime(aware.wall - tDelta, aware.offset),
          DateTime(aware.wall + tDelta, aware.offset),
          buffer, shape, bufferDegrees)
  }

  /** Point.intersects: the point, projected into the image's CRS, lies in
      the image's closed extent. */
  predicate Intersects(p: Point, info: ImageInfo, proj: Projection) {
    var (ix, iy) := proj(p.crs, info.crs, p.x, p.y);
    info.xMin <= ix <= info.xMax && info.yMin <= iy <= info.yMax
  }

  /** A point that intersects a north-up image has pixel coordinates inside
      the closed pixel grid [0, ncols] x [0, nrows]. */
  lemma {:induction false} IntersectsWithinGrid(p: Point, info: ImageInfo, proj: Projection)
    requires info.Valid()
    requires Intersects(p, info, proj)
    ensures var (px, py) := Wld2Pix(info.transform, proj(p.crs, info.crs, p.x, p.y).0,
                                    proj(p.crs, info.crs, p.x, p.y).1);
            0.0 <= px <= info.ncols as real && 0.0 <= py <= info.nrows as real
  {
    var gt := info.transform;
    var (ix, iy) := proj(p.crs, info.crs, p.x, p.y);
    var w := info.ncols as real;
    var h := info.nrows as real;
    assert info.xMin == gt.originX && info.yMax == gt.originY;
    assert info.xMax == gt.originX + w * gt.pixelWidth;
    assert info.yRes == -gt.pixelHeight;
    assert info.yMin == gt.originY + h * gt.pixelHeight;
    var px := (ix - gt.originX) / gt.pixelWidth;
    var py := (iy - gt.originY) / gt.pixelHeight;
    assert 0.0 <= ix - gt.originX <= w * gt.pixelWidth;
    assert px * gt.pixelWidth == ix - gt.originX;
    DivisionBounds(ix - gt.originX, gt.pixelWidth, w);
    assert h * gt.pixelHeight <= iy - gt.originY <= 0.0;
    DivisionBounds(gt.originY - iy, -gt.pixelHeight, h);
    assert (gt.originY - iy) / -gt.pixelHeight == py;
  }

  /** 0 <= a <= n*d with d > 0 puts a/d in [0, n]. */
  lemma DivisionBounds(a: real, d: real, n: real)
    requires d > 0.0 && 0.0 <= a <= n * d
    ensures 0.0 <= a / d <= n
  {
    assert (a / d) * d == a;
  }

  /** Whether change_buffer_units has to convert: a buffer in metres for a
      geographic destination, or a buffer in degrees for a projected one. */
  predicate NeedsConversion(p: Point, dst: Crs) {
    (!p.bufferDegrees && dst.kind == Geographic) || (p.bufferDegrees && dst.kind == Projected)
  }

  /** Point._transformed_buffer: the distance in `dst` between (x, y) and
      (x + buffer, y), both given in `src`, measured along the x axis. */
  function TransformedBuffer(x: real, y: real, buffer: real, src: Crs, dst: Crs,
                             proj: Projection): (b: real)
    ensures buffer == 0.0 ==> b == 0.0
  {
    proj(src, dst, x + buffer, y).0 - proj(src, dst, x, y).0
  }

  /** A projection whose x output is a * x + c scales the buffer by a; in
      particular a projection that keeps x leaves the buffer unchanged. */
  lemma TransformedBufferOfAffine(x: real, y: real, buffer: real, src: Crs, dst: Crs,
                                   proj: Projection, a: real, c: real)
    requires forall u, v :: proj(src, dst, u, v).0 == a * u + c
    ensures TransformedBuffer(x, y, buffer, src, dst, proj) == a * buffer
  {
    assert proj(src, dst, x + buffer, y).0 == a * (x + buffer) + c;
    assert proj(src, dst, x, y).0 == a * x + c;
  }

  /** The western edge, in degrees of longitude, of UTM zone `zone`. */
  function ZoneWest(zone: int): real { -180.0 + 6.0 * (zone - 1) as real }

  /** The EPSG code of the WGS84 / UTM zone that holds a longitude and
      latitude: 326zz north of the equator, 327zz south of it. The zone number
      is the floor of the longitude over 6, plus 31. */
  function UtmEpsg(lon: real, lat: real): int
  {
    (if lat >= 0.0 then 32600 else 32700) + Floor(lon / 6.0) + 31
  }

  /** A longitude in [-180, 180) lies in the six-degree band of the zone
      UtmEpsg picks, and that zone is one of 1..60. */
  lemma UtmEpsgPicksContainingZone(lon: real, lat: real)
    requires -180.0 <= lon < 180.0
    ensures var zone := UtmEpsg(lon, lat) - (if lat >= 0.0 then 32600 else 32700);
            1 <= zone <= 60 && ZoneWest(zone) <= lon < ZoneWest(zone) + 6.0
  {
    var f := Floor(lon / 6.0);
    assert f as real <= lon / 6.0 < f as real + 1.0;
    assert -30.0 <= lon / 6.0 < 30.0;
  }

  /** The zone code as drillpoints.py computes it, with int(), which
      truncates toward zero instead of flooring. */
  function UtmEpsgAsWritten(lon: real, lat: real): (code: int)
    ensures lon >= 0.0 ==> code == UtmEpsg(lon, lat)
  {
    (if lat >= 0.0 then 32600 else 32700) + Trunc(lon / 6.0) + 31
  }

  /** A point at 3 degrees west lies in zone 30 (6W to 0), but truncation
      picks zone 31 (0 to 6E); every western longitude that is not a multiple
      of 6 degrees is shifted east by
      one zone in the same way. */
  lemma UtmEpsgAsWrittenWrongWestOfGreenwich()
    ensures UtmEpsgAsWritten(-3.0, 10.0) == 32631
    ensures UtmEpsg(-3.0, 10.0) == 32630
    ensures !(ZoneWest(31) <= -3.0 < ZoneWest(31) + 6.0)
  {
    assert Trunc(-3.0 / 6.0) == 0;
    assert Floor(-3.0 / 6.0) == -1;
  }

  /** Which version of the code a member follows where the code has a defect:
      the code as written, or the code with the defect corrected. */
  datatype Variant = AsWritten | Corrected

  /** The UTM zone code change_buffer_units uses in each version. */
  function UtmCode(v: Variant, lon: real, lat: real): int {
    match v
    case AsWritten => UtmEpsgAsWritten(lon, lat)
    case Corrected => UtmEpsg(lon, lat)
  }

  /** Point.change_buffer_units: the ROI buffer expressed in the units of
      `dst`. A metre buffer for a geographic point is measured in the UTM
      zone holding the point (the zone `v` picks); a degree buffer for a
      projected point is measured from the point's WGS84 location. */
  function ChangeBufferUnits(p: Point, dst: Crs, proj: Projection, v: Variant): (r: Result<real>)
    // errors: an unclassifiable point CRS when a conversion is needed, or an
    // unclassifiable destination
    ensures r.Err? <==> dst.kind == OtherKind || (NeedsConversion(p, dst) && p.crs.kind == OtherKind)
    ensures r.Err? && dst.kind != OtherKind ==> r.error == UnknownPointCrs
    ensures r.Err? && dst.kind == OtherKind ==> r.error == UnknownDestinationCrs
    // compatible units: the buffer is returned as is
    ensures !NeedsConversion(p, dst) && dst.kind != OtherKind ==> r == Ok(p.buffer)
    // converting a point CRS's own units: measured at the point itself
    ensures NeedsConversion(p, dst) && ((p.bufferDegrees && p.crs.kind == Geographic) ||
                                        (!p.bufferDegrees && p.crs.kind == Projected))
            ==> r == Ok(TransformedBuffer(p.x, p.y, p.buffer, p.crs, dst, proj))
    // a degree buffer on a projected point: measured at its WGS84 location
    ensures NeedsConversion(p, dst) && p.bufferDegrees && p.crs.kind == Projected
            ==> r == Ok(TransformedBuffer(p.wgs84X, p.wgs84Y, p.buffer, Wgs84, dst, proj))
    // a zero buffer stays zero
    ensures r.Ok? && p.buffer == 0.0 ==> r.value == 0.0
  {
    if !p.bufferDegrees && dst.kind == Geographic then
      match p.crs.kind
      case Projected => Ok(TransformedBuffer(p.x, p.y, p.buffer, p.crs, dst, proj))
      case Geographic =>
        var zone := Crs(Epsg(UtmCode(v, p.wgs84X, p.wgs84Y)), Projected);
        var (ux, uy) := proj(p.crs, zone, p.x, p.y);
        Ok(TransformedBuffer(ux, uy, p.buffer, zone, dst, proj))
      case OtherKind => Err(UnknownPointCrs)
    else if p.bufferDegrees && dst.kind == Projected then
      match p.crs.kind
      case Projected => Ok(TransformedBuffer(p.wgs84X, p.wgs84Y, p.buffer, Wgs84, dst, proj))
      case Geographic => Ok(TransformedBuffer(p.x, p.y, p.buffer, p.crs, dst, proj))
      case OtherKind => Err(UnknownPointCrs)
    else if dst.kind == OtherKind then
      Err(UnknownDestinationCrs)
    else
      Ok(p.buffer)
  }

  /** The UTM detour taken for a metre buffer on a geographic point: as
      written, through the zone of the truncating rule; corrected, through
      the zone that holds the point. */
  lemma ChangeBufferUnitsViaUtm(p: Point, dst: Crs, proj: Projection, v: Variant)
    requires !p.bufferDegrees && dst.kind == Geographic && p.crs.kind == Geographic
    ensures var zone := Crs(Epsg(UtmCode(v, p.wgs84X, p.wgs84Y)), Projected);
            var u := proj(p.crs, zone, p.x, p.y);
            ChangeBufferUnits(p, dst, proj, v) == Ok(TransformedBuffer(u.0, u.1, p.buffer, zone, dst, proj))
    ensures v == AsWritten ==>
            UtmCode(v, p.wgs84X, p.wgs84Y) == (if p.wgs84Y >= 0.0 then 32600 else 32700) + Trunc(p.wgs84X / 6.0) + 31
  {
  }

  /** The two versions convert alike except for a metre buffer on a
      geographic point west of Greenwich, the only case the zone rule
      decides. */
  lemma ChangeBufferUnitsVariantsAgree(p: Point, dst: Crs, proj: Projection)
    requires !(!p.bufferDegrees && dst.kind == Geographic && p.crs.kind == Geographic) || p.wgs84X >= 0.0
    ensures ChangeBufferUnits(p, dst, proj, AsWritten) == ChangeBufferUnits(p, dst, proj, Corrected)
  {
  }

  /** Once converted, the buffer is in the destination's units: a point
      carrying the converted buffer needs no further conversion. */
  lemma ChangeBufferUnitsSettles(p: Point, dst: Crs, proj: Projection, v: Variant)
    requires ChangeBufferUnits(p, dst, proj, v).Ok?
    ensures var b := ChangeBufferUnits(p, dst, proj, v).value;
            var q := p.(buffer := b, bufferDegrees := dst.kind == Geographic);
            !NeedsConversion(q, dst) && ChangeBufferUnits(q, dst, proj, v) == Ok(b)
  {
  }

  /** A collection names points by their index in the sequence of all
      points: every index names a point. */
  predicate Indexes(points: seq<nat>, n: nat) {
    forall k :: 0 <= k < |points| ==> points[k] < n
  }

  /** No point is named twice. */
  predicate Distinct(points: seq<nat>) {
    forall i, j :: 0 <= i < j < |points| ==> points[i] != points[j]
  }
}
