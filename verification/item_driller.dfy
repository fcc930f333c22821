/** ItemDriller (pixdrill/drillpoints.py): the points that intersect one
    item, the assets to read, and the read, calc and reset loops over those
    points.

    Points live in one sequence `world` of point stores; a driller names its
    points by index, so that the same point can belong to the drillers of
    several items, as in the source where one Point object is shared. A
    call that raises leaves the stores as far as the loop had changed them,
    so every loop returns the stores together with its outcome.
 */
module ItemDrillers {
  import opened Results
  import opened Geo
  import opened Items
  import opened DrillPoints
  import opened ImageReader
  import opened DrillStats

  datatype Driller = Driller(item: Item, assetIds: Option<seq<string>>, points: seq<nat>)

  /** The constructor: asset ids are refused for an image item. */
  function NewDriller(item: Item, assetIds: Option<seq<string>>): (r: Result<Driller>)
    ensures r.Err? <==> item.ImageItem? && assetIds.Some?
    ensures r.Err? ==> r.error == AssetIdsForImageItem
    ensures r.Ok? ==> r.value == Driller(item, assetIds, [])
  {
    if item.ImageItem? && assetIds.Some? then Err(AssetIdsForImageItem)
    else Ok(Driller(item, assetIds, []))
  }

  /** set_asset_ids: refused for an image item, and None or an empty list
      is refused. */
  function SetAssetIds(d: Driller, assetIds: Option<seq<string>>): (r: Result<Driller>)
    ensures d.item.ImageItem? ==> r == Err(AssetIdsForImageItem)
    ensures d.item.StacItem? && (assetIds.None? || assetIds.value == []) ==> r == Err(MissingAssetIds)
    ensures r.Ok? <==> d.item.StacItem? && assetIds.Some? && assetIds.value != []
    ensures r.Ok? ==> r.value == d.(assetIds := assetIds)
  {
    if d.item.ImageItem? then Err(AssetIdsForImageItem)
    else if assetIds.None? || assetIds.value == [] then Err(MissingAssetIds)
    else Ok(d.(assetIds := assetIds))
  }

  /** add_point appends, so a point added twice is read twice. */
  function AddPoint(d: Driller, k: nat): (r: Driller)
    ensures r.item == d.item && r.assetIds == d.assetIds
    ensures |r.points| == |d.points| + 1 && r.points[..|d.points|] == d.points
    ensures r.points[|d.points|] == k
  {
    d.(points := d.points + [k])
  }

  /** Only the records of item `id` of the listed points can differ; other
      records are neither changed nor removed. */
  ghost predicate OnlyItem(before: seq<PointStats>, after: seq<PointStats>, points: seq<nat>, id: string) {
    && |after| == |before|
    && (forall j :: 0 <= j < |before| && j !in points ==> after[j] == before[j])
    && (forall j :: 0 <= j < |before| ==>
          && after[j].pt == before[j].pt
          && before[j].records.Keys <= after[j].records.Keys
          && after[j].records.Keys <= before[j].records.Keys + {id})
    && (forall j, x :: 0 <= j < |before| && x in before[j].records && x != id ==>
          after[j].records[x] == before[j].records[x])
  }

  /** reset_stats: each point's record of the item is made fresh. */
  function ResetAll(item: Item, points: seq<nat>, world: seq<PointStats>): (r: seq<PointStats>)
    requires Indexes(points, |world|)
    ensures |r| == |world|
    ensures forall j :: 0 <= j < |world| ==>
      r[j] == if j in points then Reset(world[j], Some(item)) else world[j]
    decreases |points|
  {
    if points == [] then world
    else
      var k := points[0];
      assert forall j :: j in points[1..] ==> j in points;
      assert forall j :: j in points ==> j == k || j in points[1..];
      ResetIdempotent(world[k], Some(item));
      ResetAll(item, points[1..], world[k := Reset(world[k], Some(item))])
  }

  /** ImageReader.read_data: each point's ROI is read and added to the
      point's store, in order; the first error stops the loop. */
  function ReadPoints(raster: Raster, item: Item, assetId: Option<string>, ignore: Option<real>,
                      points: seq<nat>, world: seq<PointStats>, proj: Projection, v: Variant)
    : (r: (seq<PointStats>, Outcome))
    requires raster.Valid() && Indexes(points, |world|)
    ensures OnlyItem(world, r.0, points, item.id)
    // with the corrected window GDAL never fails once the image is open;
    // as written, a read outside the image raises GDAL's RuntimeError
    ensures r.1.Fail? && r.1.error.RasterIo? ==> v == AsWritten && r.1.error == RasterIo(raster.path)
    decreases |points|
  {
    if points == [] then (world, Pass)
    else
      var k := points[0];
      assert forall j :: j in points[1..] ==> j in points;
      match ReadAndAdd(raster, item, assetId, ignore, world[k], proj, v)
      case Err(e) => (world, Fail(e))
      case Ok(ps) =>
        var r := ReadPoints(raster, item, assetId, ignore, points[1..], world[k := ps], proj, v);
        OnlyItemStep(world, ps, r.0, points, item.id);
        r
  }

  /** Changing the item's record of the first listed point, then only the
      item's records of the rest, changes only the item's records of the
      listed points. */
  lemma OnlyItemStep(world: seq<PointStats>, ps: PointStats, after: seq<PointStats>, points: seq<nat>, id: string)
    requires points != [] && points[0] < |world|
    requires ps.pt == world[points[0]].pt
    requires world[points[0]].records.Keys <= ps.records.Keys <= world[points[0]].records.Keys + {id}
    requires forall x :: x in world[points[0]].records && x != id ==> ps.records[x] == world[points[0]].records[x]
    requires OnlyItem(world[points[0] := ps], after, points[1..], id)
    ensures OnlyItem(world, after, points, id)
  {
    forall j | 0 <= j < |world| && j !in points ensures after[j] == world[j] {
      assert j !in points[1..];
    }
  }

  /** Reading a point's ROI and adding it to the point's store: only the
      item's record changes. */
  function ReadAndAdd(raster: Raster, item: Item, assetId: Option<string>, ignore: Option<real>,
                      ps: PointStats, proj: Projection, v: Variant): (r: Result<PointStats>)
    requires raster.Valid()
    ensures r.Ok? ==> r.value.pt == ps.pt && r.value.records.Keys == ps.records.Keys + {item.id}
    ensures r.Ok? ==> forall x :: x in ps.records && x != item.id ==> r.value.records[x] == ps.records[x]
    // a failed read is the reader's error; adding never meets GDAL
    ensures ReadRoiOf(v, raster, ps.pt, ignore, assetId, proj).Err? ==>
      r == Err(ReadRoiOf(v, raster, ps.pt, ignore, assetId, proj).error)
    ensures r.Err? && r.error.RasterIo? ==> v == AsWritten && r.error == RasterIo(raster.path)
  {
    var ai :- ReadRoiOf(v, raster, ps.pt, ignore, assetId, proj);
    AddData(ps, item, ai)
  }

  /** On success, each listed point got its own ROI added, once. */
  lemma {:induction false} ReadPointsAddsEach(raster: Raster, item: Item, assetId: Option<string>,
                                              ignore: Option<real>, points: seq<nat>,
                                              world: seq<PointStats>, proj: Projection, v: Variant)
    requires raster.Valid() && Indexes(points, |world|) && Distinct(points)
    ensures var r := ReadPoints(raster, item, assetId, ignore, points, world, proj, v);
            r.1.Pass? ==> forall j :: j in points ==>
              ReadAndAdd(raster, item, assetId, ignore, world[j], proj, v) == Ok(r.0[j])
    decreases |points|
  {
    if points != [] {
      var k := points[0];
      var r := ReadPoints(raster, item, assetId, ignore, points, world, proj, v);
      if r.1.Pass? {
        var ps := ReadAndAdd(raster, item, assetId, ignore, world[k], proj, v).value;
        assert Distinct(points[1..]) && k !in points[1..] by {
          forall j | j in points[1..] ensures j != k {
            var i :| 0 <= i < |points[1..]| && points[1..][i] == j;
            assert points[i + 1] == j;
          }
        }
        assert Indexes(points[1..], |world|);
        ReadPointsAddsEach(raster, item, assetId, ignore, points[1..], world[k := ps], proj, v);
        forall j | j in points
          ensures ReadAndAdd(raster, item, assetId, ignore, world[j], proj, v) == Ok(r.0[j])
        {
          if j != k {
            assert j in points[1..];
            assert world[k := ps][j] == world[j];
          }
        }
      }
    }
  }

  /** The asset loop of a STAC read: for each asset, open it and read every
      point. An asset the item lacks is a KeyError; a file GDAL cannot open
      is GDAL's RuntimeError. */
  function ReadAssets(item: Item, assetIds: seq<string>, ignores: seq<Option<real>>,
                      points: seq<nat>, world: seq<PointStats>, open: Opener, proj: Projection,
                      v: Variant)
    : (r: (seq<PointStats>, Outcome))
    requires OpensValid(open) && Indexes(points, |world|) && |ignores| == |assetIds|
    ensures OnlyItem(world, r.0, points, item.id)
    // a RuntimeError comes from failing to open an asset, or, as written,
    // from reading outside an opened one
    ensures r.1.Fail? && r.1.error.RasterIo? ==>
      exists a :: a in assetIds && AssetFilepath(item, a).Ok? &&
        var path := AssetFilepath(item, a).value;
        (open(path).None? && r.1.error == RasterIo(path)) ||
        (v == AsWritten && open(path).Some? && r.1.error == RasterIo(open(path).value.path))
    decreases |assetIds|
  {
    if assetIds == [] then (world, Pass)
    else
      assert forall a :: a in assetIds[1..] ==> a in assetIds;
      match AssetFilepath(item, assetIds[0])
      case Err(e) => (world, Fail(e))
      case Ok(path) =>
        match open(path)
        case None => (world, Fail(RasterIo(path)))
        case Some(raster) =>
          var (w1, o1) := ReadPoints(raster, item, Some(assetIds[0]), ignores[0], points, world, proj, v);
          if o1.Fail? then (w1, o1)
          else ReadAssets(item, assetIds[1..], ignores[1..], points, w1, open, proj, v)
  }

  /** The end of read_data's try: a RuntimeError rolls the item back at
      every point and reads as False; any other error is raised; otherwise
      True. */
  function Settle(d: Driller, world: seq<PointStats>, out: Outcome): (r: (seq<PointStats>, Result<bool>))
    requires Indexes(d.points, |world|)
  {
    if out.Fail? && out.error.RasterIo? then (ResetAll(d.item, d.points, world), Ok(false))
    else if out.Fail? then (world, Err(out.error))
    else (world, Ok(true))
  }

  /** read_data: True when every read succeeded, False when a read hit a
      GDAL RuntimeError and the item was rolled back; other errors are
      raised, leaving the stores as far as the reads got. */
  function ReadData(d: Driller, world: seq<PointStats>, ignore: IgnoreVal, open: Opener, proj: Projection,
                    v: Variant)
    : (r: (seq<PointStats>, Result<bool>))
    requires OpensValid(open) && Indexes(d.points, |world|)
    ensures OnlyItem(world, r.0, d.points, d.item.id)
    // the checks done before any read
    ensures d.item.ImageItem? && open(d.item.filepath).None? ==> r == (world, Err(RasterIo(d.item.filepath)))
    ensures d.item.ImageItem? && open(d.item.filepath).Some? && ignore.PerAsset? ==>
      r == (world, Err(IgnoreListForImageItem))
    ensures d.item.StacItem? && d.assetIds.None? ==> r == (world, Err(MissingAssetIds))
    ensures d.item.StacItem? && d.assetIds.Some? && ignore.PerAsset? && |ignore.values| != |d.assetIds.value| ==>
      r == (world, Err(IgnoreListLength))
    // the open of an image item is outside the try, so its RuntimeError is
    // raised; a read of an image item rolls back only as written, where a
    // window outside the image raises inside the try
    ensures d.item.ImageItem? && r.1 == Ok(false) ==>
      v == AsWritten && open(d.item.filepath).Some? && !ignore.PerAsset? &&
      ReadPoints(open(d.item.filepath).value, d.item, None, if ignore.Single? then Some(ignore.v) else None,
                 d.points, world, proj, v).1 == Fail(RasterIo(open(d.item.filepath).value.path))
  {
    match d.item
    case ImageItem(filepath, _) =>
      (match open(filepath)
       case None => (world, Err(RasterIo(filepath)))
       case Some(raster) =>
         if ignore.PerAsset? then (world, Err(IgnoreListForImageItem))
         else
           var iv := if ignore.Single? then Some(ignore.v) else None;
           var (w1, out) := ReadPoints(raster, d.item, None, iv, d.points, world, proj, v);
           Settle(d, w1, out))
    case StacItem(_, _, _) =>
      (match d.assetIds
       case None => (world, Err(MissingAssetIds))
       case Some(ids) =>
         match Broadcast(ignore, |ids|)
         case Err(e) => (world, Err(e))
         case Ok(ignores) =>
           var (w1, out) := ReadAssets(d.item, ids, ignores, d.points, world, open, proj, v);
           Settle(d, w1, out))
  }

  /** Resetting an item gives the same store whatever was done to that
      item's record alone. */
  lemma ResetForgetsItem(before: PointStats, after: PointStats, item: Item)
    requires after.pt == before.pt
    requires before.records.Keys <= after.records.Keys <= before.records.Keys + {item.id}
    requires forall x :: x in before.records && x != item.id ==> after.records[x] == before.records[x]
    ensures Reset(after, Some(item)) == Reset(before, Some(item))
  {
    assert Reset(after, Some(item)).records == Reset(before, Some(item)).records;
  }

  /** A read that returns False leaves every point of the driller as
      resetting the item before the read would have: what was added before
      the failure is gone, and nothing else changed. */
  lemma ReadDataRollsBack(d: Driller, world: seq<PointStats>, ignore: IgnoreVal, open: Opener, proj: Projection,
                          v: Variant)
    requires OpensValid(open) && Indexes(d.points, |world|)
    ensures var r := ReadData(d, world, ignore, open, proj, v);
            r.1 == Ok(false) ==>
              r.0 == ResetAll(d.item, d.points, world)
  {
    if d.item.StacItem? && d.assetIds.Some? {
      var ids := d.assetIds.value;
      match Broadcast(ignore, |ids|)
      case Err(_) =>
      case Ok(ignores) =>
        var (w1, out) := ReadAssets(d.item, ids, ignores, d.points, world, open, proj, v);
        SettleRollsBack(d, world, w1, out);
    } else if d.item.ImageItem? && open(d.item.filepath).Some? && !ignore.PerAsset? {
      var iv := if ignore.Single? then Some(ignore.v) else None;
      var (w1, out) := ReadPoints(open(d.item.filepath).value, d.item, None, iv, d.points, world, proj, v);
      SettleRollsBack(d, world, w1, out);
    }
  }

  /** Opens "small.tif" as the one-band image SmallRaster(1); any other path
      fails. */
  function OpenSmall(): (open: Opener)
    ensures OpensValid(open)
  {
    (path: string) => if path == "small.tif" then Some(SmallRaster(1)) else None
  }

  /** A zero-buffer point on the east edge of an image item: as written,
      GDAL's read fails inside the try and read_data returns False with the
      item rolled back at the point; the corrected read succeeds. */
  lemma ReadDataRollsBackOnEastEdge()
    ensures var d := Driller(ImageItem("small.tif", "small.tif"), None, [0]);
            var world := [NewPointStats(PointAt(100.0, 45.0, 0.0, Square))];
            && ReadData(d, world, NoIgnore, OpenSmall(), Unprojected(), AsWritten)
               == (ResetAll(d.item, [0], world), Ok(false))
            && ReadData(d, world, NoIgnore, OpenSmall(), Unprojected(), Corrected).1 == Ok(true)
  {
    var d := Driller(ImageItem("small.tif", "small.tif"), None, [0]);
    var ps := NewPointStats(PointAt(100.0, 45.0, 0.0, Square));
    var world := [ps];
    var raster := SmallRaster(1);
    assert OpenSmall()("small.tif") == Some(raster);
    ReadRoiAsWrittenFailsOnEastEdge();
    assert ReadAndAdd(raster, d.item, None, None, ps, Unprojected(), AsWritten) == Err(RasterIo("small.tif"));
    assert ReadPoints(raster, d.item, None, None, [0], world, Unprojected(), AsWritten).1
           == Fail(RasterIo("small.tif"));
    var ai := ReadRoi(raster, ps.pt, None, None, Unprojected()).value;
    assert AddData(ps, d.item, ai).Ok?;
    assert ReadAndAdd(raster, d.item, None, None, ps, Unprojected(), Corrected).Ok?;
  }

  /** Settling a read that only touched the item's records: a rollback
      gives what resetting before the read would have. */
  lemma SettleRollsBack(d: Driller, world: seq<PointStats>, w1: seq<PointStats>, out: Outcome)
    requires Indexes(d.points, |world|) && OnlyItem(world, w1, d.points, d.item.id)
    ensures Settle(d, w1, out).1 == Ok(false) ==> Settle(d, w1, out).0 == ResetAll(d.item, d.points, world)
  {
    if out.Fail? && out.error.RasterIo? {
      var a := ResetAll(d.item, d.points, w1);
      var b := ResetAll(d.item, d.points, world);
      forall j | 0 <= j < |world| ensures a[j] == b[j] {
        if j in d.points {
          ResetForgetsItem(world[j], w1[j], d.item);
        }
      }
      assert a == b;
    }
  }

  /** calc_stats: the item's statistics at every point in order; a point
      whose store has no record of the item raises, stopping the loop. */
  function CalcAll(item: Item, points: seq<nat>, world: seq<PointStats>,
                   std: seq<string>, user: seq<(string, UserStat)>)
    : (r: (seq<PointStats>, Outcome))
    requires Indexes(points, |world|)
    ensures OnlyItem(world, r.0, points, item.id)
    // the only KeyError is a listed point without a record of the item
    ensures r.1.Fail? && r.1.error.UnknownItem? ==>
      r.1.error == UnknownItem(item.id) && !AllHave(points, world, item.id)
    decreases |points|
  {
    if points == [] then (world, Pass)
    else
      var k := points[0];
      assert forall j :: j in points[1..] ==> j in points;
      var (ps, out) := CalcStats(world[k], item.id, std, user);
      if out.Fail? then
        OnlyItemStep(world, ps, world[k := ps], points, item.id);
        (world[k := ps], out)
      else
        var r := CalcAll(item, points[1..], world[k := ps], std, user);
        OnlyItemStep(world, ps, r.0, points, item.id);
        AllHaveStep(points, world, ps, item.id);
        r
  }

  /** Every listed point has a record of item `id`. */
  predicate AllHave(points: seq<nat>, world: seq<PointStats>, id: string) {
    forall k :: 0 <= k < |points| && points[k] < |world| ==> id in world[points[k]].records
  }

  lemma AllHaveStep(points: seq<nat>, world: seq<PointStats>, ps: PointStats, id: string)
    requires points != [] && points[0] < |world| && ps.records.Keys == world[points[0]].records.Keys
    ensures AllHave(points, world, id) ==> AllHave(points[1..], world[points[0] := ps], id)
  {
    forall k | AllHave(points, world, id) && 0 <= k < |points[1..]| && points[1..][k] < |world|
      ensures id in world[points[0] := ps][points[1..][k]].records
    {
      assert points[1..][k] == points[k + 1];
    }
  }

  /** On success, each listed point holds what calc_stats computes from its
      own record: the loop populates every listed point. */
  lemma {:induction false} CalcAllCalcsEach(item: Item, points: seq<nat>, world: seq<PointStats>,
                                            std: seq<string>, user: seq<(string, UserStat)>)
    requires Indexes(points, |world|) && Distinct(points)
    ensures var r := CalcAll(item, points, world, std, user);
            r.1.Pass? ==> forall j :: j in points ==> CalcStats(world[j], item.id, std, user) == (r.0[j], Pass)
    decreases |points|
  {
    if points != [] {
      var k := points[0];
      var r := CalcAll(item, points, world, std, user);
      var (ps, out) := CalcStats(world[k], item.id, std, user);
      if r.1.Pass? && out.Pass? {
        assert Distinct(points[1..]) && k !in points[1..] by {
          forall j | j in points[1..] ensures j != k {
            var i :| 0 <= i < |points[1..]| && points[1..][i] == j;
            assert points[i + 1] == j;
          }
        }
        assert Indexes(points[1..], |world|);
        CalcAllCalcsEach(item, points[1..], world[k := ps], std, user);
        forall j | j in points ensures CalcStats(world[j], item.id, std, user) == (r.0[j], Pass) {
          if j != k {
            assert j in points[1..];
            assert world[k := ps][j] == world[j];
          }
        }
      }
    }
  }

  /** The converse of CalcAll's KeyError clause: a listed point without a
      record of the item makes the loop fail. */
  lemma {:induction false} CalcAllNeedsRecords(item: Item, points: seq<nat>, world: seq<PointStats>,
                                               std: seq<string>, user: seq<(string, UserStat)>)
    requires Indexes(points, |world|)
    ensures CalcAll(item, points, world, std, user).1.Pass? ==> AllHave(points, world, item.id)
    decreases |points|
  {
    if points != [] {
      var k := points[0];
      var (ps, out) := CalcStats(world[k], item.id, std, user);
      if out.Pass? {
        assert Indexes(points[1..], |world|);
        CalcAllNeedsRecords(item, points[1..], world[k := ps], std, user);
        if CalcAll(item, points, world, std, user).1.Pass? {
          forall i | 0 <= i < |points| ensures item.id in world[points[i]].records {
            if i > 0 {
              assert points[1..][i - 1] == points[i];
              assert item.id in world[k := ps][points[i]].records;
            }
          }
        }
      }
    }
  }

  /** Standard statistic names calc_stats can compute: the stored lists and
      the four of STATS_STD. */
  predicate KnownStds(std: seq<string>) {
    forall k :: 0 <= k < |std| ==> std[k] == Raw || std[k] == ArrayInfoKey || KnownStd(std[k])
  }

  /** A point's record of item `id` holds the parallel `raw` and `arrayinfo`
      lists, each array with at most one band. */
  predicate Calculable(ps: PointStats, id: string) {
    && id in ps.records
    && WellFormed(ps.records[id].stats)
    && forall i :: 0 <= i < |ps.records[id].stats[Raw].arrays| ==> |ps.records[id].stats[Raw].arrays[i]| <= 1
  }

  /** With known standard names and no user statistic replacing the lists,
      calc_stats passes over points whose records are all calculable. */
  lemma {:induction false} CalcAllPasses(item: Item, points: seq<nat>, world: seq<PointStats>,
                                         std: seq<string>, user: seq<(string, UserStat)>)
    requires Indexes(points, |world|) && KnownStds(std)
    requires Raw !in UserNames(user) && ArrayInfoKey !in UserNames(user)
    requires forall j :: j in points ==> Calculable(world[j], item.id)
    ensures CalcAll(item, points, world, std, user).1 == Pass
    decreases |points|
  {
    if points != [] {
      var k := points[0];
      var rec := world[k].records[item.id];
      CalcRecordStatsStores(rec.stats, rec.item, world[k].pt, std, user);
      var (ps, out) := CalcStats(world[k], item.id, std, user);
      assert out == Pass;
      assert Calculable(ps, item.id);
      forall j | j in points[1..] ensures Calculable(world[k := ps][j], item.id) {
        assert j in points;
      }
      assert Indexes(points[1..], |world|);
      CalcAllPasses(item, points[1..], world[k := ps], std, user);
    }
  }

  /** After the rollback of a failed read, every listed point holds a fresh
      record of the item, so calc_stats passes. */
  lemma CalcAllAfterResetPasses(item: Item, points: seq<nat>, world: seq<PointStats>,
                                std: seq<string>, user: seq<(string, UserStat)>)
    requires Indexes(points, |world|) && KnownStds(std)
    requires Raw !in UserNames(user) && ArrayInfoKey !in UserNames(user)
    ensures CalcAll(item, points, ResetAll(item, points, world), std, user).1 == Pass
  {
    var w := ResetAll(item, points, world);
    forall j | j in points ensures Calculable(w[j], item.id) {
      assert w[j] == Reset(world[j], Some(item));
    }
    CalcAllPasses(item, points, w, std, user);
  }
}
