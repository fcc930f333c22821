/** The statistics store of the older package (pixelstac/pointstats.py):
    Point.add_items / add_data / calc_stats / get_stat, ItemStats, and the
    read and calc loops of ItemPoints.

    An older point maps an item id to an ItemStats record, which is created
    empty by add_items and gets its `raw` and `arrayinfo` lists on the first
    add_data. The record is DrillStats.ItemRecord and its calc_stats is
    DrillStats.CalcRecordStats: the older and the newer code are the same
    there. Points are kept in a sequence and a collection names them by
    index, so that one point can be shared by several collections.
 */
module PointStatsLegacy {
  import opened Results
  import opened Items
  import opened DrillPoints
  import opened ImageReader
  import opened AssetReader
  import opened DrillStats
  import opened Geo

  datatype LegacyPoint = LegacyPoint(pt: Point, itemStats: map<string, ItemRecord>)

  /** Every record sits under its own item's id. */
  predicate Keyed(m: map<string, ItemRecord>) {
    forall id :: id in m ==> m[id].item.id == id
  }

  function ItemIds(items: seq<Item>): (ids: set<string>)
    ensures forall k :: 0 <= k < |items| ==> items[k].id in ids
    ensures forall id :: id in ids ==> exists k :: 0 <= k < |items| && items[k].id == id
  {
    set k | 0 <= k < |items| :: items[k].id
  }

  /** add_items: an empty ItemStats for each item whose id is not yet
      present; existing records are kept. */
  function AddItems(lp: LegacyPoint, items: seq<Item>): (r: LegacyPoint)
    ensures r.pt == lp.pt
    ensures r.itemStats.Keys == lp.itemStats.Keys + ItemIds(items)
    ensures forall id :: id in lp.itemStats ==> r.itemStats[id] == lp.itemStats[id]
    ensures forall id :: id in r.itemStats && id !in lp.itemStats ==>
      r.itemStats[id].stats == map[] && r.itemStats[id].item.id == id
    ensures Keyed(lp.itemStats) ==> Keyed(r.itemStats)
    decreases |items|
  {
    if items == [] then lp
    else
      ItemIdsCons(items);
      AddItems(AddItem(lp, items[0]), items[1..])
  }

  /** One step of add_items: an empty ItemStats for the item unless its id
      is present. */
  function AddItem(lp: LegacyPoint, it: Item): (r: LegacyPoint)
    ensures r.pt == lp.pt && r.itemStats.Keys == lp.itemStats.Keys + {it.id}
    ensures forall id :: id in lp.itemStats ==> r.itemStats[id] == lp.itemStats[id]
    ensures it.id !in lp.itemStats ==> r.itemStats[it.id] == ItemRecord(it, map[])
    ensures Keyed(lp.itemStats) ==> Keyed(r.itemStats)
  {
    if it.id in lp.itemStats then lp
    else lp.(itemStats := lp.itemStats[it.id := ItemRecord(it, map[])])
  }

  lemma ItemIdsCons(items: seq<Item>)
    requires items != []
    ensures ItemIds(items) == {items[0].id} + ItemIds(items[1..])
  {
    assert forall k :: 1 <= k < |items| ==> items[k] == items[1..][k - 1];
  }

  /** add_items with items already present changes nothing. */
  lemma {:induction false} AddItemsPresent(lp: LegacyPoint, items: seq<Item>)
    requires ItemIds(items) <= lp.itemStats.Keys
    ensures AddItems(lp, items) == lp
    decreases |items|
  {
    if items != [] {
      assert ItemIds(items[1..]) <= ItemIds(items) by {
        assert forall k :: 0 <= k < |items[1..]| ==> items[1..][k] == items[k + 1];
      }
      AddItemsPresent(lp, items[1..]);
    }
  }

  /** add_items is idempotent. */
  lemma AddItemsIdempotent(lp: LegacyPoint, items: seq<Item>)
    ensures AddItems(AddItems(lp, items), items) == AddItems(lp, items)
  {
    AddItemsPresent(AddItems(lp, items), items);
  }

  /** ItemStats.add_data: `raw` and `arrayinfo` are created empty when
      missing, then appended to. */
  function LazyAppend(stats: map<string, Value>, ai: ArrayInfo): (r: Result<map<string, Value>>)
    ensures r.Ok? <==> (Raw !in stats || stats[Raw].Arrays?) &&
                       (ArrayInfoKey !in stats || stats[ArrayInfoKey].Infos?)
    ensures r.Ok? ==> r.value.Keys == stats.Keys + {Raw, ArrayInfoKey}
    ensures r.Ok? ==>
      r.value[Raw] == Arrays((if Raw in stats then stats[Raw].arrays else []) + [ai.data])
    ensures r.Ok? ==>
      r.value[ArrayInfoKey] == Infos((if ArrayInfoKey in stats then stats[ArrayInfoKey].infos else []) + [ai])
    ensures r.Ok? ==> forall n :: n in stats && n != Raw && n != ArrayInfoKey ==> r.value[n] == stats[n]
    ensures Raw !in stats && ArrayInfoKey !in stats ==> r.Ok? && WellFormed(r.value)
    ensures WellFormed(stats) ==> r == AppendData(stats, ai)
  {
    var s1 := if Raw in stats then stats else stats[Raw := Arrays([])];
    var s2 := if ArrayInfoKey in s1 then s1 else s1[ArrayInfoKey := Infos([])];
    AppendData(s2, ai)
  }

  /** Point.add_data: the item must have been added. */
  function LegacyAddData(lp: LegacyPoint, item: Item, ai: ArrayInfo): (r: Result<LegacyPoint>)
    ensures item.id !in lp.itemStats ==> r == Err(UnknownItem(item.id))
    ensures r.Ok? ==> r.value.pt == lp.pt && r.value.itemStats.Keys == lp.itemStats.Keys
    ensures r.Ok? ==> forall id :: id in lp.itemStats && id != item.id ==>
      r.value.itemStats[id] == lp.itemStats[id]
    ensures r.Ok? ==> r.value.itemStats[item.id].item == lp.itemStats[item.id].item
    ensures item.id in lp.itemStats ==>
      (r.Ok? <==> LazyAppend(lp.itemStats[item.id].stats, ai).Ok?) &&
      (r.Ok? ==> r.value.itemStats[item.id].stats == LazyAppend(lp.itemStats[item.id].stats, ai).value)
  {
    if item.id !in lp.itemStats then Err(UnknownItem(item.id))
    else
      var rec := lp.itemStats[item.id];
      var stats :- LazyAppend(rec.stats, ai);
      Ok(lp.(itemStats := lp.itemStats[item.id := rec.(stats := stats)]))
  }

  /** Point.calc_stats: the item's ItemStats.calc_stats; the item must have
      been added. */
  function LegacyCalcStats(lp: LegacyPoint, item: Item, std: seq<string>, user: seq<(string, UserStat)>)
    : (r: (LegacyPoint, Outcome))
    ensures item.id !in lp.itemStats ==> r == (lp, Fail(UnknownItem(item.id)))
    ensures r.0.pt == lp.pt && r.0.itemStats.Keys == lp.itemStats.Keys
    ensures forall id :: id in lp.itemStats && id != item.id ==> r.0.itemStats[id] == lp.itemStats[id]
    ensures item.id in lp.itemStats ==>
      var rec := lp.itemStats[item.id];
      var c := CalcRecordStats(rec.stats, rec.item, lp.pt, std, user);
      r.0.itemStats[item.id] == rec.(stats := c.0) && r.1 == c.1
  {
    if item.id !in lp.itemStats then (lp, Fail(UnknownItem(item.id)))
    else
      var rec := lp.itemStats[item.id];
      var (stats, out) := CalcRecordStats(rec.stats, rec.item, lp.pt, std, user);
      (lp.(itemStats := lp.itemStats[item.id := rec.(stats := stats)]), out)
  }

  /** Point.get_stat / ItemStats.get_stats: no defaults, a missing item or
      statistic is a KeyError. */
  function GetStat(lp: LegacyPoint, itemId: string, name: string): (r: Result<Value>)
    ensures r.Ok? <==> itemId in lp.itemStats && name in lp.itemStats[itemId].stats
    ensures r.Ok? ==> r.value == lp.itemStats[itemId].stats[name]
    ensures itemId !in lp.itemStats ==> r == Err(UnknownItem(itemId))
    ensures itemId in lp.itemStats && name !in lp.itemStats[itemId].stats ==> r == Err(MissingStat(name))
  {
    if itemId !in lp.itemStats then Err(UnknownItem(itemId))
    else if name !in lp.itemStats[itemId].stats then Err(MissingStat(name))
    else Ok(lp.itemStats[itemId].stats[name])
  }

  /** Where the older accessor answers, the newer one gives the same value;
      where it raises, the newer one gives the default. */
  lemma GetStatMatchesGetStats(lp: LegacyPoint, itemId: string, name: string)
    ensures var v := GetStats(PointStats(lp.pt, lp.itemStats), Some(itemId), Some(name)).value;
            (GetStat(lp, itemId, name).Ok? ==> v == GetStat(lp, itemId, name).value) &&
            (GetStat(lp, itemId, name).Err? ==> v == Default(name))
  {
  }

  /** A collection of points (indices into the point sequence) that
      intersect one item. */
  datatype ItemPoints = ItemPoints(item: Item, points: seq<nat>)

  /** Only the records of `item` of the points listed can differ. */
  ghost predicate TouchesOnly(before: seq<LegacyPoint>, after: seq<LegacyPoint>, points: seq<nat>, item: Item) {
    && |after| == |before|
    && (forall j :: 0 <= j < |before| && j !in points ==> after[j] == before[j])
    && (forall j :: 0 <= j < |before| ==>
          after[j].pt == before[j].pt && after[j].itemStats.Keys == before[j].itemStats.Keys)
    && (forall j, id :: 0 <= j < |before| && id in before[j].itemStats && id != item.id ==>
          after[j].itemStats[id] == before[j].itemStats[id])
  }

  /** AssetReader.read_data: each point's ROI is read and added to the
      point, in order; the first error stops the loop with what was added
      so far. */
  function LegacyReadPoints(raster: Raster, item: Item, assetId: string, ignore: Option<real>,
                            points: seq<nat>, world: seq<LegacyPoint>, proj: Projection)
    : (r: (seq<LegacyPoint>, Outcome))
    requires raster.Valid() && Indexes(points, |world|)
    ensures TouchesOnly(world, r.0, points, item)
    decreases |points|
  {
    if points == [] then (world, Pass)
    else
      var k := points[0];
      assert forall j :: j in points[1..] ==> j in points;
      match LegacyReadRoi(raster, world[k].pt, ignore, assetId, proj)
      case Err(e) => (world, Fail(e))
      case Ok(ai) =>
        match LegacyAddData(world[k], item, ai)
        case Err(e) => (world, Fail(e))
        case Ok(lp) =>
          LegacyReadPoints(raster, item, assetId, ignore, points[1..], world[k := lp], proj)
  }

  /** The result of reading point `j`'s ROI and adding it to the point. */
  function ReadAndAdd(raster: Raster, item: Item, assetId: string, ignore: Option<real>,
                      lp: LegacyPoint, proj: Projection): Result<LegacyPoint>
    requires raster.Valid()
  {
    var ai :- LegacyReadRoi(raster, lp.pt, ignore, assetId, proj);
    LegacyAddData(lp, item, ai)
  }

  /** On success, each listed point got its own ROI added, once. */
  lemma {:induction false} LegacyReadPointsAddsEach(raster: Raster, item: Item, assetId: string,
                                                    ignore: Option<real>, points: seq<nat>,
                                                    world: seq<LegacyPoint>, proj: Projection)
    requires raster.Valid() && Indexes(points, |world|) && Distinct(points)
    ensures var r := LegacyReadPoints(raster, item, assetId, ignore, points, world, proj);
            r.1.Pass? ==> forall j :: j in points ==>
              ReadAndAdd(raster, item, assetId, ignore, world[j], proj) == Ok(r.0[j])
    decreases |points|
  {
    if points != [] {
      var k := points[0];
      var r := LegacyReadPoints(raster, item, assetId, ignore, points, world, proj);
      if r.1.Pass? {
        var lp := ReadAndAdd(raster, item, assetId, ignore, world[k], proj).value;
        assert Distinct(points[1..]) && k !in points[1..] by {
          forall j | j in points[1..] ensures j != k {
            var i :| 0 <= i < |points[1..]| && points[1..][i] == j;
            assert points[i + 1] == j;
          }
        }
        assert Indexes(points[1..], |world|);
        LegacyReadPointsAddsEach(raster, item, assetId, ignore, points[1..], world[k := lp], proj);
        forall j | j in points
          ensures ReadAndAdd(raster, item, assetId, ignore, world[j], proj) == Ok(r.0[j])
        {
          if j != k {
            assert j in points[1..];
            assert world[k := lp][j] == world[j];
          }
        }
      }
    }
  }

  /** The asset loop of ItemPoints.read_data: open each asset and read every
      point from it. A missing asset, a file GDAL cannot open and a failed
      read all stop the loop: the older reader recovers from nothing. */
  function LegacyReadAssets(item: Item, assetIds: seq<string>, ignores: seq<Option<real>>,
                            points: seq<nat>, world: seq<LegacyPoint>, open: Opener, proj: Projection)
    : (r: (seq<LegacyPoint>, Outcome))
    requires OpensValid(open) && Indexes(points, |world|) && |ignores| == |assetIds|
    ensures TouchesOnly(world, r.0, points, item)
    ensures |assetIds| > 0 && AssetFilepath(item, assetIds[0]).Err? ==>
      r == (world, Fail(UnknownAsset(assetIds[0])))
    decreases |assetIds|
  {
    if assetIds == [] then (world, Pass)
    else
      match AssetFilepath(item, assetIds[0])
      case Err(e) => (world, Fail(e))
      case Ok(path) =>
        match open(path)
        case None => (world, Fail(RasterIo(path)))
        case Some(raster) =>
          var (w1, o1) := LegacyReadPoints(raster, item, assetIds[0], ignores[0], points, world, proj);
          if o1.Fail? then (w1, o1)
          else LegacyReadAssets(item, assetIds[1..], ignores[1..], points, w1, open, proj)
  }

  /** ItemPoints.read_data: the ignore values are checked or broadcast, then
      every asset is read. */
  function LegacyReadData(ip: ItemPoints, assetIds: seq<string>, ignore: IgnoreVal,
                          world: seq<LegacyPoint>, open: Opener, proj: Projection)
    : (r: (seq<LegacyPoint>, Outcome))
    requires OpensValid(open) && Indexes(ip.points, |world|)
    ensures ignore.PerAsset? && |ignore.values| != |assetIds| ==> r == (world, Fail(IgnoreListLength))
    ensures TouchesOnly(world, r.0, ip.points, ip.item)
  {
    match Broadcast(ignore, |assetIds|)
    case Err(e) => (world, Fail(e))
    case Ok(ignores) => LegacyReadAssets(ip.item, assetIds, ignores, ip.points, world, open, proj)
  }

  /** ItemPoints.calc_stats: Point.calc_stats for every point in order; the
      first error stops the loop. */
  function LegacyCalcAll(ip: ItemPoints, points: seq<nat>, world: seq<LegacyPoint>,
                         std: seq<string>, user: seq<(string, UserStat)>)
    : (r: (seq<LegacyPoint>, Outcome))
    requires Indexes(points, |world|)
    ensures TouchesOnly(world, r.0, points, ip.item)
    ensures r.1.Fail? && r.1.error.UnknownItem? ==>
      r.1.error == UnknownItem(ip.item.id) && !AllHave(points, world, ip.item.id)
    decreases |points|
  {
    if points == [] then (world, Pass)
    else
      var k := points[0];
      var (lp, out) := LegacyCalcStats(world[k], ip.item, std, user);
      if out.Fail? then (world[k := lp], out)
      else
        assert forall j :: j in points[1..] ==> j in points;
        AllHaveStep(points, world, lp, ip.item.id);
        LegacyCalcAll(ip, points[1..], world[k := lp], std, user)
  }

  /** Every listed point has a record of item `id`. */
  predicate AllHave(points: seq<nat>, world: seq<LegacyPoint>, id: string) {
    forall k :: 0 <= k < |points| && points[k] < |world| ==> id in world[points[k]].itemStats
  }

  lemma AllHaveStep(points: seq<nat>, world: seq<LegacyPoint>, lp: LegacyPoint, id: string)
    requires points != [] && points[0] < |world| && lp.itemStats.Keys == world[points[0]].itemStats.Keys
    ensures AllHave(points, world, id) ==> AllHave(points[1..], world[points[0] := lp], id)
  {
    forall k | AllHave(points, world, id) && 0 <= k < |points[1..]| && points[1..][k] < |world|
      ensures id in world[points[0] := lp][points[1..][k]].itemStats
    {
      assert points[1..][k] == points[k + 1];
    }
  }

  /** On success, each listed point holds what Point.calc_stats computes
      from its own record. */
  lemma {:induction false} LegacyCalcAllCalcsEach(ip: ItemPoints, points: seq<nat>, world: seq<LegacyPoint>,
                                                  std: seq<string>, user: seq<(string, UserStat)>)
    requires Indexes(points, |world|) && Distinct(points)
    ensures var r := LegacyCalcAll(ip, points, world, std, user);
            r.1.Pass? ==> forall j :: j in points ==> LegacyCalcStats(world[j], ip.item, std, user) == (r.0[j], Pass)
    decreases |points|
  {
    if points != [] {
      var k := points[0];
      var r := LegacyCalcAll(ip, points, world, std, user);
      var (lp, out) := LegacyCalcStats(world[k], ip.item, std, user);
      if r.1.Pass? && out.Pass? {
        assert Distinct(points[1..]) && k !in points[1..] by {
          forall j | j in points[1..] ensures j != k {
            var i :| 0 <= i < |points[1..]| && points[1..][i] == j;
            assert points[i + 1] == j;
          }
        }
        assert Indexes(points[1..], |world|);
        LegacyCalcAllCalcsEach(ip, points[1..], world[k := lp], std, user);
        forall j | j in points ensures LegacyCalcStats(world[j], ip.item, std, user) == (r.0[j], Pass) {
          if j != k {
            assert j in points[1..];
            assert world[k := lp][j] == world[j];
          }
        }
      }
    }
  }

  /** The converse of LegacyCalcAll's KeyError clause: a listed point
      without the item makes the loop fail. */
  lemma {:induction false} LegacyCalcAllNeedsRecords(ip: ItemPoints, points: seq<nat>, world: seq<LegacyPoint>,
                                                     std: seq<string>, user: seq<(string, UserStat)>)
    requires Indexes(points, |world|)
    ensures LegacyCalcAll(ip, points, world, std, user).1.Pass? ==> AllHave(points, world, ip.item.id)
    decreases |points|
  {
    if points != [] {
      var k := points[0];
      var (lp, out) := LegacyCalcStats(world[k], ip.item, std, user);
      if out.Pass? {
        assert Indexes(points[1..], |world|);
        LegacyCalcAllNeedsRecords(ip, points[1..], world[k := lp], std, user);
        if LegacyCalcAll(ip, points, world, std, user).1.Pass? {
          forall i | 0 <= i < |points| ensures ip.item.id in world[points[i]].itemStats {
            if i > 0 {
              assert points[1..][i - 1] == points[i];
              assert ip.item.id in world[k := lp][points[i]].itemStats;
            }
          }
        }
      }
    }
  }
}
