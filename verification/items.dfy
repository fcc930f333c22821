/** The items a driller reads from: an image file named by a path
    (drill.ImageItem in pixdrill/drill.py) or a STAC Item with raster assets,
    and the GDAL path of an asset (get_asset_filepath in
    pixdrill/image_reader.py).
 */
module Items {
  import opened Results

  datatype Item =
    | ImageItem(filepath: string, id: string)
      /** `assets` maps an asset id to its href; `acquired` is the item's
          acquisition time in whole seconds since the epoch, UTC. */
    | StacItem(id: string, assets: map<string, string>, acquired: int)

  /** The ImageItem constructor: the id is the given one when it is truthy
      (given and not the empty string), else the file path. */
  function MakeImageItem(filepath: string, id: Option<string>): (it: Item)
    ensures it.ImageItem? && it.filepath == filepath
    ensures id.Some? && id.value != "" ==> it.id == id.value
    ensures id.None? || id.value == "" ==> it.id == filepath
  {
    ImageItem(filepath, if id.Some? && id.value != "" then id.value else filepath)
  }

  const VsiCurl: string := "/vsicurl/"

  /** get_asset_filepath: the asset's href behind GDAL's /vsicurl/ prefix;
      an asset id the item does not have is a KeyError. */
  function AssetFilepath(item: Item, assetId: string): (r: Result<string>)
    ensures r.Ok? <==> item.StacItem? && assetId in item.assets
    ensures r.Ok? ==> r.value == VsiCurl + item.assets[assetId]
    ensures r.Ok? ==> r.value[..|VsiCurl|] == VsiCurl && r.value[|VsiCurl|..] == item.assets[assetId]
    ensures r.Err? ==> r.error == UnknownAsset(assetId)
  {
    if item.StacItem? && assetId in item.assets then Ok(VsiCurl + item.assets[assetId])
    else Err(UnknownAsset(assetId))
  }

  /** The ignore_val argument of a read: none, one value for every asset,
      or one (possibly missing) value per asset. */
  datatype IgnoreVal = NoIgnore | Single(v: real) | PerAsset(values: seq<Option<real>>)

  /** The ignore value of each of `n` assets: a list must have one entry per
      asset; a single value or none is repeated. */
  function Broadcast(ignore: IgnoreVal, n: nat): (r: Result<seq<Option<real>>>)
    ensures r.Err? <==> ignore.PerAsset? && |ignore.values| != n
    ensures r.Err? ==> r.error == IgnoreListLength
    ensures r.Ok? ==> |r.value| == n
    ensures r.Ok? && ignore.PerAsset? ==> r.value == ignore.values
    ensures r.Ok? && ignore.Single? ==> forall k :: 0 <= k < n ==> r.value[k] == Some(ignore.v)
    ensures r.Ok? && ignore.NoIgnore? ==> forall k :: 0 <= k < n ==> r.value[k].None?
  {
    match ignore
    case PerAsset(values) => if |values| != n then Err(IgnoreListLength) else Ok(values)
    case Single(v) => Ok(seq(n, _ => Some(v)))
    case NoIgnore => Ok(seq(n, _ => None))
  }

  /** Broadcasting is idempotent: the per-asset list it gives broadcasts
      to itself, so read_data may be handed either form. */
  lemma BroadcastIdempotent(ignore: IgnoreVal, n: nat)
    requires Broadcast(ignore, n).Ok?
    ensures Broadcast(PerAsset(Broadcast(ignore, n).value), n) == Broadcast(ignore, n)
  {
  }

  /** Two distinct hrefs never give the same path. */
  lemma AssetFilepathInjective(item: Item, a: string, b: string)
    requires AssetFilepath(item, a).Ok? && AssetFilepath(item, b).Ok?
    requires AssetFilepath(item, a) == AssetFilepath(item, b)
    ensures item.assets[a] == item.assets[b]
  {
    var pa := AssetFilepath(item, a).value;
    assert pa[|VsiCurl|..] == item.assets[a];
  }

  /** The asset path of the older test suite. */
  lemma SentinelAssetFilepath()
    ensures var href := "https://sentinel-cogs.s3.us-west-2.amazonaws.com/sentinel-s2-l2a-cogs/53/H/PV/2022/7/S2B_53HPV_20220728_0_L2A/B02.tif";
            AssetFilepath(StacItem("S2B_53HPV_20220728_0_L2A", map["B02" := href], 0), "B02")
            == Ok("/vsicurl/" + href)
  {
  }
}
