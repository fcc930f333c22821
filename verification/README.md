# pixeldriller, modelled in Dafny

pixeldriller drills pixels out of rasters at a set of survey points. Each
point has a location, a time window and a region of interest (ROI). The ROI
is a square or a circle of some buffer around the point. The rasters are
either STAC Items found by a search or image files named by path. For each
point and each raster item, the drill reads the ROI's pixels of every asset
as a numpy masked array. It stores the arrays in the point's statistics
store and computes standard statistics (mean, stddev, count, countnull) and
user-supplied ones over them.

The model covers the package `pixdrill` and the older package `pixelstac`
it replaced:

| module | file | what it models |
|---|---|---|
| `Results` | results.dfy | the errors the code raises, as `Result` / `Outcome` values |
| `Geo` | geo.dfy | CRSs, geotransforms, `wld2pix` / `pix2wld`, `ImageInfo` |
| `DrillPoints` | points.dfy | `Point`: the constructor, `intersects`, `change_buffer_units`, the UTM zone rule |
| `PixelWindows` | windows.dfy | `get_pix_window`: the covering window, clipping, the single pixel of a zero buffer |
| `MaskedArrays` | masked.dfy | masked arrays, `count`, `countnull`, `mean`, the variance, no-data masking |
| `ImageReader` | image_reader.dfy | `ImageReader.read_roi` and `mask_roi_shape` |
| `AssetReader` | asset_reader.dfy | `AssetReader.read_roi` and `get_pix_window` of `pixelstac` |
| `Items` | items.dfy | `ImageItem`, STAC items, `get_asset_filepath`, broadcasting `ignore_val` |
| `DrillStats` | drillstats.dfy | `PointStats`: `add_data`, `calc_stats`, `get_stats`, `reset`, the standard statistics |
| `PointStatsLegacy` | pointstats.dfy | `pixelstac`'s `Point` statistics and `ItemPoints` |
| `ItemDrillers` | item_driller.dfy | `ItemDriller`: `set_asset_ids`, `add_point`, `read_data` with its rollback, `calc_stats`, `reset_stats` |
| `Drill` | drill.dfy | `create_image_drillers`, `create_stac_drillers`, `_time_diff` and `drill` |

Calls into GDAL, OSR and the STAC client become parameters:

- A `Projection` is a function from (source CRS, destination CRS, x, y) to a
  coordinate pair. It stands for OSR's coordinate transformation.
- An `Opener` maps a path to `Some(raster)` or to `None`. `None` is the
  `RuntimeError` GDAL raises on a file it cannot open.
- A raster's pixel values are a function of (band, column, row). Reading
  outside the grid is GDAL's error.
- `drill` takes the search results for each point as a parameter: what
  `search.items()` returned for every point, or nothing when no STAC
  endpoint was given.

Five defects of the source are listed under "## Findings". Each is modelled
twice, as written and corrected. Four of them lie on the path from a point
to its pixels, and that path runs in either version. `DrillPoints.Variant`
is `AsWritten` or `Corrected`, and the buffer conversion, the reader, the
item driller and `drill` take it as a parameter. `AsWritten` uses the truncating UTM zone rule, the `elif`
clipping and the inclusive single-pixel test of the window, and the
element-counting shape gate. `Corrected` uses the intended definitions.
Contracts are stated for both versions. Where they differ, the contract
says which version it is about.

Points are shared between drillers. In Python they are objects whose `stats`
several drillers mutate. Here the points form one sequence `world`, and a
driller holds indices into it. Each operation returns the new `world`
together with its error, if any.

Where the source and its documentation disagree, the model follows the
source:

- drillstats.py's `PointStats` is written for one item: its constructor takes
  `(pt, item)`, and `add_data` and `reset` take no item. Yet its callers,
  drillpoints.py:149, 437, 565-567 and 580-586, use it as a store keyed by
  item id, and so does tests/test_drillstats.py. The model follows the
  callers: a map from item id to record.
- The documentation says `read_data` returns False when a file cannot be
  opened. For an `ImageItem`, however, the image is opened in the
  `ImageReader` constructor, drillpoints.py:478, which is outside the `try`.
  That error therefore propagates as an exception, and `ReadData` returns
  `Err(RasterIo)` for it. A GDAL error raised by the reads themselves,
  inside the `try` of drillpoints.py:484-492, is caught: the item is reset
  and `read_data` returns False. The reads raise only as written, for
  example at a point on the image's east edge. Corrected, an image item
  never returns False.
- User statistics run after the standard ones and may overwrite a standard
  name. The model keeps that order.
- `STATS_STD` lists `count` twice and omits `countnull`, drillstats.py:38.
  `get_stats` therefore answers a missing `countnull` with `None`, not `[]`.

## Model

| member | source | states |
|---|---|---|
| Geo.Wld2PixOfPix2Wld | pixdrill/image_reader.py:559-592 | wld2pix undoes pix2wld for every invertible geotransform |
| Geo.Pix2WldOfWld2Pix | pixdrill/image_reader.py:559-592 | pix2wld undoes wld2pix: the two are inverse bijections |
| Geo.MakeImageInfo | pixdrill/image_reader.py:93-130 | the extents span ncols * pixel width and nrows * pixel height; the upper-left and lower-right pixel corners map to (xMin, yMax) and (xMax, yMin) |
| Geo.SentinelTileExtent | tests/test_image_reader.py:16-40 | the 10 m and 20 m Sentinel-2 tiles of the test suite get the extents the test expects |
| DrillPoints.MakePoint | pixdrill/drillpoints.py:125-149 | a naive time becomes UTC; the window is t - t_delta to t + t_delta; the WGS84 longitude 180 is wrapped to -180 and never stays near 180 |
| DrillPoints.IntersectsWithinGrid | pixdrill/drillpoints.py:151-173 | a point inside a north-up image's extent has pixel coordinates inside [0, ncols] x [0, nrows] |
| DrillPoints.TransformedBuffer | pixdrill/drillpoints.py:318-342 | a zero buffer stays zero in any CRS |
| DrillPoints.TransformedBufferOfAffine | pixdrill/drillpoints.py:318-342 | when the projection scales x by a, the buffer is scaled by a |
| DrillPoints.UtmEpsgPicksContainingZone | pixdrill/drillpoints.py:279-282 | corrected zone rule: the longitude lies in the six-degree band of the zone whose code is chosen; the code is 326xx north and 327xx south |
| DrillPoints.UtmEpsgAsWritten | pixdrill/drillpoints.py:279-282 | as written, with truncating int(): agrees with the corrected rule east of Greenwich |
| DrillPoints.UtmEpsgAsWrittenWrongWestOfGreenwich | pixdrill/drillpoints.py:279-282 | a point at 3 degrees west gets zone 31 instead of zone 30, and zone 31 does not contain it |
| DrillPoints.ChangeBufferUnits | pixdrill/drillpoints.py:239-316 | in either version: fails exactly for an unknown destination CRS, or an unknown point CRS that needs converting; returns the buffer unchanged when no conversion is needed; a zero buffer stays zero |
| DrillPoints.ChangeBufferUnitsViaUtm | pixdrill/drillpoints.py:269-291 | a metre buffer on a geographic point goes through a UTM zone of the point's WGS84 location: as written, EPSG `32600/32700 + int(lon / 6.0) + 31` with int() truncating toward zero; corrected, the zone that contains the longitude |
| DrillPoints.ChangeBufferUnitsVariantsAgree | pixdrill/drillpoints.py:269-291 | the two versions convert every buffer alike, except a metre buffer of a geographic point west of Greenwich, the only case that goes through a UTM zone the two rules may pick differently |
| DrillPoints.ChangeBufferUnitsSettles | pixdrill/drillpoints.py:239-316 | in either version, a point carrying the converted buffer, in the destination's units, needs no further conversion and converts to the same buffer |
| PixelWindows.CoverSpan | pixdrill/image_reader.py:429-441 | the window along an axis holds exactly the pixels whose interior meets the ROI's span |
| PixelWindows.ClipSpan | pixdrill/image_reader.py:445-454 | corrected clipping: the clipped span holds exactly the pixels of the span that lie in the grid |
| PixelWindows.ClipColsAsWritten | pixdrill/image_reader.py:445-449 | as written: agrees with the corrected clipping unless the span overhangs both edges |
| PixelWindows.ClipRowsAsWrittenAgreesWithCols | pixdrill/image_reader.py:450-454 | the row clipping's `>=` behaves exactly as the column clipping's `>` |
| PixelWindows.ClipColsAsWrittenOverhangs | pixdrill/image_reader.py:445-449 | a span overhanging both edges keeps a column past the grid |
| PixelWindows.SinglePixel | pixdrill/image_reader.py:455-467 | corrected: one pixel, the one holding the point, exactly when the point lies inside the grid, and no pixel otherwise |
| PixelWindows.SinglePixelAsWritten | pixdrill/image_reader.py:455-467 | as written: gives the same pixel for every point inside the grid |
| PixelWindows.SinglePixelAsWrittenOutsideGrid | pixdrill/image_reader.py:461-462 | a point on the east edge of a 10 x 10 grid gets pixel column 10, outside the grid |
| PixelWindows.PixWindow | pixdrill/image_reader.py:386-468 | a window that holds pixels lies inside the grid; for a positive buffer it holds exactly the grid pixels that the ROI square touches |
| PixelWindows.PixWindowAsWritten | pixdrill/image_reader.py:386-468 | as written: for a zero buffer inside the grid, the window is the corrected one |
| PixelWindows.PixWindowAsWrittenAgrees | pixdrill/image_reader.py:429-454 | when the ROI does not overhang two opposite edges, the window as written is the corrected one |
| PixelWindows.PixWindowAsWrittenPastGrid | pixdrill/image_reader.py:445-454 | a 60 m ROI on a 100 m grid gets an 11-pixel window as written and 10 pixels corrected |
| PixelWindows.GetPixWindow | pixdrill/image_reader.py:386-468 | corrected: converts the buffer with the zone that contains the point; fails exactly when that conversion fails; the window is the one around the point projected into the image's CRS |
| PixelWindows.GetPixWindowAsWritten | pixdrill/image_reader.py:386-468 | as written: converts the buffer with the truncating zone rule; fails exactly when that conversion fails, with its error; never starts left of the grid |
| PixelWindows.GetPixWindowAsWrittenAgrees | pixdrill/image_reader.py:386-468 | when both versions convert the buffer alike and the ROI neither overhangs two opposite edges nor, for a zero buffer, lies outside the grid, the window as written is the corrected one |
| PixelWindows.SentinelWindows | tests/test_image_reader.py:67-80 | the 50 m ROI of the test suite gets the windows the test expects on the 10 m and 20 m tiles |
| MaskedArrays.SizeOfShaped | pixdrill/image_reader.py:348-370 | an array of shape (bands, rows, columns) has bands * rows * columns elements |
| MaskedArrays.CountPlusCountNull | pixdrill/drillstats.py:262-299 | count plus countnull is the size of the array |
| MaskedArrays.Mean | pixdrill/drillstats.py:213-233 | the mean is NaN exactly when no element is unmasked |
| MaskedArrays.MeanWithinBounds | pixdrill/drillstats.py:213-233 | the mean lies between the least and the greatest unmasked value |
| MaskedArrays.Variance | pixdrill/drillstats.py:236-259 | the variance is NaN exactly when no element is unmasked, and is never negative |
| MaskedArrays.EffectiveNodata | pixdrill/image_reader.py:351-361 | a truthy ignore_val replaces the band's no-data value; None or 0 keeps the band's own |
| MaskedArrays.MaskBand | pixdrill/image_reader.py:351-361 | an element is masked exactly when it equals the no-data value; the values and shape are kept |
| MaskedArrays.NoNodataMasksNothing | pixdrill/image_reader.py:351-361 | a band with no mask counts all of its elements and nothing as null |
| MaskedArrays.CountExamples | tests/test_drillstats.py:141-160 | count and countnull of the test arrays: 9 of the 1 x 2 x 5 array with 0 masked, 3 null with 0, 1 and 2 masked, 16 and 0 of the unmasked 1 x 4 x 4 array, and 0 and 0 of the empty array |
| ImageReader.ReadBand | pixdrill/image_reader.py:351-361 | the read succeeds exactly when the window lies in the grid, and gives the raster's values at the window's pixels |
| ImageReader.ReadBands | pixdrill/image_reader.py:348-366 | one masked band per raster band, each of the window's shape and masked with its own no-data value |
| ImageReader.MaskOutside | pixdrill/image_reader.py:513-555 | a pixel becomes null exactly when all four of its corners lie outside the circle; the shape is kept |
| ImageReader.MaskRoiShape | pixdrill/image_reader.py:470-557 | in either version of the radius conversion: a square is kept; a circle with fewer than five elements and an unknown shape fail; otherwise only the data changes, and only pixels outside the circle |
| ImageReader.MaskRoiShapeIdempotent | pixdrill/image_reader.py:470-557 | masking the result again changes nothing |
| ImageReader.PixelOutsideShrinks | pixdrill/image_reader.py:530-540 | a pixel outside a circle is also outside every smaller circle about the same centre |
| ImageReader.ShapeGatesAgreeOnOneBand | pixdrill/image_reader.py:382-383 | on a single band, the gate as written and the corrected gate agree |
| ImageReader.ShapeGateEnoughPixels | pixdrill/image_reader.py:382-383 | past the corrected gate, an array always has the five elements a circle needs |
| ImageReader.ShapeGateMasks | pixdrill/image_reader.py:367-383 | what the corrected gate admits has one band per raster band and at least five elements |
| ImageReader.ReadArray | pixdrill/image_reader.py:341-370 | fails exactly for a window with pixels outside the grid; the array's bounds are those of the window's upper-left pixel, and an empty window reads an empty array |
| ImageReader.ReadRoi | pixdrill/image_reader.py:303-384 | corrected read_roi: never fails with a GDAL error, fails on the buffer exactly as get_pix_window does, and reads the corrected window |
| ImageReader.ReadRoiEmptyIffNoOverlap | pixdrill/image_reader.py:303-384 | the array is empty exactly when the ROI touches no pixel of the grid |
| ImageReader.ReadRoiAsWritten | pixdrill/image_reader.py:303-384 | as written: a buffer that cannot be converted is the window's error; otherwise GDAL raises, naming the raster, exactly when the window holds pixels outside the grid; an array the element-counting gate refuses, or a square, is returned unmasked, and one it admits is masked; never more bands than the raster |
| ImageReader.ReadRoiOf | pixdrill/image_reader.py:303-384 | read_roi in the version chosen; a GDAL error from an opened raster happens only as written, and names that raster |
| ImageReader.SmallRaster | pixdrill/image_reader.py:93-130 | the model's own fixture, a 10 x 10 image of 10 m pixels, is a well-formed north-up image |
| ImageReader.ReadRoiAsWrittenFailsOnEastEdge | pixdrill/image_reader.py:455-467 | a point on the east edge intersects the image, but the read as written fails; the corrected read gives an empty array |
| ImageReader.ReadRoiAsWrittenFailsOnWideRoi | pixdrill/image_reader.py:445-454 | a ROI overhanging both sides fails as written and reads the whole width when corrected |
| ImageReader.ReadRoiAsWrittenMasksMultibandPoint | pixdrill/image_reader.py:382-383 | a zero-radius circle on a five-band image passes the gate as written and is masked; on one band it is not; corrected, neither is |
| ImageReader.SmallRasterPointWindow | pixdrill/image_reader.py:455-467 | on the model's own fixture, the zero-radius circle at (55, 45) gets the single pixel (5, 5) in both versions: one element per band |
| AssetReader.LegacyPixWindow | pixelstac/asset_reader.py:254-289 | the window holds exactly the pixels the ROI square touches |
| AssetReader.LegacyClip | pixelstac/asset_reader.py:215-224 | the clipped offsets are never negative; the far edge is cut only when the near edge was not |
| AssetReader.LegacyRoiWindow | pixelstac/asset_reader.py:191-224 | the window read never starts before the grid |
| AssetReader.LegacyReadRoi | pixelstac/asset_reader.py:191-251 | fails exactly when the window holds pixels past the grid; the array is empty exactly when the window or the raster holds none |
| AssetReader.ReadArrayEmptyIff | pixdrill/image_reader.py:341-370 | an array read through a window is empty exactly when the window or the raster is empty |
| AssetReader.LegacyWindowMatchesImageReader | pixelstac/asset_reader.py:254-289 | for a positive buffer in the image's units, both readers compute the same window |
| AssetReader.LegacyReadRoiMatchesImageReader | pixelstac/asset_reader.py:191-251 | for such a square ROI, both readers read the same array |
| AssetReader.LegacyReadRoiFailsOnWideRoi | pixelstac/asset_reader.py:215-224 | the older reader has the same clipping defect: a ROI overhanging both sides fails |
| AssetReader.LegacySentinelWindows | tests/test_asset_reader.py:46-61 | the windows of the older test suite |
| AssetReader.LegacyTileExtent | tests/test_asset_reader.py:25-40 | the extents of the older test suite's tile |
| Items.MakeImageItem | pixdrill/drill.py:439-449 | the id is the given one when it is truthy, else the path |
| Items.AssetFilepath | pixdrill/image_reader.py:218-223 | succeeds exactly for an asset the item has; the path is /vsicurl/ followed by the href |
| Items.AssetFilepathInjective | pixdrill/image_reader.py:218-223 | different hrefs give different paths |
| Items.Broadcast | pixdrill/drillpoints.py:501-507 | a list of ignore values must have one per asset; one value or None is repeated for every asset |
| Items.BroadcastIdempotent | pixdrill/drillpoints.py:501-507 | the per-asset list that broadcasting gives broadcasts to itself |
| Items.SentinelAssetFilepath | tests/test_asset_reader.py:9-13 | the path of the B02 asset of the test item |
| DrillStats.MultibandIndices | pixdrill/drillstats.py:201-210 | lists, in order, exactly the arrays with more than one band |
| DrillStats.CheckStdArrays | pixdrill/drillstats.py:188-210 | passes exactly when every array has at most one band, and names the others otherwise |
| DrillStats.StdStat | pixdrill/drillstats.py:302-307 | known exactly for the four standard names; one value per array, computed by the matching masked-array statistic |
| DrillStats.CountsSumToSize | pixdrill/drillstats.py:262-299 | for each array, count plus countnull is the array's size |
| DrillStats.StoreStd | pixdrill/drillstats.py:125-140 | passes exactly when every requested name is known; stores each requested name and keeps raw, arrayinfo and every other name |
| DrillStats.StoreUser | pixdrill/drillstats.py:141-144 | fails exactly when user statistics are asked for and arrayinfo is missing; afterwards the keys are the old ones plus the user names |
| DrillStats.StoreUserLastWins | pixdrill/drillstats.py:141-144 | the last user function of a name decides that name's value |
| DrillStats.CalcRecordStats | pixdrill/drillstats.py:93-144 | with standard names, raw must be present; a multiband array is refused only when standard statistics are asked for |
| DrillStats.CalcRecordStatsStores | pixdrill/drillstats.py:93-144 | on a well-formed record of single-band arrays, every requested standard statistic is stored |
| DrillStats.CalcRecordStatsUserWins | pixdrill/drillstats.py:125-144 | a user statistic named like a standard one replaces it |
| DrillStats.FreshStats | pixdrill/drillstats.py:65-69 | a new record holds empty raw and arrayinfo lists and nothing else |
| DrillStats.AppendData | pixdrill/drillstats.py:72-90 | appends the array to raw and the ArrayInfo to arrayinfo, keeping the two lists in step and every other name |
| DrillStats.NewPointStats | pixdrill/drillpoints.py:149 | a new point has no record |
| DrillStats.Reset | pixdrill/drillstats.py:172-180 | the item's record is fresh; every other record is kept |
| DrillStats.ResetIdempotent | pixdrill/drillstats.py:172-180 | resetting twice is resetting once |
| DrillStats.AddData | pixdrill/drillstats.py:72-90 | succeeds exactly when the item's record is new or holds lists; only that record changes, by one array |
| DrillStats.ResetUndoesAddData | pixdrill/drillpoints.py:580-586 | resetting an item undoes any data added for it |
| DrillStats.CalcStats | pixdrill/drillstats.py:93-144 | an item without a record is an error; only the item's record can change |
| DrillStats.Default | pixdrill/drillstats.py:166-169 | a missing name in STATS_STD reads as [], any other as None |
| DrillStats.DefaultOfCounts | pixdrill/drillstats.py:38 | because STATS_STD omits countnull, a missing countnull reads as None while count reads as [] |
| DrillStats.Lookup | pixdrill/drillstats.py:147-169 | a stored name gives its value; a missing one gives its default |
| DrillStats.GetStats | pixdrill/drillstats.py:147-169 | the four answers of get_stats: everything, one item, one statistic per item, or one value |
| DrillStats.GetStatsViewsAgree | tests/test_drillstats.py:293-320 | asking for one item's statistic agrees with that item's entry in the per-item answer |
| DrillStats.ResetReadsEmpty | tests/test_drillstats.py:251-290 | after a reset, an item's statistic reads as its default |
| DrillStats.NewPointStatsAnswers | tests/test_drillstats.py:293-320 | a new point answers with empty maps and defaults |
| DrillStats.MultibandRefused | pixdrill/drillstats.py:201-210 | a multiband array fails the calculation exactly when standard statistics are asked for |
| PointStatsLegacy.AddItems | pixelstac/pointstats.py:102-113 | adds an empty record for each new item id and keeps the existing ones |
| PointStatsLegacy.AddItemsPresent | pixelstac/pointstats.py:102-113 | items already present change nothing |
| PointStatsLegacy.AddItemsIdempotent | pixelstac/pointstats.py:102-113 | adding the same items twice is adding them once |
| PointStatsLegacy.LazyAppend | pixelstac/pointstats.py:378-396 | creates raw and arrayinfo on first use; on a well-formed record it is the newer append |
| PointStatsLegacy.LegacyAddData | pixelstac/pointstats.py:116-131 | an item never added is an error; only that item's record changes |
| PointStatsLegacy.LegacyCalcStats | pixelstac/pointstats.py:134-153 | an item never added is an error; only that item's record changes, as the newer calc_stats changes it |
| PointStatsLegacy.GetStat | pixelstac/pointstats.py:164-170 | answers exactly for a stored name of a known item; otherwise it is a KeyError, with no default |
| PointStatsLegacy.GetStatMatchesGetStats | pixelstac/pointstats.py:164-170 | where the older accessor answers, the newer one gives the same value |
| PointStatsLegacy.LegacyReadPoints | pixelstac/asset_reader.py:165-188 | only the item's records of the listed points change |
| PointStatsLegacy.LegacyReadPointsAddsEach | pixelstac/asset_reader.py:165-188 | on success, each listed point got its own ROI added |
| PointStatsLegacy.LegacyReadAssets | pixelstac/pointstats.py:274-281 | only the item's records of the listed points change; an unknown first asset fails before anything is read |
| PointStatsLegacy.LegacyReadData | pixelstac/pointstats.py:260-281 | a list of ignore values of the wrong length fails before anything is read |
| PointStatsLegacy.LegacyCalcAll | pixelstac/pointstats.py:292-311 | only the item's records change; an unknown-item error names the item and means some point lacks it |
| PointStatsLegacy.LegacyCalcAllCalcsEach | pixelstac/pointstats.py:292-311 | on success, each listed point holds what Point.calc_stats computes from its own record of the item |
| PointStatsLegacy.LegacyCalcAllNeedsRecords | pixelstac/pointstats.py:292-311 | a listed point without the item makes the loop fail: success means every listed point has it |
| ItemDrillers.NewDriller | pixdrill/drillpoints.py:374-381 | asset ids are refused exactly for an image item; a new driller has no point |
| ItemDrillers.SetAssetIds | pixdrill/drillpoints.py:383-426 | refused for an image item, and None or an empty list is refused; otherwise only the asset ids change |
| ItemDrillers.AddPoint | pixdrill/drillpoints.py:428-437 | appends the point and keeps the others, so a point added twice is read twice |
| ItemDrillers.ResetAll | pixdrill/drillpoints.py:580-586 | each listed point's record of the item is fresh; nothing else changes |
| ItemDrillers.ReadPoints | pixdrill/image_reader.py:267-301 | only the item's records of the listed points change; a read fails with a GDAL error only as written, and the error names the raster read |
| ItemDrillers.ReadAndAdd | pixdrill/image_reader.py:299-301 | a failed read_roi is the reader's error; on success only the item's record of the point changes; a GDAL error happens only as written |
| ItemDrillers.ReadPointsAddsEach | pixdrill/image_reader.py:299-301 | on success, in either version, each listed point got its own ROI, read by that version's reader, added |
| ItemDrillers.ReadAssets | pixdrill/drillpoints.py:512-524 | only the item's records of the listed points change; a GDAL error names an asset that could not be opened or, as written only, an opened asset read outside its grid |
| ItemDrillers.ReadData | pixdrill/drillpoints.py:439-525 | only the item's records change; an image GDAL cannot open raises; list ignore values are refused for an image and must match the assets of a STAC item; missing asset ids raise; an image item returns False only as written, when a read of its points raised a GDAL error |
| ItemDrillers.ReadDataRollsBack | pixdrill/drillpoints.py:484-524 | for an image or a STAC item, in either version, a read that returns False leaves every point of the driller with a fresh record of the item and nothing else changed |
| ItemDrillers.ReadDataRollsBackOnEastEdge | pixdrill/drillpoints.py:484-492 | a zero-buffer point on the east edge of an image item: as written, read_data returns False and the item is reset at the point; corrected, it returns True |
| ItemDrillers.ResetForgetsItem | pixdrill/drillpoints.py:580-586 | resetting an item gives the same store whatever was done to that item's record |
| ItemDrillers.CalcAll | pixdrill/drillpoints.py:539-567 | only the item's records change; an unknown-item error names the item and means some point has no record of it |
| ItemDrillers.CalcAllCalcsEach | pixdrill/drillpoints.py:544-545 | on completion every listed point is populated: each holds what PointStats.calc_stats computes from its own record of the item |
| ItemDrillers.CalcAllNeedsRecords | pixdrill/drillpoints.py:565-567 | a listed point with no record of the item makes the loop fail: success means every listed point has one |
| ItemDrillers.CalcAllPasses | pixdrill/drillpoints.py:565-567 | with standard names calc_stats knows, no user statistic named `raw` or `arrayinfo`, and well-formed single-band records at every listed point, the loop succeeds |
| ItemDrillers.CalcAllAfterResetPasses | pixdrill/drillpoints.py:565-586 | on the fresh records reset_stats leaves, the loop succeeds under the same conditions on the names |
| Drill.IntersectingPoints | pixdrill/drill.py:278-285 | exactly the points that intersect the image, in order |
| Drill.ZippedIds | pixdrill/drill.py:278-285 | the image ids paired with the images, cut to the shorter of the two |
| Drill.ImageDrillers | pixdrill/drill.py:278-285 | fails exactly when an image cannot be opened; one driller per image, holding the points that intersect it |
| Drill.CreateImageDrillersAsWritten | pixdrill/drill.py:272-277 | as written: refuses when the number of images differs from the number of distinct ids |
| Drill.CreateImageDrillersAsWrittenSharesIds | pixdrill/drill.py:272-277 | two images with ids x, x, y pass the check and both drillers get id x |
| Drill.CreateImageDrillers | pixdrill/drill.py:251-286 | corrected: refuses exactly when the ids are not one distinct id per image; one driller per image, and distinct given ids stay distinct |
| Drill.ImageDrillerAssignsIntersecting | tests/test_drill.py:100-122 | of two points, only the one inside the image is drilled |
| Drill.TimeDiff | pixdrill/drill.py:358-390 | the absolute distance in seconds between the acquisition time and the point's time |
| Drill.TimeDiffOrdersByDistance | pixdrill/drill.py:358-390 | ordering by time difference is ordering by squared distance from the point's time, and the difference is 0 exactly at the point's time |
| Drill.Insert | pixdrill/drill.py:346-348 | inserting keeps the sequence sorted by time distance and adds exactly the item |
| Drill.SortByTime | pixdrill/drill.py:346-348 | sorted by time distance, and a permutation of the items |
| Drill.PrefixNearest | pixdrill/drill.py:346-348 | the first m items of a sorted sequence are no farther in time than the rest |
| Drill.NearestN | pixdrill/drill.py:346-348 | a positive n keeps min(n, found) items, sorted, drawn from the items, and leaves out nothing nearer in time than what it keeps; n <= 0 keeps all |
| Drill.AddToGroups | pixdrill/drill.py:350-354 | one driller per item id; the point is appended to the driller of its item id, or a new driller for the item holds it alone; nothing else changes |
| Drill.Pairs | pixdrill/drill.py:350-354 | the (point, item) pairs are exactly the items found for each point |
| Drill.PairsOrder | pixdrill/drill.py:330-354 | the pairs come point by point, and each point's items in the order found |
| Drill.Group | pixdrill/drill.py:350-354 | one driller per item id, and a point is in an item's driller exactly when some pair puts it there |
| Drill.GroupOrder | pixdrill/drill.py:350-354 | the grouping keeps the dictionary's insertion order: new drillers follow the order their ids are first seen, each holds the item first seen with its id, and every driller gets the points paired with its id, in order |
| Drill.NearestAll | pixdrill/drill.py:346-348 | each point's nearest items |
| Drill.CreateStacDrillers | pixdrill/drill.py:289-355 | one driller per item id, each with the asset ids given |
| Drill.CreateStacDrillersGroups | pixdrill/drill.py:289-355 | the drillers are for STAC items only, and a point is drilled for an item exactly when the item is one of its nearest |
| Drill.CreateStacDrillersOrder | pixdrill/drill.py:330-355 | the drillers follow the order in which the points' nearest items are first seen, each holds that first-seen item, and each driller's points are the points having its id among their nearest, in ascending order |
| Drill.StacMember | pixdrill/drill.py:350-354 | a point is in the driller of an id exactly when one of its nearest items has that id |
| Drill.StacPointFound | pixdrill/drill.py:340-354 | a point of a STAC driller is one the search found something for |
| Drill.ImagePointInside | pixdrill/drill.py:278-285 | a point of an image driller lies in that driller's image |
| Drill.RunDriller | pixdrill/drill.py:393-415 | in either version, only the driller's item's records of its points change |
| Drill.RunDrillerCalcsEach | pixdrill/drill.py:414-415 | on success the read went through, and each of the driller's points holds what calc_stats computes from the record the read left there |
| Drill.RunDrillerContinuesAfterRollback | pixdrill/drill.py:414-415 | a read that returned False does not stop drill: with known standard names and no user statistic named `raw` or `arrayinfo`, the driller succeeds |
| Drill.RunDrillerAfterRollback | pixdrill/drill.py:414-415 | after a read that returned False, the driller's outcome is calc_stats on the item's fresh records, as if nothing had been read |
| Drill.RunAll | pixdrill/drill.py:243-248 | in either version, no record is dropped, and every new or changed record is of an item some driller drills at that point |
| Drill.RunAllRecords | pixdrill/drill.py:243-248 | on success, every driller's item has a record at each of its points |
| Drill.RunAllAppend | pixdrill/drill.py:243-248 | running two lists of drillers in turn is running their concatenation: the second starts from the stores the first left, unless the first raised |
| Drill.DrillAll | pixdrill/drill.py:221-248 | in either version: keeps every point; a point no search found anything for and no image holds is unchanged; an image that cannot be opened raises before anything is read |
| Drill.ImageDrillerAt | pixdrill/drill.py:278-285 | image i's driller has the image's path as item id and holds exactly the points inside the image |
| Drill.MemberFrom | pixdrill/drill.py:221-230 | a driller of drill for an item at a point is one of the point's nearest STAC items or an image the point lies in |
| Drill.DrillAllRecords | pixdrill/drill.py:192-197 | after a successful drill, each point has a record of each of its nearest STAC items and of each image it lies in |
| Drill.DrillAllAddsOnly | pixdrill/drill.py:192-197 | a record drill adds to a point is for one of its nearest STAC items or an image it lies in; with DrillAllRecords, the new records are exactly the items the point intersects |
| Drill.Positions | pixdrill/drill.py:221-230 | the points' locations, in order |

## Left out

- I/O: GDAL, OSR and the STAC search are parameters (`Opener`, `Projection`
  and the search results given to `DrillAll`). Their own behaviour is not
  modelled.
- The concurrent branch of `drill`, pixdrill/drill.py:235-242, is left out.
  Threads are not modelled, and the model runs the drillers in order.
- Logging, the trace text of errors, `__str__` and `__repr__` are left out.
- Floating point: values, coordinates and statistics are real numbers. NaN
  is `None`, and the standard deviation is kept as the variance, because
  there is no square root over the reals.
- Times are whole seconds. `_time_diff` parses an ISO timestamp; the model
  takes the acquisition time already parsed.
- Dictionary order of `get_stats`: its answers are maps without order.
- The older `pixelstac` reader returns GDAL's None where the newer one raises.
  In the model both readers fail with `RasterIo` on a read outside the grid.
- Drill.SortByTime: stability of Python's sort (equal keys keep their order)
  is not proved. Only sortedness and the permutation are.
- Drill.NearestN: which of several items at the same time difference are kept
  depends on that stability. The model promises only that nothing nearer in
  time is left out, not which of the tied items are chosen.
- ItemDrillers.ReadData: for a STAC item, or an image item as written, that
  fails part-way, the arrays read
  before the failure are rolled back by the reset. The state between the
  failure and the reset is not modelled.
- ItemDrillers.ReadPoints and PointStatsLegacy.LegacyReadPoints: the read
  stops at the first error; which points were read before it is stated only
  for a run that succeeds.
- `ImagePoints.read_data`, pixelstac/pointstats.py:332-347, calls
  `asset_reader.RasterReader`, which does not exist in pixelstac/asset_reader.py.
  It is not modelled.
- Point.transform, to_wgs84 and the anti-meridian handling beyond the 180 to
  -180 wrap of the constructor are left out. Their effect is the
  `Projection` parameter.
- ImageReader.MaskOutside: when the band has no no-data value and
  `ignore_val` is falsy, the source assigns None to the pixels outside the
  circle, image_reader.py:551-553. numpy raises a TypeError for that on an
  integer band and stores NaN on a float band. Array element types are not
  modelled, so the model keeps the pixel's value under the mask and does
  not raise.
- ImageReader.MaskRoiShape: the same None assignment as
  ImageReader.MaskOutside; no TypeError is modelled.
- Geo.MakeImageInfo: the rotation terms gt[2] and gt[4] of GDAL's
  geotransform are dropped, and `wld2pix` / `pix2wld` are modelled for a
  north-up image. image_reader.py:99-104 also ignores them when it computes
  the extents, while `gdal.ApplyGeoTransform` would use them.
- The example scripts, benchmarks and documentation configuration are not
  part of this model.

## Findings

| source | as written | input that shows it | evidently intended | confidence | as-written member | corrected member |
|---|---|---|---|---|---|---|
| pixdrill/drillpoints.py:279-282 | the EPSG code is `32600/32700 + int(wgs84_x / 6.0) + 31`, and int() truncates toward zero | longitude -3, latitude 10 gives EPSG 32631 | the zone holding the longitude: 32630 | not executed | DrillPoints.UtmEpsgAsWrittenWrongWestOfGreenwich | DrillPoints.UtmEpsgPicksContainingZone |
| pixdrill/image_reader.py:461-462 | the single pixel is kept when `ul_px <= ncols` and `ul_py <= nrows` | a zero-buffer point at pixel x = 10.0 on a 10-column image | only pixels inside the grid: `< ncols`, `< nrows` | not executed | PixelWindows.SinglePixelAsWrittenOutsideGrid | PixelWindows.SinglePixel |
| pixdrill/image_reader.py:445-454 | the right or bottom edge is clipped only in an `elif` after the left or top edge | a 60 m ROI centred on a 100 m wide image of 10 m pixels | both edges clipped | not executed | PixelWindows.PixWindowAsWrittenPastGrid | PixelWindows.PixWindow |
| pixdrill/image_reader.py:382-383 | the ROI shape is applied when `data.size > 4`, counting the elements of all bands | a zero-radius circle inside one pixel of a five-band image | more than four pixels in the window | not executed | ImageReader.ReadRoiAsWrittenMasksMultibandPoint | ImageReader.ShapeGateEnoughPixels |
| pixdrill/drill.py:272-277 | image ids are refused when `len(images) != len(set(image_ids))` | images a.tif and b.tif with ids x, x, y | one distinct id per image | not executed | Drill.CreateImageDrillersAsWrittenSharesIds | Drill.CreateImageDrillers |
