/** Failure-compatible wrappers and the error taxonomy of the pixel driller.

    Every exception the drilling code raises on purpose (PointError,
    ImageReaderError, MultibandAssetError, ItemDrillerError, PixelStacError),
    every Python lookup failure it relies on (KeyError, an assertion) and the
    GDAL RuntimeError it recovers from is a constructor of `Error`, so that the
    model returns errors instead of raising them.
 */
module Results {

  datatype Option<+T> = None | Some(value: T) {
    predicate IsFailure() { None? }

    function PropagateFailure<U>(): Option<U>
      requires None?
    {
      None
    }

    function Extract(): T
      requires Some?
    {
      value
    }
  }

  datatype Error =
    /** PointError: the point's own CRS is neither projected nor geographic. */
    | UnknownPointCrs
    /** PointError: the destination CRS is neither projected nor geographic. */
    | UnknownDestinationCrs
    /** ImageReaderError: a circular ROI needs at least 5 array elements. */
    | TooFewPixels
    /** ImageReaderError: the point's ROI shape is not square or circle. */
    | UnknownShape(shape: string)
    /** GDAL RuntimeError: a file could not be opened or a window could not be read. */
    | RasterIo(path: string)
    /** MultibandAssetError: the indices of the arrays with more than one band. */
    | MultibandAsset(indices: seq<nat>)
    /** KeyError: a standard statistic name without a function. */
    | UnknownStat(name: string)
    /** KeyError: no statistics record for this item id. */
    | UnknownItem(id: string)
    /** KeyError: the item has no asset with this id. */
    | UnknownAsset(id: string)
    /** KeyError: a statistics record has no entry with this name. */
    | MissingStat(name: string)
    /** AttributeError / TypeError: an entry does not hold the list it should. */
    | NotAList(name: string)
    /** ItemDrillerError: asset ids given for an image item. */
    | AssetIdsForImageItem
    /** ItemDrillerError: asset ids missing or empty. */
    | MissingAssetIds
    /** ItemDrillerError: a list of ignore values given for an image item. */
    | IgnoreListForImageItem
    /** ItemDrillerError (or an AssertionError in the older reader): the
        ignore-value list and the asset-id list differ in length. */
    | IgnoreListLength
    /** PixelStacError: explicit image ids that are not one per image and unique. */
    | ImageIdsMismatch

  datatype Result<+T> = Ok(value: T) | Err(error: Error) {
    predicate IsFailure() { Err? }

    function PropagateFailure<U>(): Result<U>
      requires Err?
    {
      Err(error)
    }

    function Extract(): T
      requires Ok?
    {
      value
    }
  }

  /** A check that either passes or fails with an error. */
  datatype Outcome = Pass | Fail(error: Error) {
    predicate IsFailure() { Fail? }

    function PropagateFailure<U>(): Result<U>
      requires Fail?
    {
      Err(error)
    }
  }
}
