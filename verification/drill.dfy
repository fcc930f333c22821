/** The driver of pixdrill/drill.py: building the drillers for images and
    for STAC search results, choosing the items nearest in time, and
    running every driller's read and calc in sequence.

    The STAC search itself is not modelled: its results, one sequence of
    items per point, are an input.
 */
module Drill {
  import opened Results
  import opened Geo
  import opened Items
  import opened DrillPoints
  import opened ImageReader
  import opened DrillStats
  import opened ItemDrillers

  // ---------------------------------------------------------------------
  // Image drillers

  /** The indices, in order, of the points that intersect an image. */
  function IntersectingPoints(pts: seq<Point>, info: ImageInfo, proj: Projection): (r: seq<nat>)
    ensures forall k: nat :: k in r <==> k < |pts| && Intersects(pts[k], info, proj)
    ensures forall i, j :: 0 <= i < j < |r| ==> r[i] < r[j]
    ensures Indexes(r, |pts|)
    decreases |pts|
  {
    if pts == [] then []
    else
      var before := IntersectingPoints(pts[..|pts| - 1], info, proj);
      assert forall k :: 0 <= k < |pts| - 1 ==> pts[..|pts| - 1][k] == pts[k];
      if Intersects(pts[|pts| - 1], info, proj) then before + [|pts| - 1] else before
  }

  /** The ids given for the images, one optional id each, truncated by zip
      to the shorter list; no ids means the file paths. */
  function ZippedIds(images: seq<string>, imageIds: Option<seq<string>>): (ids: seq<Option<string>>)
    ensures imageIds.None? ==> |ids| == |images| && forall i :: 0 <= i < |ids| ==> ids[i].None?
    ensures imageIds.Some? ==>
      (|ids| == Min(|images|, |imageIds.value|) &&
       forall i :: 0 <= i < |ids| ==> ids[i] == Some(imageIds.value[i]))
  {
    if imageIds.None? then seq(|images|, _ => None)
    else seq(Min(|images|, |imageIds.value|), i requires 0 <= i < Min(|images|, |imageIds.value|) => Some(imageIds.value[i]))
  }

  function Min(a: int, b: int): int { if a <= b then a else b }

  /** The loop of create_image_drillers: an ImageItem and a driller per
      image, holding the points that intersect it. An image GDAL cannot open
      raises. */
  function ImageDrillers(pts: seq<Point>, images: seq<string>, ids: seq<Option<string>>,
                         open: Opener, proj: Projection): (r: Result<seq<Driller>>)
    requires |ids| <= |images|
    ensures r.Err? <==> exists i :: 0 <= i < |ids| && open(images[i]).None?
    ensures r.Err? ==> r.error.RasterIo?
    ensures r.Ok? ==> |r.value| == |ids| && forall i :: 0 <= i < |ids| ==>
      && r.value[i].item == MakeImageItem(images[i], ids[i])
      && r.value[i].assetIds.None?
      && r.value[i].points == IntersectingPoints(pts, open(images[i]).value.info, proj)
    decreases |ids|
  {
    if ids == [] then Ok([])
    else
      var n := |ids| - 1;
      assert forall i :: 0 <= i < n ==> ids[..n][i] == ids[i];
      var first :- ImageDrillers(pts, images, ids[..n], open, proj);
      match open(images[n])
      case None => Err(RasterIo(images[n]))
      case Some(raster) =>
        Ok(first + [Driller(MakeImageItem(images[n], ids[n]), None,
                            IntersectingPoints(pts, raster.info, proj))])
  }

  /** The image id check as written: the number of images against the
      number of distinct ids. */
  predicate ImageIdsRefusedAsWritten(images: seq<string>, imageIds: Option<seq<string>>) {
    imageIds.Some? && |images| != |set i | 0 <= i < |imageIds.value| :: imageIds.value[i]|
  }

  predicate DistinctIds(ids: seq<string>) {
    forall i, j :: 0 <= i < j < |ids| ==> ids[i] != ids[j]
  }

  /** The image id check its message describes: one id per image, each
      unique. */
  predicate ImageIdsRefused(images: seq<string>, imageIds: Option<seq<string>>) {
    imageIds.Some? && (|imageIds.value| != |images| || !DistinctIds(imageIds.value))
  }

  /** create_image_drillers as written. */
  function CreateImageDrillersAsWritten(pts: seq<Point>, images: seq<string>, imageIds: Option<seq<string>>,
                                        open: Opener, proj: Projection): (r: Result<seq<Driller>>)
    ensures ImageIdsRefusedAsWritten(images, imageIds) ==> r == Err(ImageIdsMismatch)
    ensures !ImageIdsRefusedAsWritten(images, imageIds) ==>
      r == ImageDrillers(pts, images, ZippedIds(images, imageIds), open, proj)
  {
    if ImageIdsRefusedAsWritten(images, imageIds) then Err(ImageIdsMismatch)
    else ImageDrillers(pts, images, ZippedIds(images, imageIds), open, proj)
  }

  /** Three ids for two images, two of them equal, pass the check as
      written, and both images get the same item id. */
  lemma CreateImageDrillersAsWrittenSharesIds(pts: seq<Point>, open: Opener, proj: Projection)
    requires open("a.tif").Some? && open("b.tif").Some?
    ensures var r := CreateImageDrillersAsWritten(pts, ["a.tif", "b.tif"], Some(["x", "x", "y"]), open, proj);
            r.Ok? && |r.value| == 2 && r.value[0].item.id == r.value[1].item.id == "x"
  {
    var ids := ["x", "x", "y"];
    assert (set i | 0 <= i < |ids| :: ids[i]) == {"x", "y"} by {
      assert ids[0] == "x" && ids[2] == "y";
    }
    assert |{"x", "y"}| == 2;
    var z := ZippedIds(["a.tif", "b.tif"], Some(ids));
    assert z == [Some("x"), Some("x")];
  }

  /** create_image_drillers with the check its message describes. */
  function CreateImageDrillers(pts: seq<Point>, images: seq<string>, imageIds: Option<seq<string>>,
                               open: Opener, proj: Projection): (r: Result<seq<Driller>>)
    ensures ImageIdsRefused(images, imageIds) ==> r == Err(ImageIdsMismatch)
    ensures !ImageIdsRefused(images, imageIds) ==>
      r == ImageDrillers(pts, images, ZippedIds(images, imageIds), open, proj)
    // every image gets a driller, and explicit non-empty ids stay distinct
    ensures r.Ok? ==> |r.value| == |images|
    ensures r.Ok? && imageIds.Some? && (forall i :: 0 <= i < |imageIds.value| ==> imageIds.value[i] != "") ==>
      forall i, j :: 0 <= i < j < |r.value| ==> r.value[i].item.id != r.value[j].item.id
  {
    if ImageIdsRefused(images, imageIds) then Err(ImageIdsMismatch)
    else ImageDrillers(pts, images, ZippedIds(images, imageIds), open, proj)
  }

  /** The test of create_image_drillers: of two points, only the one
      inside the image is assigned to its driller. */
  lemma ImageDrillerAssignsIntersecting(inside: Point, outside: Point, path: string, open: Opener, proj: Projection)
    requires open(path).Some?
    requires Intersects(inside, open(path).value.info, proj)
    requires !Intersects(outside, open(path).value.info, proj)
    ensures var r := CreateImageDrillers([inside, outside], [path], None, open, proj);
            r.Ok? && |r.value| == 1 && r.value[0].points == [0] && r.value[0].item.id == path
  {
    var info := open(path).value.info;
    assert [inside, outside][..1] == [inside] && [inside][..0] == [];
    assert IntersectingPoints([inside], info, proj) == [0];
    assert IntersectingPoints([inside, outside], info, proj) == [0];
  }

  // ---------------------------------------------------------------------
  // STAC drillers

  /** _time_diff: the distance in seconds between an acquisition time and
      the point's time. */
  function TimeDiff(acquired: int, pt: Point): (d: nat)
    ensures d == acquired - pt.t.Instant() || d == pt.t.Instant() - acquired
  {
    if acquired >= pt.t.Instant() then acquired - pt.t.Instant() else pt.t.Instant() - acquired
  }

  /** The sort by time difference orders acquisitions by their squared
      distance from the point's time, and only an acquisition at that very
      time has difference 0. */
  lemma TimeDiffOrdersByDistance(a: int, b: int, pt: Point)
    ensures var t := pt.t.Instant();
            TimeDiff(a, pt) <= TimeDiff(b, pt) <==> (a - t) * (a - t) <= (b - t) * (b - t)
    ensures TimeDiff(a, pt) == 0 <==> a == pt.t.Instant()
  {
    var t := pt.t.Instant();
    assert TimeDiff(a, pt) * TimeDiff(a, pt) == (a - t) * (a - t);
    assert TimeDiff(b, pt) * TimeDiff(b, pt) == (b - t) * (b - t);
    SquareMonotone(TimeDiff(a, pt), TimeDiff(b, pt));
  }

  lemma SquareMonotone(x: nat, y: nat)
    ensures x <= y <==> x * x <= y * y
  {
    if x <= y {
      assert x * x <= x * y <= y * y;
    } else {
      assert y * y <= y * x < x * x;
    }
  }

  /** The sort key of create_stac_drillers; only STAC items are sorted. */
  function Key(it: Item, pt: Point): nat {
    if it.StacItem? then TimeDiff(it.acquired, pt) else 0
  }

  predicate AllStac(items: seq<Item>) {
    forall i :: 0 <= i < |items| ==> items[i].StacItem?
  }

  predicate SortedByTime(items: seq<Item>, pt: Point) {
    forall i, j :: 0 <= i < j < |items| ==> Key(items[i], pt) <= Key(items[j], pt)
  }

  /** Insert after every item no farther in time, keeping the sort stable. */
  function Insert(it: Item, s: seq<Item>, pt: Point): (r: seq<Item>)
    requires SortedByTime(s, pt)
    ensures SortedByTime(r, pt)
    ensures multiset(r) == multiset(s) + multiset{it}
    decreases |s|
  {
    if s == [] then [it]
    else if Key(it, pt) < Key(s[0], pt) then [it] + s
    else
      var rest := Insert(it, s[1..], pt);
      assert s == [s[0]] + s[1..];
      HeadFirst(it, s, rest, pt);
      [s[0]] + rest
  }

  /** The head of a sorted sequence may stay in front of the rest with an
      item no nearer inserted. */
  lemma HeadFirst(it: Item, s: seq<Item>, rest: seq<Item>, pt: Point)
    requires SortedByTime(s, pt) && s != [] && Key(s[0], pt) <= Key(it, pt)
    requires SortedByTime(rest, pt) && multiset(rest) == multiset(s[1..]) + multiset{it}
    ensures SortedByTime([s[0]] + rest, pt)
  {
    forall i | 0 <= i < |rest| ensures Key(s[0], pt) <= Key(rest[i], pt) {
      assert rest[i] in multiset(rest);
      if rest[i] != it {
        assert rest[i] in multiset(s[1..]);
        var q :| 0 <= q < |s[1..]| && s[1..][q] == rest[i];
        assert s[q + 1] == rest[i];
      }
    }
    var r := [s[0]] + rest;
    forall i, j | 0 <= i < j < |r| ensures Key(r[i], pt) <= Key(r[j], pt) {
      if i > 0 {
        assert r[i] == rest[i - 1] && r[j] == rest[j - 1];
      } else {
        assert r[j] == rest[j - 1];
      }
    }
  }

  /** Python's sorted with _time_diff as the key. */
  function SortByTime(items: seq<Item>, pt: Point): (r: seq<Item>)
    ensures SortedByTime(r, pt)
    ensures multiset(r) == multiset(items)
    decreases |items|
  {
    if items == [] then []
    else
      var n := |items| - 1;
      assert items == items[..n] + [items[n]];
      Insert(items[n], SortByTime(items[..n], pt), pt)
  }

  /** A sorted sequence's first `m` items are no farther in time than any
      of the rest. */
  lemma PrefixNearest(s: seq<Item>, m: nat, pt: Point)
    requires SortedByTime(s, pt) && m <= |s|
    ensures multiset(s) - multiset(s[..m]) == multiset(s[m..])
    ensures forall x, y :: x in s[..m] && y in s[m..] ==> Key(x, pt) <= Key(y, pt)
  {
    assert s == s[..m] + s[m..];
    forall x, y | x in s[..m] && y in s[m..] ensures Key(x, pt) <= Key(y, pt) {
      var i :| 0 <= i < m && s[..m][i] == x;
      var j :| 0 <= j < |s| - m && s[m..][j] == y;
      assert s[i] == x && s[m + j] == y;
    }
  }

  /** Nothing of `items` left out of `kept` is nearer in time than anything
      kept. */
  predicate NoneNearerLeftOut(items: seq<Item>, kept: seq<Item>, pt: Point) {
    forall x, y :: x in kept && y in multiset(items) - multiset(kept) ==> Key(x, pt) <= Key(y, pt)
  }

  /** The nearest_n choice of create_stac_drillers: for a positive n, the
      first n items in order of time difference; otherwise all items. */
  function NearestN(items: seq<Item>, pt: Point, n: int): (r: seq<Item>)
    ensures n <= 0 ==> r == items
    ensures n > 0 ==> |r| == Min(n, |items|) && SortedByTime(r, pt)
    ensures multiset(r) <= multiset(items)
    ensures NoneNearerLeftOut(items, r, pt)
  {
    if n <= 0 then items
    else
      var s := SortByTime(items, pt);
      var m := Min(n, |s|);
      PrefixNearest(s, m, pt);
      s[..m]
  }

  /** The index of the driller for an item id, or the number of drillers. */
  function IndexOfId(ds: seq<Driller>, id: string): (i: nat)
    ensures i <= |ds|
    ensures i < |ds| ==> ds[i].item.id == id
    ensures i == |ds| ==> forall j :: 0 <= j < |ds| ==> ds[j].item.id != id
    decreases |ds|
  {
    if ds == [] then 0
    else if ds[0].item.id == id then 0
    else 1 + IndexOfId(ds[1..], id)
  }

  /** Point `k` is in the points of a driller for item `id`. */
  predicate Member(ds: seq<Driller>, id: string, k: nat) {
    exists i :: 0 <= i < |ds| && ds[i].item.id == id && k in ds[i].points
  }

  predicate UniqueItems(ds: seq<Driller>) {
    forall i, j :: 0 <= i < j < |ds| ==> ds[i].item.id != ds[j].item.id
  }

  lemma MemberAppend(ds: seq<Driller>, d: Driller, id: string, k: nat)
    ensures Member(ds + [d], id, k) <==> Member(ds, id, k) || (d.item.id == id && k in d.points)
  {
    var r := ds + [d];
    if Member(r, id, k) {
      var j :| 0 <= j < |r| && r[j].item.id == id && k in r[j].points;
      if j < |ds| { assert ds[j] == r[j]; }
    }
    if Member(ds, id, k) {
      var j :| 0 <= j < |ds| && ds[j].item.id == id && k in ds[j].points;
      assert r[j] == ds[j];
    }
    if d.item.id == id && k in d.points {
      assert r[|ds|] == d;
    }
  }

  lemma MemberUpdate(ds: seq<Driller>, i: nat, k0: nat, id: string, k: nat)
    requires i < |ds|
    ensures Member(ds[i := AddPoint(ds[i], k0)], id, k) <==>
            Member(ds, id, k) || (ds[i].item.id == id && k == k0)
  {
    var r := ds[i := AddPoint(ds[i], k0)];
    if Member(r, id, k) {
      var j :| 0 <= j < |r| && r[j].item.id == id && k in r[j].points;
      if j != i { assert ds[j] == r[j]; }
      else if k != k0 { assert k in ds[i].points; }
    }
    if Member(ds, id, k) {
      var j :| 0 <= j < |ds| && ds[j].item.id == id && k in ds[j].points;
      if j == i { assert k in r[i].points; } else { assert r[j] == ds[j]; }
    }
    if ds[i].item.id == id && k == k0 {
      assert k in r[i].points;
    }
  }

  /** One step of the grouping: a new driller for an unseen item id, else
      the point added to the driller of that id. */
  function AddToGroups(ds: seq<Driller>, it: Item, k: nat, assets: Option<seq<string>>): (r: seq<Driller>)
    requires UniqueItems(ds)
    ensures UniqueItems(r)
    ensures forall id, k': nat :: Member(r, id, k') <==> Member(ds, id, k') || (id == it.id && k' == k)
    ensures forall i :: 0 <= i < |r| ==> r[i].assetIds == assets || (i < |ds| && r[i].assetIds == ds[i].assetIds)
    ensures |ds| <= |r| && forall i :: 0 <= i < |ds| ==> r[i].item == ds[i].item
    ensures forall i :: |ds| <= i < |r| ==> r[i].item == it
    // add_point on the driller of the id, or a new driller holding only k
    ensures |r| == |ds| <==> exists i :: 0 <= i < |ds| && ds[i].item.id == it.id
    ensures |r| <= |ds| + 1 && forall i :: |ds| <= i < |r| ==> r[i].points == [k]
    ensures forall i :: 0 <= i < |ds| ==>
      r[i].points == ds[i].points + (if ds[i].item.id == it.id then [k] else [])
  {
    var i := IndexOfId(ds, it.id);
    if i == |ds| then
      var r := ds + [Driller(it, assets, [k])];
      forall id, k': nat ensures Member(r, id, k') <==> Member(ds, id, k') || (id == it.id && k' == k) {
        MemberAppend(ds, Driller(it, assets, [k]), id, k');
      }
      r
    else
      var r := ds[i := AddPoint(ds[i], k)];
      forall id, k': nat ensures Member(r, id, k') <==> Member(ds, id, k') || (id == it.id && k' == k) {
        MemberUpdate(ds, i, k, id, k');
      }
      r
  }

  /** The (point, item) pairs of the search results, point by point, in the
      order the loops of create_stac_drillers visit them. */
  function Pairs(found: seq<seq<Item>>): (ps: seq<(nat, Item)>)
    ensures forall k: nat, it :: (k, it) in ps <==> k < |found| && it in found[k]
    decreases |found|
  {
    if found == [] then []
    else
      var n := |found| - 1;
      var before := Pairs(found[..n]);
      assert forall k :: 0 <= k < n ==> found[..n][k] == found[k];
      var here := seq(|found[n]|, i requires 0 <= i < |found[n]| => (n, found[n][i]));
      assert forall it :: it in found[n] ==> (n, it) in here by {
        forall it | it in found[n] ensures (n, it) in here {
          var i :| 0 <= i < |found[n]| && found[n][i] == it;
          assert here[i] == (n, it);
        }
      }
      before + here
  }

  /** The pairs come point by point, and each point's items in the order
      found. */
  lemma {:induction false} PairsOrder(found: seq<seq<Item>>)
    ensures var ps := Pairs(found);
            && (forall i :: 0 <= i < |ps| ==> ps[i].0 < |found|)
            && SortedByPoint(ps)
            && (forall k: nat :: k < |found| ==> ItemsAt(ps, k) == found[k])
    decreases |found|
  {
    if found != [] {
      var n := |found| - 1;
      var ps := Pairs(found);
      var before := Pairs(found[..n]);
      PairsOrder(found[..n]);
      var here := ps[|before|..];
      assert ps == before + here;
      assert |here| == |found[n]| && forall i :: 0 <= i < |here| ==> here[i] == (n, found[n][i]);
      assert SortedByPoint(ps) by {
        forall i, j | 0 <= i < j < |ps| ensures ps[i].0 <= ps[j].0 {
          if i < |before| && j < |before| {
            assert ps[i] == before[i] && ps[j] == before[j];
          } else if i < |before| {
            assert ps[i] == before[i] && ps[j] == here[j - |before|];
          } else {
            assert ps[i] == here[i - |before|] && ps[j] == here[j - |before|];
          }
        }
      }
      forall i | 0 <= i < |ps| ensures ps[i].0 < |found| {
        if i < |before| { assert ps[i] == before[i]; } else { assert ps[i] == here[i - |before|]; }
      }
      forall k: nat | k < |found| ensures ItemsAt(ps, k) == found[k] {
        ItemsAtAppend(before, here, k);
        ItemsAtRow(here, found[n], n, k);
        if k == n {
          ItemsAtAbsent(before, k);
        } else {
          assert found[..n][k] == found[k];
        }
      }
    }
  }

  predicate SortedByPoint(ps: seq<(nat, Item)>) {
    forall i, j :: 0 <= i < j < |ps| ==> ps[i].0 <= ps[j].0
  }

  /** The items paired with point `k`, in order. */
  function ItemsAt(ps: seq<(nat, Item)>, k: nat): seq<Item>
    decreases |ps|
  {
    if ps == [] then [] else (if ps[0].0 == k then [ps[0].1] else []) + ItemsAt(ps[1..], k)
  }

  lemma {:induction false} ItemsAtAppend(a: seq<(nat, Item)>, b: seq<(nat, Item)>, k: nat)
    ensures ItemsAt(a + b, k) == ItemsAt(a, k) + ItemsAt(b, k)
    decreases |a|
  {
    if a == [] {
      assert a + b == b;
    } else {
      var h := if a[0].0 == k then [a[0].1] else [];
      assert (a + b)[0] == a[0] && (a + b)[1..] == a[1..] + b;
      ItemsAtAppend(a[1..], b, k);
      calc {
        ItemsAt(a + b, k);
        h + ItemsAt(a[1..] + b, k);
        h + (ItemsAt(a[1..], k) + ItemsAt(b, k));
        (h + ItemsAt(a[1..], k)) + ItemsAt(b, k);
      }
    }
  }

  lemma {:induction false} ItemsAtRow(s: seq<(nat, Item)>, items: seq<Item>, n: nat, k: nat)
    requires |s| == |items| && forall i :: 0 <= i < |s| ==> s[i] == (n, items[i])
    ensures ItemsAt(s, k) == if k == n then items else []
    decreases |s|
  {
    if s != [] {
      ItemsAtRow(s[1..], items[1..], n, k);
      assert [items[0]] + items[1..] == items;
    }
  }

  lemma {:induction false} ItemsAtAbsent(s: seq<(nat, Item)>, k: nat)
    requires forall i :: 0 <= i < |s| ==> s[i].0 != k
    ensures ItemsAt(s, k) == []
    decreases |s|
  {
    if s != [] { ItemsAtAbsent(s[1..], k); }
  }

  /** Some pair puts point `k` with an item of id `id`. */
  ghost predicate PairsHave(pairs: seq<(nat, Item)>, id: string, k: nat) {
    exists it :: (k, it) in pairs && it.id == id
  }

  /** The grouping of create_stac_drillers over the pairs, in order. */
  function Group(ds: seq<Driller>, pairs: seq<(nat, Item)>, assets: Option<seq<string>>): (r: seq<Driller>)
    requires UniqueItems(ds)
    ensures UniqueItems(r)
    ensures forall id, k: nat :: Member(r, id, k) <==> Member(ds, id, k) || PairsHave(pairs, id, k)
    ensures forall i :: 0 <= i < |r| ==> r[i].assetIds == assets || (i < |ds| && r[i].assetIds == ds[i].assetIds)
    ensures |ds| <= |r| && forall i :: 0 <= i < |ds| ==> r[i].item == ds[i].item
    ensures forall i :: |ds| <= i < |r| ==> exists p :: p in pairs && r[i].item == p.1
    decreases |pairs|
  {
    if pairs == [] then ds
    else
      var next := AddToGroups(ds, pairs[0].1, pairs[0].0, assets);
      var r := Group(next, pairs[1..], assets);
      forall id, k: nat
        ensures Member(r, id, k) <==> Member(ds, id, k) || PairsHave(pairs, id, k)
      {
        if exists it :: (k, it) in pairs && it.id == id {
          var it :| (k, it) in pairs && it.id == id;
          if (k, it) != pairs[0] { assert (k, it) in pairs[1..]; }
        }
        if exists it :: (k, it) in pairs[1..] && it.id == id {
          var it :| (k, it) in pairs[1..] && it.id == id;
          assert (k, it) in pairs;
        }
        assert (pairs[0].0, pairs[0].1) in pairs;
      }
      forall i | |ds| <= i < |r| ensures exists p :: p in pairs && r[i].item == p.1 {
        if i < |next| {
          assert r[i].item == next[i].item == pairs[0].1;
          assert pairs[0] in pairs;
        } else {
          var p :| p in pairs[1..] && r[i].item == p.1;
          assert p in pairs;
        }
      }
      r
  }

  /** The position of the first pair with item id `id`, or the number of
      pairs. */
  function FirstPos(pairs: seq<(nat, Item)>, id: string): (q: nat)
    ensures q <= |pairs|
    ensures q < |pairs| ==> pairs[q].1.id == id
    ensures forall m :: 0 <= m < q ==> pairs[m].1.id != id
    decreases |pairs|
  {
    if pairs == [] then 0
    else if pairs[0].1.id == id then 0
    else 1 + FirstPos(pairs[1..], id)
  }

  /** The points paired with item id `id`, in order. */
  function PointsOf(pairs: seq<(nat, Item)>, id: string): seq<nat>
    decreases |pairs|
  {
    if pairs == [] then []
    else (if pairs[0].1.id == id then [pairs[0].0] else []) + PointsOf(pairs[1..], id)
  }

  predicate Nondecreasing(s: seq<nat>) {
    forall i, j :: 0 <= i < j < |s| ==> s[i] <= s[j]
  }

  /** `r` is `ds` grouped over `pairs` in dictionary order: the drillers
      added follow the order in which their ids are first seen, each holds
      the item first seen with its id, and every driller gets the points
      paired with its id, in order. */
  predicate GroupedInOrder(ds: seq<Driller>, pairs: seq<(nat, Item)>, r: seq<Driller>) {
    && |ds| <= |r|
    && (forall i :: 0 <= i < |ds| ==> r[i].points == ds[i].points + PointsOf(pairs, ds[i].item.id))
    && (forall i :: |ds| <= i < |r| ==> r[i].points == PointsOf(pairs, r[i].item.id))
    && (forall i :: |ds| <= i < |r| ==>
          FirstPos(pairs, r[i].item.id) < |pairs| && r[i].item == pairs[FirstPos(pairs, r[i].item.id)].1)
    && (forall i, j :: |ds| <= i < j < |r| ==> FirstPos(pairs, r[i].item.id) < FirstPos(pairs, r[j].item.id))
  }

  /** The grouping keeps the dictionary order of create_stac_drillers. */
  lemma {:induction false} GroupOrder(ds: seq<Driller>, pairs: seq<(nat, Item)>, assets: Option<seq<string>>)
    requires UniqueItems(ds)
    ensures GroupedInOrder(ds, pairs, Group(ds, pairs, assets))
    decreases |pairs|
  {
    if pairs != [] {
      var next := AddToGroups(ds, pairs[0].1, pairs[0].0, assets);
      var r := Group(next, pairs[1..], assets);
      GroupOrder(next, pairs[1..], assets);
      GroupOrderStep(ds, pairs, next, r);
    }
  }

  /** One step of GroupOrder: the first pair goes to an existing driller or
      to a new one, then the rest are grouped in order. */
  lemma GroupOrderStep(ds: seq<Driller>, pairs: seq<(nat, Item)>, next: seq<Driller>, r: seq<Driller>)
    requires pairs != [] && UniqueItems(r)
    requires |ds| <= |next| <= |ds| + 1
    requires |next| == |ds| <==> exists i :: 0 <= i < |ds| && ds[i].item.id == pairs[0].1.id
    requires forall i :: 0 <= i < |ds| ==> next[i].item == ds[i].item
    requires forall i :: 0 <= i < |ds| ==>
      next[i].points == ds[i].points + (if ds[i].item.id == pairs[0].1.id then [pairs[0].0] else [])
    requires forall i :: |ds| <= i < |next| ==> next[i].item == pairs[0].1 && next[i].points == [pairs[0].0]
    requires |next| <= |r| && forall i :: 0 <= i < |next| ==> r[i].item == next[i].item
    requires GroupedInOrder(next, pairs[1..], r)
    ensures GroupedInOrder(ds, pairs, r)
  {
    var id0 := pairs[0].1.id;
    var h := if |next| == |ds| then IndexOfId(ds, id0) else |ds|;
    assert r[h].item.id == id0;
    forall i | |next| <= i < |r| ensures r[i].item.id != id0 {
      assert h < i;
    }
    GroupOrderOld(ds, pairs, next, r);
    GroupOrderNew(ds, pairs, next, r);
    GroupOrderFirstSeen(ds, pairs, next, r);
  }

  lemma GroupOrderOld(ds: seq<Driller>, pairs: seq<(nat, Item)>, next: seq<Driller>, r: seq<Driller>)
    requires pairs != [] && |ds| <= |next| <= |r|
    requires forall i :: 0 <= i < |ds| ==>
      next[i].item == ds[i].item &&
      next[i].points == ds[i].points + (if ds[i].item.id == pairs[0].1.id then [pairs[0].0] else [])
    requires forall i :: 0 <= i < |next| ==> r[i].points == next[i].points + PointsOf(pairs[1..], next[i].item.id)
    ensures forall i :: 0 <= i < |ds| ==> r[i].points == ds[i].points + PointsOf(pairs, ds[i].item.id)
  {
    forall i | 0 <= i < |ds| ensures r[i].points == ds[i].points + PointsOf(pairs, ds[i].item.id) {
      GroupOrderOldAt(ds[i], next[i], r[i], pairs);
    }
  }

  lemma GroupOrderOldAt(d: Driller, nd: Driller, rd: Driller, pairs: seq<(nat, Item)>)
    requires pairs != [] && nd.item == d.item
    requires nd.points == d.points + (if d.item.id == pairs[0].1.id then [pairs[0].0] else [])
    requires rd.points == nd.points + PointsOf(pairs[1..], nd.item.id)
    ensures rd.points == d.points + PointsOf(pairs, d.item.id)
  {
    var hd := if d.item.id == pairs[0].1.id then [pairs[0].0] else [];
    var rest := PointsOf(pairs[1..], d.item.id);
    assert PointsOf(pairs, d.item.id) == hd + rest;
    assert (d.points + hd) + rest == d.points + (hd + rest);
  }

  lemma GroupOrderNew(ds: seq<Driller>, pairs: seq<(nat, Item)>, next: seq<Driller>, r: seq<Driller>)
    requires pairs != [] && |ds| <= |next| <= |r|
    requires forall i :: |ds| <= i < |next| ==> next[i].item == pairs[0].1 && next[i].points == [pairs[0].0]
    requires forall i :: 0 <= i < |next| ==> r[i].item == next[i].item
    requires forall i :: 0 <= i < |next| ==> r[i].points == next[i].points + PointsOf(pairs[1..], next[i].item.id)
    requires forall i :: |next| <= i < |r| ==> r[i].item.id != pairs[0].1.id
    requires forall i :: |next| <= i < |r| ==> r[i].points == PointsOf(pairs[1..], r[i].item.id)
    requires forall i :: |next| <= i < |r| ==>
      FirstPos(pairs[1..], r[i].item.id) < |pairs[1..]| && r[i].item == pairs[1..][FirstPos(pairs[1..], r[i].item.id)].1
    ensures forall i :: |ds| <= i < |r| ==> r[i].points == PointsOf(pairs, r[i].item.id)
    ensures forall i :: |ds| <= i < |r| ==>
      FirstPos(pairs, r[i].item.id) < |pairs| && r[i].item == pairs[FirstPos(pairs, r[i].item.id)].1
  {
    forall i | |ds| <= i < |r|
      ensures r[i].points == PointsOf(pairs, r[i].item.id)
      ensures FirstPos(pairs, r[i].item.id) < |pairs| && r[i].item == pairs[FirstPos(pairs, r[i].item.id)].1
    {
      var id := r[i].item.id;
      if i < |next| {
        assert r[i].item == pairs[0].1 && FirstPos(pairs, id) == 0;
        assert PointsOf(pairs, id) == [pairs[0].0] + PointsOf(pairs[1..], id);
      } else {
        assert PointsOf(pairs, id) == [] + PointsOf(pairs[1..], id);
        assert FirstPos(pairs, id) == 1 + FirstPos(pairs[1..], id);
        assert pairs[1..][FirstPos(pairs[1..], id)] == pairs[FirstPos(pairs, id)];
      }
    }
  }

  lemma GroupOrderFirstSeen(ds: seq<Driller>, pairs: seq<(nat, Item)>, next: seq<Driller>, r: seq<Driller>)
    requires pairs != [] && |ds| <= |next| <= |ds| + 1 && |next| <= |r|
    requires forall i :: |ds| <= i < |next| ==> r[i].item.id == pairs[0].1.id
    requires forall i :: |next| <= i < |r| ==> r[i].item.id != pairs[0].1.id
    requires forall i, j :: |next| <= i < j < |r| ==>
      FirstPos(pairs[1..], r[i].item.id) < FirstPos(pairs[1..], r[j].item.id)
    ensures forall i, j :: |ds| <= i < j < |r| ==> FirstPos(pairs, r[i].item.id) < FirstPos(pairs, r[j].item.id)
  {
    forall i, j | |ds| <= i < j < |r|
      ensures FirstPos(pairs, r[i].item.id) < FirstPos(pairs, r[j].item.id)
    {
      assert FirstPos(pairs, r[j].item.id) == 1 + FirstPos(pairs[1..], r[j].item.id);
      if |next| <= i {
        assert FirstPos(pairs, r[i].item.id) == 1 + FirstPos(pairs[1..], r[i].item.id);
      } else {
        assert FirstPos(pairs, r[i].item.id) == 0;
      }
    }
  }

  /** Pairs sorted by point give each item id its points in order. */
  lemma {:induction false} PointsOfSorted(pairs: seq<(nat, Item)>, id: string)
    requires SortedByPoint(pairs)
    ensures Nondecreasing(PointsOf(pairs, id))
    ensures forall x :: x in PointsOf(pairs, id) ==> pairs != [] && pairs[0].0 <= x
    decreases |pairs|
  {
    if pairs != [] {
      var rest := pairs[1..];
      PointsOfSorted(rest, id);
      var hd := if pairs[0].1.id == id then [pairs[0].0] else [];
      var t := PointsOf(rest, id);
      assert PointsOf(pairs, id) == hd + t;
      assert forall x :: x in t ==> pairs[0].0 <= x by {
        if rest != [] { assert pairs[0].0 <= pairs[1].0 == rest[0].0; }
      }
      forall i, j | 0 <= i < j < |hd + t| ensures (hd + t)[i] <= (hd + t)[j] {
        if hd == [] {
          assert (hd + t)[i] == t[i] && (hd + t)[j] == t[j];
        } else if i == 0 {
          assert (hd + t)[j] == t[j - 1] && t[j - 1] in t;
        } else {
          assert (hd + t)[i] == t[i - 1] && (hd + t)[j] == t[j - 1];
        }
      }
    }
  }

  /** The nearest items of every point. */
  function NearestAll(pts: seq<Point>, found: seq<seq<Item>>, n: int): (r: seq<seq<Item>>)
    requires |found| == |pts|
    ensures |r| == |pts| && forall k :: 0 <= k < |pts| ==> r[k] == NearestN(found[k], pts[k], n)
  {
    seq(|pts|, k requires 0 <= k < |pts| => NearestN(found[k], pts[k], n))
  }

  /** One of point `k`'s nearest items has id `id`. */
  predicate NearestHas(pts: seq<Point>, found: seq<seq<Item>>, n: int, id: string, k: nat)
    requires |found| == |pts|
  {
    k < |pts| && exists it :: it in NearestN(found[k], pts[k], n) && it.id == id
  }

  /** create_stac_drillers, given what the search found for each point: the
      nearest items of each point, grouped into one driller per item id in
      the order the ids are first seen. */
  function CreateStacDrillers(pts: seq<Point>, found: seq<seq<Item>>, assets: Option<seq<string>>, n: int)
    : (r: seq<Driller>)
    requires |found| == |pts|
    ensures UniqueItems(r)
    ensures forall i :: 0 <= i < |r| ==> r[i].assetIds == assets
  {
    Group([], Pairs(NearestAll(pts, found, n)), assets)
  }

  /** create_stac_drillers builds drillers for STAC items only, and a point
      is drilled for an item exactly when the item is one of its nearest
      items. */
  lemma CreateStacDrillersGroups(pts: seq<Point>, found: seq<seq<Item>>, assets: Option<seq<string>>, n: int)
    requires |found| == |pts| && forall k :: 0 <= k < |found| ==> AllStac(found[k])
    ensures var r := CreateStacDrillers(pts, found, assets, n);
            (forall i :: 0 <= i < |r| ==> r[i].item.StacItem?) &&
            (forall id, k: nat :: Member(r, id, k) <==> NearestHas(pts, found, n, id, k))
  {
    StacItemsOnly(pts, found, assets, n);
    var r := CreateStacDrillers(pts, found, assets, n);
    forall id, k: nat ensures Member(r, id, k) <==> NearestHas(pts, found, n, id, k) {
      PairsHaveNearest(pts, found, n, id, k);
    }
  }

  /** create_stac_drillers keeps its dictionary in insertion order: the
      drillers follow the order in which the points' nearest items are
      first seen, point by point, each holding that first-seen item, and
      each driller's points are the points that have its id among their
      nearest items, in ascending order. */
  lemma CreateStacDrillersOrder(pts: seq<Point>, found: seq<seq<Item>>, assets: Option<seq<string>>, n: int)
    requires |found| == |pts|
    ensures var nearest := NearestAll(pts, found, n);
            var pairs := Pairs(nearest);
            var r := CreateStacDrillers(pts, found, assets, n);
            && SortedByPoint(pairs)
            && (forall k: nat :: k < |pts| ==> ItemsAt(pairs, k) == NearestN(found[k], pts[k], n))
            && (forall i, j :: 0 <= i < j < |r| ==> FirstPos(pairs, r[i].item.id) < FirstPos(pairs, r[j].item.id))
            && (forall i :: 0 <= i < |r| ==>
                  FirstPos(pairs, r[i].item.id) < |pairs| && r[i].item == pairs[FirstPos(pairs, r[i].item.id)].1)
            && (forall i :: 0 <= i < |r| ==> r[i].points == PointsOf(pairs, r[i].item.id) && Nondecreasing(r[i].points))
  {
    var pairs := Pairs(NearestAll(pts, found, n));
    PairsOrder(NearestAll(pts, found, n));
    GroupOrder([], pairs, assets);
    var r := CreateStacDrillers(pts, found, assets, n);
    forall i | 0 <= i < |r| ensures Nondecreasing(PointsOf(pairs, r[i].item.id)) {
      PointsOfSorted(pairs, r[i].item.id);
    }
  }

  lemma StacItemsOnly(pts: seq<Point>, found: seq<seq<Item>>, assets: Option<seq<string>>, n: int)
    requires |found| == |pts| && forall k :: 0 <= k < |found| ==> AllStac(found[k])
    ensures var r := CreateStacDrillers(pts, found, assets, n);
            forall i :: 0 <= i < |r| ==> r[i].item.StacItem?
  {
    var nearest := NearestAll(pts, found, n);
    var pairs := Pairs(nearest);
    var r := Group([], pairs, assets);
    forall i | 0 <= i < |r| ensures r[i].item.StacItem? {
      var p :| p in pairs && r[i].item == p.1;
      NearestFromFound(found, pts, n, nearest, p.0, p.1);
    }
  }

  lemma PairsHaveNearest(pts: seq<Point>, found: seq<seq<Item>>, n: int, id: string, k: nat)
    requires |found| == |pts|
    ensures PairsHave(Pairs(NearestAll(pts, found, n)), id, k) <==> NearestHas(pts, found, n, id, k)
  {
    var nearest := NearestAll(pts, found, n);
    var pairs := Pairs(nearest);
    if PairsHave(pairs, id, k) {
      var it :| (k, it) in pairs && it.id == id;
      assert it in nearest[k];
    }
    if NearestHas(pts, found, n, id, k) {
      var it :| it in NearestN(found[k], pts[k], n) && it.id == id;
      assert (k, it) in pairs;
    }
  }

  /** What nearest_n keeps for a point is one of the items found for it. */
  lemma NearestFromFound(found: seq<seq<Item>>, pts: seq<Point>, n: int, nearest: seq<seq<Item>>,
                         k: nat, it: Item)
    requires |found| == |pts| == |nearest| && forall q :: 0 <= q < |found| ==> AllStac(found[q])
    requires forall q :: 0 <= q < |pts| ==> nearest[q] == NearestN(found[q], pts[q], n)
    requires k < |nearest| && it in nearest[k]
    ensures it.StacItem?
  {
    assert it in multiset(nearest[k]);
    assert it in multiset(found[k]);
    var q :| 0 <= q < |found[k]| && found[k][q] == it;
  }

  // ---------------------------------------------------------------------
  // Running the drillers

  predicate IndexesAll(ds: seq<Driller>, n: nat) {
    forall i :: 0 <= i < |ds| ==> Indexes(ds[i].points, n)
  }

  /** Only records of items that some driller drills at that point can
      differ; no record is dropped, and a new one is for such an item. */
  ghost predicate Confined(before: seq<PointStats>, after: seq<PointStats>, ds: seq<Driller>) {
    && |after| == |before|
    && (forall j :: 0 <= j < |before| ==> after[j].pt == before[j].pt)
    && (forall j :: 0 <= j < |before| ==> before[j].records.Keys <= after[j].records.Keys)
    && (forall j, x :: 0 <= j < |before| && x in after[j].records && x !in before[j].records ==>
          Member(ds, x, j))
    && (forall j :: 0 <= j < |before| && (forall i :: 0 <= i < |ds| ==> j !in ds[i].points) ==>
          after[j] == before[j])
    && (forall j, x :: 0 <= j < |before| && x in before[j].records && !Member(ds, x, j) ==>
          x in after[j].records && after[j].records[x] == before[j].records[x])
  }

  /** drill.calc_stats for one driller: read, then calc. A read that rolled
      back (False) is still followed by the calc. */
  function RunDriller(d: Driller, world: seq<PointStats>, ignore: IgnoreVal, std: seq<string>,
                      user: seq<(string, UserStat)>, open: Opener, proj: Projection, v: Variant)
    : (r: (seq<PointStats>, Outcome))
    requires OpensValid(open) && Indexes(d.points, |world|)
    ensures OnlyItem(world, r.0, d.points, d.item.id)
  {
    var (w1, read) := ReadData(d, world, ignore, open, proj, v);
    if read.Err? then (w1, Fail(read.error))
    else
      var (w2, out) := CalcAll(d.item, d.points, w1, std, user);
      OnlyItemTrans(world, w1, w2, d.points, d.item.id);
      (w2, out)
  }

  lemma OnlyItemTrans(a: seq<PointStats>, b: seq<PointStats>, c: seq<PointStats>, points: seq<nat>, id: string)
    requires OnlyItem(a, b, points, id) && OnlyItem(b, c, points, id)
    ensures OnlyItem(a, c, points, id)
  {
  }

  /** After a read that returned False, the calc runs on the item's fresh
      records: the driller's outcome is that of calculating on the stores
      with the item reset, as if nothing had been read. */
  lemma RunDrillerAfterRollback(d: Driller, world: seq<PointStats>, ignore: IgnoreVal, std: seq<string>,
                                user: seq<(string, UserStat)>, open: Opener, proj: Projection, v: Variant)
    requires OpensValid(open) && Indexes(d.points, |world|)
    requires ReadData(d, world, ignore, open, proj, v).1 == Ok(false)
    ensures RunDriller(d, world, ignore, std, user, open, proj, v) ==
            CalcAll(d.item, d.points, ResetAll(d.item, d.points, world), std, user)
  {
    ReadDataRollsBack(d, world, ignore, open, proj, v);
  }

  /** On success, the read went through and each of the driller's points
      holds what calc_stats computes from the record the read left there. */
  lemma RunDrillerCalcsEach(d: Driller, world: seq<PointStats>, ignore: IgnoreVal, std: seq<string>,
                            user: seq<(string, UserStat)>, open: Opener, proj: Projection, v: Variant)
    requires OpensValid(open) && Indexes(d.points, |world|) && Distinct(d.points)
    ensures var read := ReadData(d, world, ignore, open, proj, v);
            var r := RunDriller(d, world, ignore, std, user, open, proj, v);
            r.1.Pass? ==>
              && read.1.Ok?
              && forall j :: j in d.points ==> CalcStats(read.0[j], d.item.id, std, user) == (r.0[j], Pass)
  {
    var read := ReadData(d, world, ignore, open, proj, v);
    if read.1.Ok? {
      CalcAllCalcsEach(d.item, d.points, read.0, std, user);
    }
  }

  /** A read that rolled back does not stop drill: with known standard
      names and no user statistic replacing the lists, the calc on the
      fresh records passes and the loop goes on. */
  lemma RunDrillerContinuesAfterRollback(d: Driller, world: seq<PointStats>, ignore: IgnoreVal, std: seq<string>,
                                         user: seq<(string, UserStat)>, open: Opener, proj: Projection, v: Variant)
    requires OpensValid(open) && Indexes(d.points, |world|)
    requires KnownStds(std) && Raw !in UserNames(user) && ArrayInfoKey !in UserNames(user)
    requires ReadData(d, world, ignore, open, proj, v).1 == Ok(false)
    ensures RunDriller(d, world, ignore, std, user, open, proj, v).1 == Pass
  {
    RunDrillerAfterRollback(d, world, ignore, std, user, open, proj, v);
    CalcAllAfterResetPasses(d.item, d.points, world, std, user);
  }

  /** The sequential loop of drill: each driller in turn; an error raised by
      one stops the rest. */
  function RunAll(ds: seq<Driller>, world: seq<PointStats>, ignore: IgnoreVal, std: seq<string>,
                  user: seq<(string, UserStat)>, open: Opener, proj: Projection, v: Variant)
    : (r: (seq<PointStats>, Outcome))
    requires OpensValid(open) && IndexesAll(ds, |world|)
    ensures Confined(world, r.0, ds)
    decreases |ds|
  {
    if ds == [] then (world, Pass)
    else
      var (w1, out) := RunDriller(ds[0], world, ignore, std, user, open, proj, v);
      assert Confined(world, w1, ds) by {
        forall j, x | 0 <= j < |world| && x in world[j].records && !Member(ds, x, j)
          ensures x in w1[j].records && w1[j].records[x] == world[j].records[x]
        {
          if j in ds[0].points { assert x != ds[0].item.id; }
        }
        forall j, x | 0 <= j < |world| && x in w1[j].records && x !in world[j].records
          ensures Member(ds, x, j)
        {
          assert x == ds[0].item.id && j in ds[0].points;
        }
      }
      if out.Fail? then (w1, out)
      else
        var r := RunAll(ds[1..], w1, ignore, std, user, open, proj, v);
        ConfinedTrans(world, w1, r.0, ds);
        r
  }

  /** Running two lists of drillers in turn is running their concatenation:
      the second list starts from the stores the first left, unless the
      first raised. */
  lemma {:induction false} RunAllAppend(a: seq<Driller>, b: seq<Driller>, world: seq<PointStats>,
                                        ignore: IgnoreVal, std: seq<string>, user: seq<(string, UserStat)>,
                                        open: Opener, proj: Projection, v: Variant)
    requires OpensValid(open) && IndexesAll(a, |world|) && IndexesAll(b, |world|)
    ensures IndexesAll(a + b, |world|)
    ensures var ra := RunAll(a, world, ignore, std, user, open, proj, v);
            RunAll(a + b, world, ignore, std, user, open, proj, v) ==
              if ra.1.Fail? then ra else RunAll(b, ra.0, ignore, std, user, open, proj, v)
    decreases |a|
  {
    assert IndexesAll(a + b, |world|) by {
      forall i | 0 <= i < |a + b| ensures Indexes((a + b)[i].points, |world|) {
        if i < |a| { assert (a + b)[i] == a[i]; } else { assert (a + b)[i] == b[i - |a|]; }
      }
    }
    if a != [] {
      assert (a + b)[0] == a[0] && (a + b)[1..] == a[1..] + b;
      var (w1, out) := RunDriller(a[0], world, ignore, std, user, open, proj, v);
      if out.Pass? {
        assert IndexesAll(a[1..], |w1|) by {
          forall i | 0 <= i < |a[1..]| ensures Indexes(a[1..][i].points, |w1|) { assert a[1..][i] == a[i + 1]; }
        }
        RunAllAppend(a[1..], b, w1, ignore, std, user, open, proj, v);
      }
    } else {
      assert a + b == b;
    }
  }

  lemma MemberTail(ds: seq<Driller>, id: string, j: nat)
    requires ds != []
    ensures Member(ds[1..], id, j) ==> Member(ds, id, j)
  {
    if Member(ds[1..], id, j) {
      var i :| 0 <= i < |ds[1..]| && ds[1..][i].item.id == id && j in ds[1..][i].points;
      assert ds[i + 1] == ds[1..][i];
    }
  }

  lemma ConfinedTrans(a: seq<PointStats>, b: seq<PointStats>, c: seq<PointStats>, ds: seq<Driller>)
    requires ds != [] && Confined(a, b, ds) && Confined(b, c, ds[1..])
    ensures Confined(a, c, ds)
  {
    forall j, x | 0 <= j < |a| && x in a[j].records && !Member(ds, x, j)
      ensures x in c[j].records && c[j].records[x] == a[j].records[x]
    {
      MemberTail(ds, x, j);
    }
    forall j, x | 0 <= j < |a| && x in c[j].records && x !in a[j].records
      ensures Member(ds, x, j)
    {
      MemberTail(ds, x, j);
    }
    forall j | 0 <= j < |a| && (forall i :: 0 <= i < |ds| ==> j !in ds[i].points)
      ensures c[j] == a[j]
    {
      forall i | 0 <= i < |ds[1..]| ensures j !in ds[1..][i].points {
        assert ds[1..][i] == ds[i + 1];
      }
    }
  }

  /** On success, every driller's item has a record at each of its points. */
  lemma {:induction false} RunAllRecords(ds: seq<Driller>, world: seq<PointStats>, ignore: IgnoreVal,
                                         std: seq<string>, user: seq<(string, UserStat)>,
                                         open: Opener, proj: Projection, v: Variant)
    requires OpensValid(open) && IndexesAll(ds, |world|)
    ensures var r := RunAll(ds, world, ignore, std, user, open, proj, v);
            r.1.Pass? ==> forall i, j :: 0 <= i < |ds| && j in ds[i].points ==> ds[i].item.id in r.0[j].records
    decreases |ds|
  {
    if ds != [] {
      var d := ds[0];
      var (w1, out) := RunDriller(d, world, ignore, std, user, open, proj, v);
      if out.Pass? {
        var read := ReadData(d, world, ignore, open, proj, v);
        CalcAllNeedsRecords(d.item, d.points, read.0, std, user);
        assert IndexesAll(ds[1..], |w1|) by {
          forall i | 0 <= i < |ds[1..]| ensures Indexes(ds[1..][i].points, |w1|) { assert ds[1..][i] == ds[i + 1]; }
        }
        RunAllRecords(ds[1..], w1, ignore, std, user, open, proj, v);
        var r := RunAll(ds[1..], w1, ignore, std, user, open, proj, v);
        if r.1.Pass? {
          forall i, j | 0 <= i < |ds| && j in ds[i].points ensures ds[i].item.id in r.0[j].records {
            if i == 0 {
              var k :| 0 <= k < |d.points| && d.points[k] == j;
              assert d.item.id in w1[j].records;
            } else {
              assert ds[1..][i - 1] == ds[i];
            }
          }
        }
      }
    }
  }

  /** The search found nothing for point `j` and the point lies in none of
      the images. */
  predicate Untouched(pt: Point, j: nat, found: Option<seq<seq<Item>>>, images: seq<string>,
                      open: Opener, proj: Projection)
  {
    && (found.None? || j >= |found.value| || found.value[j] == [])
    && (forall i :: 0 <= i < |images| && open(images[i]).Some? ==>
          !Intersects(pt, open(images[i]).value.info, proj))
  }

  /** drill: the STAC drillers (when a search was made) followed by the
      image drillers, run in sequence. `found` is the search's items for
      each point. */
  function DrillAll(world: seq<PointStats>, found: Option<seq<seq<Item>>>, assets: Option<seq<string>>,
                    nearestN: int, images: seq<string>, ignore: IgnoreVal,
                    std: seq<string>, user: seq<(string, UserStat)>,
                    open: Opener, proj: Projection, v: Variant)
    : (r: (seq<PointStats>, Outcome))
    requires OpensValid(open)
    requires found.Some? ==> |found.value| == |world| && forall k :: 0 <= k < |world| ==> AllStac(found.value[k])
    ensures |r.0| == |world|
    ensures forall j :: 0 <= j < |world| ==> r.0[j].pt == world[j].pt
    // a point the search found nothing for and that lies in no image is
    // left alone
    ensures forall j :: 0 <= j < |world| && Untouched(world[j].pt, j, found, images, open, proj) ==>
      r.0[j] == world[j]
    // an image GDAL cannot open raises before anything is read
    ensures (exists i :: 0 <= i < |images| && open(images[i]).None?) ==>
      r.0 == world && r.1.Fail? && r.1.error.RasterIo?
  {
    var pts := Positions(world);
    var stac := if found.Some? then CreateStacDrillers(pts, found.value, assets, nearestN) else [];
    var imageDrillers := if images == [] then Ok([]) else CreateImageDrillers(pts, images, None, open, proj);
    if imageDrillers.Err? then (world, Fail(imageDrillers.error))
    else
      var ds := stac + imageDrillers.value;
      StacTouches(world, pts, found, assets, nearestN, images, open, proj);
      assert Touches(stac, world, found, images, open, proj);
      ImageTouches(world, pts, found, images, None, open, proj);
      TouchesAppend(stac, imageDrillers.value, world, found, images, open, proj);
      TouchesSpares(ds, world, found, images, open, proj);
      RunAll(ds, world, ignore, std, user, open, proj, v)
  }

  /** drill runs the STAC drillers followed by the image drillers, once
      every image has opened. */
  lemma DrillAllRuns(world: seq<PointStats>, found: Option<seq<seq<Item>>>, assets: Option<seq<string>>,
                     nearestN: int, images: seq<string>, ignore: IgnoreVal,
                     std: seq<string>, user: seq<(string, UserStat)>,
                     open: Opener, proj: Projection, v: Variant)
    requires OpensValid(open)
    requires found.Some? ==> |found.value| == |world| && forall k :: 0 <= k < |world| ==> AllStac(found.value[k])
    ensures var pts := Positions(world);
            var stac := if found.Some? then CreateStacDrillers(pts, found.value, assets, nearestN) else [];
            var im := if images == [] then Ok([]) else CreateImageDrillers(pts, images, None, open, proj);
            var r := DrillAll(world, found, assets, nearestN, images, ignore, std, user, open, proj, v);
            && (im.Err? ==> r.1.Fail?)
            && (im.Ok? ==>
                  && IndexesAll(stac + im.value, |world|)
                  && r == RunAll(stac + im.value, world, ignore, std, user, open, proj, v))
  {
    var pts := Positions(world);
    var stac := if found.Some? then CreateStacDrillers(pts, found.value, assets, nearestN) else [];
    var im := if images == [] then Ok([]) else CreateImageDrillers(pts, images, None, open, proj);
    if im.Ok? {
      StacTouches(world, pts, found, assets, nearestN, images, open, proj);
      assert Touches(stac, world, found, images, open, proj);
      ImageTouches(world, pts, found, images, None, open, proj);
      TouchesAppend(stac, im.value, world, found, images, open, proj);
      TouchesSpares(stac + im.value, world, found, images, open, proj);
    }
  }

  /** The image drillers drill builds: image `i`, under its path as id, at
      exactly the points inside it. */
  lemma ImageDrillerAt(world: seq<PointStats>, images: seq<string>, open: Opener, proj: Projection, i: nat)
    requires images != [] && CreateImageDrillers(Positions(world), images, None, open, proj).Ok?
    requires i < |images|
    ensures var im := CreateImageDrillers(Positions(world), images, None, open, proj).value;
            && i < |im| && open(images[i]).Some? && im[i].item.id == images[i]
            && forall j :: 0 <= j < |world| ==>
                 (j in im[i].points <==> Intersects(world[j].pt, open(images[i]).value.info, proj))
  {
    var ids := ZippedIds(images, None);
    assert ids[i].None?;
    var im := CreateImageDrillers(Positions(world), images, None, open, proj).value;
    assert im[i].item == MakeImageItem(images[i], ids[i]);
  }

  /** Image `i` opens and point `pt` lies in it. */
  predicate InImage(pt: Point, images: seq<string>, i: int, open: Opener, proj: Projection) {
    0 <= i < |images| && open(images[i]).Some? && Intersects(pt, open(images[i]).value.info, proj)
  }

  /** Every driller's item has a record at each of its points. */
  ghost predicate Recorded(ds: seq<Driller>, r: seq<PointStats>) {
    forall i, k :: 0 <= i < |ds| && k in ds[i].points && k < |r| ==> ds[i].item.id in r[k].records
  }

  /** With the STAC drillers first, a point's nearest items are recorded. */
  lemma StacRecorded(pts: seq<Point>, found: seq<seq<Item>>, assets: Option<seq<string>>, n: int,
                     im: seq<Driller>, r: seq<PointStats>, j: nat)
    requires |found| == |pts| && j < |pts| && j < |r|
    requires Recorded(CreateStacDrillers(pts, found, assets, n) + im, r)
    ensures forall it :: it in NearestN(found[j], pts[j], n) ==> it.id in r[j].records
  {
    var stac := CreateStacDrillers(pts, found, assets, n);
    forall it | it in NearestN(found[j], pts[j], n) ensures it.id in r[j].records {
      StacMember(pts, found, assets, n, it.id, j);
      var q :| 0 <= q < |stac| && stac[q].item.id == it.id && j in stac[q].points;
      assert (stac + im)[q] == stac[q];
    }
  }

  /** With the image drillers after the STAC ones, the images a point lies
      in are recorded. */
  lemma ImagesRecorded(world: seq<PointStats>, images: seq<string>, open: Opener, proj: Projection,
                       stac: seq<Driller>, r: seq<PointStats>, j: nat)
    requires images != [] && CreateImageDrillers(Positions(world), images, None, open, proj).Ok?
    requires j < |world| && j < |r|
    requires Recorded(stac + CreateImageDrillers(Positions(world), images, None, open, proj).value, r)
    ensures forall i :: InImage(world[j].pt, images, i, open, proj) ==> images[i] in r[j].records
  {
    var im := CreateImageDrillers(Positions(world), images, None, open, proj).value;
    forall i | InImage(world[j].pt, images, i, open, proj) ensures images[i] in r[j].records
    {
      ImageDrillerAt(world, images, open, proj, i);
      assert (stac + im)[|stac| + i] == im[i];
    }
  }

  lemma MemberSplit(a: seq<Driller>, b: seq<Driller>, id: string, k: nat)
    ensures Member(a + b, id, k) ==> Member(a, id, k) || Member(b, id, k)
  {
    if Member(a + b, id, k) {
      var q :| 0 <= q < |a + b| && (a + b)[q].item.id == id && k in (a + b)[q].points;
      if q < |a| { assert (a + b)[q] == a[q]; } else { assert (a + b)[q] == b[q - |a|]; }
    }
  }

  /** An image driller for item `x` at point `j` is an image the point lies
      in, under its path. */
  lemma ImageMemberFrom(world: seq<PointStats>, images: seq<string>, open: Opener, proj: Projection,
                        x: string, j: nat)
    requires images != [] && CreateImageDrillers(Positions(world), images, None, open, proj).Ok?
    requires j < |world|
    requires Member(CreateImageDrillers(Positions(world), images, None, open, proj).value, x, j)
    ensures exists i :: InImage(world[j].pt, images, i, open, proj) && images[i] == x
  {
    var im := CreateImageDrillers(Positions(world), images, None, open, proj).value;
    var q :| 0 <= q < |im| && im[q].item.id == x && j in im[q].points;
    ImageDrillerAt(world, images, open, proj, q);
    assert InImage(world[j].pt, images, q, open, proj);
  }

  /** A driller of drill for item `x` at point `j` is a nearest STAC item
      of the point or an image the point lies in. */
  lemma MemberFrom(world: seq<PointStats>, found: Option<seq<seq<Item>>>, assets: Option<seq<string>>,
                   n: int, images: seq<string>, open: Opener, proj: Projection, stac: seq<Driller>,
                   im: seq<Driller>, x: string, j: nat)
    requires found.Some? ==> |found.value| == |world|
    requires j < |world|
    requires stac == if found.Some? then CreateStacDrillers(Positions(world), found.value, assets, n) else []
    requires im == [] || (images != [] && CreateImageDrillers(Positions(world), images, None, open, proj) == Ok(im))
    requires Member(stac + im, x, j)
    ensures || (found.Some? && exists it :: it in NearestN(found.value[j], world[j].pt, n) && it.id == x)
            || (exists i :: InImage(world[j].pt, images, i, open, proj) && images[i] == x)
  {
    MemberSplit(stac, im, x, j);
    if Member(stac, x, j) {
      StacMember(Positions(world), found.value, assets, n, x, j);
    } else {
      ImageMemberFrom(world, images, open, proj, x, j);
    }
  }

  /** After a successful drill, each point has a record of every one of its
      nearest STAC items and of every image it lies in. */
  lemma DrillAllRecords(world: seq<PointStats>, found: Option<seq<seq<Item>>>, assets: Option<seq<string>>,
                        nearestN: int, images: seq<string>, ignore: IgnoreVal,
                        std: seq<string>, user: seq<(string, UserStat)>,
                        open: Opener, proj: Projection, v: Variant, j: nat)
    requires OpensValid(open)
    requires found.Some? ==> |found.value| == |world| && forall k :: 0 <= k < |world| ==> AllStac(found.value[k])
    requires j < |world|
    ensures var r := DrillAll(world, found, assets, nearestN, images, ignore, std, user, open, proj, v);
            r.1.Pass? ==>
              && (found.Some? ==> forall it :: it in NearestN(found.value[j], world[j].pt, nearestN) ==>
                    it.id in r.0[j].records)
              && (forall i :: InImage(world[j].pt, images, i, open, proj) ==> images[i] in r.0[j].records)
  {
    var pts := Positions(world);
    var stac := if found.Some? then CreateStacDrillers(pts, found.value, assets, nearestN) else [];
    var im := if images == [] then Ok([]) else CreateImageDrillers(pts, images, None, open, proj);
    var r := DrillAll(world, found, assets, nearestN, images, ignore, std, user, open, proj, v);
    DrillAllRuns(world, found, assets, nearestN, images, ignore, std, user, open, proj, v);
    if r.1.Pass? {
      RunAllRecords(stac + im.value, world, ignore, std, user, open, proj, v);
      assert Recorded(stac + im.value, r.0);
      if found.Some? {
        StacRecorded(pts, found.value, assets, nearestN, im.value, r.0, j);
      }
      if images != [] {
        ImagesRecorded(world, images, open, proj, stac, r.0, j);
      }
    }
  }

  /** drill adds no other record: a record a point did not have before is
      one of its nearest STAC items or an image it lies in. */
  lemma DrillAllAddsOnly(world: seq<PointStats>, found: Option<seq<seq<Item>>>, assets: Option<seq<string>>,
                         nearestN: int, images: seq<string>, ignore: IgnoreVal,
                         std: seq<string>, user: seq<(string, UserStat)>,
                         open: Opener, proj: Projection, v: Variant, j: nat, x: string)
    requires OpensValid(open)
    requires found.Some? ==> |found.value| == |world| && forall k :: 0 <= k < |world| ==> AllStac(found.value[k])
    requires j < |world|
    ensures var r := DrillAll(world, found, assets, nearestN, images, ignore, std, user, open, proj, v);
            x in r.0[j].records && x !in world[j].records ==>
              || (found.Some? && exists it :: it in NearestN(found.value[j], world[j].pt, nearestN) && it.id == x)
              || (exists i :: InImage(world[j].pt, images, i, open, proj) && images[i] == x)
  {
    var pts := Positions(world);
    var stac := if found.Some? then CreateStacDrillers(pts, found.value, assets, nearestN) else [];
    var im := if images == [] then Ok([]) else CreateImageDrillers(pts, images, None, open, proj);
    var r := DrillAll(world, found, assets, nearestN, images, ignore, std, user, open, proj, v);
    DrillAllRuns(world, found, assets, nearestN, images, ignore, std, user, open, proj, v);
    if im.Ok? && x in r.0[j].records && x !in world[j].records {
      assert Member(stac + im.value, x, j);
      MemberFrom(world, found, assets, nearestN, images, open, proj, stac, im.value, x, j);
    }
  }

  /** The points' locations. */
  function Positions(world: seq<PointStats>): (pts: seq<Point>)
    ensures |pts| == |world| && forall j :: 0 <= j < |world| ==> pts[j] == world[j].pt
  {
    seq(|world|, j requires 0 <= j < |world| => world[j].pt)
  }

  /** Point `j` is a point of the world that the search found something
      for or that lies in one of the images. */
  predicate Hit(world: seq<PointStats>, j: nat, found: Option<seq<seq<Item>>>, images: seq<string>,
                open: Opener, proj: Projection)
  {
    j < |world| && !Untouched(world[j].pt, j, found, images, open, proj)
  }

  /** Every point a driller of `ds` holds is hit. */
  predicate Touches(ds: seq<Driller>, world: seq<PointStats>, found: Option<seq<seq<Item>>>,
                    images: seq<string>, open: Opener, proj: Projection)
  {
    forall i, k :: 0 <= i < |ds| && 0 <= k < |ds[i].points| ==>
      Hit(world, ds[i].points[k], found, images, open, proj)
  }

  lemma TouchesAppend(a: seq<Driller>, b: seq<Driller>, world: seq<PointStats>, found: Option<seq<seq<Item>>>,
                      images: seq<string>, open: Opener, proj: Projection)
    requires Touches(a, world, found, images, open, proj) && Touches(b, world, found, images, open, proj)
    ensures Touches(a + b, world, found, images, open, proj)
  {
    var ds := a + b;
    forall i, k | 0 <= i < |ds| && 0 <= k < |ds[i].points|
      ensures Hit(world, ds[i].points[k], found, images, open, proj)
    {
      if i < |a| {
        assert a[i] == ds[i];
      } else {
        assert b[i - |a|] == ds[i];
      }
    }
  }

  /** The drillers only hold points of the world, and none holds a point
      that is not hit. */
  lemma TouchesSpares(ds: seq<Driller>, world: seq<PointStats>, found: Option<seq<seq<Item>>>,
                      images: seq<string>, open: Opener, proj: Projection)
    requires Touches(ds, world, found, images, open, proj)
    ensures IndexesAll(ds, |world|)
    ensures forall j :: 0 <= j < |world| && Untouched(world[j].pt, j, found, images, open, proj) ==>
      forall i :: 0 <= i < |ds| ==> j !in ds[i].points
  {
    forall i | 0 <= i < |ds| ensures Indexes(ds[i].points, |world|) {
      forall k | 0 <= k < |ds[i].points| ensures ds[i].points[k] < |world| {
        assert Hit(world, ds[i].points[k], found, images, open, proj);
      }
    }
    forall j, i | 0 <= j < |world| && Untouched(world[j].pt, j, found, images, open, proj) && 0 <= i < |ds|
      ensures j !in ds[i].points
    {
      forall k | 0 <= k < |ds[i].points| ensures ds[i].points[k] != j {
        assert Hit(world, ds[i].points[k], found, images, open, proj);
      }
    }
  }

  lemma StacTouches(world: seq<PointStats>, pts: seq<Point>, found: Option<seq<seq<Item>>>,
                    assets: Option<seq<string>>, n: int, images: seq<string>, open: Opener, proj: Projection)
    requires pts == Positions(world)
    requires found.Some? ==> |found.value| == |pts|
    ensures found.Some? ==> Touches(CreateStacDrillers(pts, found.value, assets, n), world, found, images, open, proj)
  {
    if found.Some? {
      var r := CreateStacDrillers(pts, found.value, assets, n);
      forall i, k | 0 <= i < |r| && 0 <= k < |r[i].points|
        ensures Hit(world, r[i].points[k], found, images, open, proj)
      {
        StacPointFound(pts, found.value, assets, n, i, r[i].points[k]);
      }
    }
  }

  lemma ImageTouches(world: seq<PointStats>, pts: seq<Point>, found: Option<seq<seq<Item>>>,
                     images: seq<string>, imageIds: Option<seq<string>>, open: Opener, proj: Projection)
    requires pts == Positions(world)
    ensures var r := if images == [] then Ok([]) else CreateImageDrillers(pts, images, imageIds, open, proj);
            r.Ok? ==> Touches(r.value, world, found, images, open, proj)
  {
    if images != [] && CreateImageDrillers(pts, images, imageIds, open, proj).Ok? {
      var r := CreateImageDrillers(pts, images, imageIds, open, proj).value;
      forall i, k | 0 <= i < |r| && 0 <= k < |r[i].points|
        ensures Hit(world, r[i].points[k], found, images, open, proj)
      {
        ImagePointInside(pts, images, imageIds, open, proj, i, r[i].points[k]);
      }
    }
  }

  /** A point of a STAC driller is one the search found something for. */
  lemma StacPointFound(pts: seq<Point>, found: seq<seq<Item>>, assets: Option<seq<string>>, n: int,
                       i: nat, j: nat)
    requires |found| == |pts|
    requires i < |CreateStacDrillers(pts, found, assets, n)|
    requires j in CreateStacDrillers(pts, found, assets, n)[i].points
    ensures j < |pts| && found[j] != []
  {
    var r := CreateStacDrillers(pts, found, assets, n);
    StacMember(pts, found, assets, n, r[i].item.id, j);
    assert Member(r, r[i].item.id, j);
    var it :| it in NearestN(found[j], pts[j], n) && it.id == r[i].item.id;
    assert it in multiset(found[j]);
  }

  /** Point `k` is in a STAC driller for `id` exactly when one of its
      nearest items has that id. */
  lemma StacMember(pts: seq<Point>, found: seq<seq<Item>>, assets: Option<seq<string>>, n: int,
                   id: string, k: nat)
    requires |found| == |pts|
    ensures Member(CreateStacDrillers(pts, found, assets, n), id, k) <==> NearestHas(pts, found, n, id, k)
  {
    PairsHaveNearest(pts, found, n, id, k);
  }

  /** A point of an image driller lies in that driller's image. */
  lemma ImagePointInside(pts: seq<Point>, images: seq<string>, imageIds: Option<seq<string>>,
                         open: Opener, proj: Projection, q: nat, j: nat)
    requires CreateImageDrillers(pts, images, imageIds, open, proj).Ok?
    requires q < |CreateImageDrillers(pts, images, imageIds, open, proj).value|
    requires j in CreateImageDrillers(pts, images, imageIds, open, proj).value[q].points
    ensures j < |pts| && q < |images| && open(images[q]).Some?
    ensures Intersects(pts[j], open(images[q]).value.info, proj)
  {
  }
}
