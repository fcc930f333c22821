/** The statistics a point keeps about the items it was drilled from
    (pixdrill/drillstats.py).

    A point's store maps an item id to that item's record; a record maps a
    statistic name to its value. `raw` holds the masked arrays read for the
    item, one per asset, and `arrayinfo` the matching ArrayInfo objects;
    every other entry is a standard statistic computed from `raw`, or a
    user statistic computed by a user function from `arrayinfo`.
 */
module DrillStats {
  import opened Results
  import opened MaskedArrays
  import opened ImageReader
  import opened Items
  import opened DrillPoints

  const Raw: string := "raw"
  const ArrayInfoKey: string := "arrayinfo"
  const MeanName: string := "mean"
  const StdDevName: string := "stddev"
  const CountName: string := "count"
  const CountNullName: string := "countnull"

  /** STATS_STD as written: count twice, countnull missing. */
  const StatsStd: seq<string> := [MeanName, StdDevName, CountName, CountName]

  /** The names that have a standard statistic function (STD_STATS_FUNCS). */
  predicate KnownStd(name: string) {
    name == MeanName || name == StdDevName || name == CountName || name == CountNullName
  }

  /** A value stored under a statistic name. `Means` keeps numpy's NaN as
      None; `StdDevs` keeps, per array, the variance whose square root numpy
      stores; `Scalar` stands for whatever a user function returns. */
  datatype Value =
    | Arrays(arrays: seq<MaskedArray>)
    | Infos(infos: seq<ArrayInfo>)
    | Means(means: seq<Option<real>>)
    | StdDevs(variances: seq<Option<real>>)
    | Counts(counts: seq<nat>)
    | EmptyList
    | NoneValue
    | Scalar(x: real)

  /** A user statistic: called with the `arrayinfo` entry, the item and the
      point. */
  type UserStat = (Value, Item, Point) -> Value

  /** The indices, in increasing order, of the arrays with more than one
      band from index `from` on. */
  function MultibandFrom(arrays: seq<MaskedArray>, from: nat): (r: seq<nat>)
    requires from <= |arrays|
    ensures forall k: nat :: k in r <==> from <= k < |arrays| && |arrays[k]| > 1
    ensures forall i, j :: 0 <= i < j < |r| ==> r[i] < r[j]
    decreases |arrays| - from
  {
    if from == |arrays| then []
    else
      var rest := MultibandFrom(arrays, from + 1);
      assert forall j :: 0 <= j < |rest| ==> rest[j] in rest;
      if |arrays[from]| > 1 then [from] + rest else rest
  }

  /** The indices check_std_arrays lists. */
  function MultibandIndices(arrays: seq<MaskedArray>): (r: seq<nat>)
    ensures forall k: nat :: k in r <==> k < |arrays| && |arrays[k]| > 1
    ensures forall i, j :: 0 <= i < j < |r| ==> r[i] < r[j]
  {
    MultibandFrom(arrays, 0)
  }

  /** check_std_arrays: every array must have at most one band (the empty
      array has none). */
  function CheckStdArrays(arrays: seq<MaskedArray>): (r: Outcome)
    ensures r.Pass? <==> forall i :: 0 <= i < |arrays| ==> |arrays[i]| <= 1
    ensures r.Fail? ==> r.error == MultibandAsset(MultibandIndices(arrays))
  {
    var bad := MultibandIndices(arrays);
    if bad == [] then Pass
    else
      assert bad[0] in bad;
      Fail(MultibandAsset(bad))
  }

  /** STD_STATS_FUNCS[name] applied to the list of raw arrays: one result per
      array. An unknown name is a KeyError. */
  function StdStat(name: string, arrays: seq<MaskedArray>): (r: Result<Value>)
    ensures r.Ok? <==> KnownStd(name)
    ensures r.Err? ==> r.error == UnknownStat(name)
    ensures name == MeanName ==> (r.Ok? && r.value.Means? && |r.value.means| == |arrays| &&
      forall i :: 0 <= i < |arrays| ==> r.value.means[i] == Mean(arrays[i]))
    ensures name == StdDevName ==> (r.Ok? && r.value.StdDevs? && |r.value.variances| == |arrays| &&
      forall i :: 0 <= i < |arrays| ==> r.value.variances[i] == Variance(arrays[i]))
    ensures name == CountName ==> (r.Ok? && r.value.Counts? && |r.value.counts| == |arrays| &&
      forall i :: 0 <= i < |arrays| ==> r.value.counts[i] == Count(arrays[i]))
    ensures name == CountNullName ==> (r.Ok? && r.value.Counts? && |r.value.counts| == |arrays| &&
      forall i :: 0 <= i < |arrays| ==> r.value.counts[i] == CountNull(arrays[i]))
  {
    if name == MeanName then Ok(Means(seq(|arrays|, i requires 0 <= i < |arrays| => Mean(arrays[i]))))
    else if name == StdDevName then
      Ok(StdDevs(seq(|arrays|, i requires 0 <= i < |arrays| => Variance(arrays[i]))))
    else if name == CountName then Ok(Counts(seq(|arrays|, i requires 0 <= i < |arrays| => Count(arrays[i]))))
    else if name == CountNullName then
      Ok(Counts(seq(|arrays|, i requires 0 <= i < |arrays| => CountNull(arrays[i]))))
    else Err(UnknownStat(name))
  }

  /** Per array, count and countnull add up to the array's size. */
  lemma CountsSumToSize(arrays: seq<MaskedArray>)
    ensures var c := StdStat(CountName, arrays).value.counts;
            var n := StdStat(CountNullName, arrays).value.counts;
            forall i :: 0 <= i < |arrays| ==> c[i] + n[i] == Size(arrays[i])
  {
    forall i | 0 <= i < |arrays| ensures Count(arrays[i]) + CountNull(arrays[i]) == Size(arrays[i]) {
      CountPlusCountNull(arrays[i]);
    }
  }

  /** The standard-statistics loop of calc_stats: `raw` and `arrayinfo` are
      skipped; every other name is stored as its function applied to the raw
      arrays. An unknown name stops the loop with the statistics stored so
      far. */
  function StoreStd(stats: map<string, Value>, names: seq<string>, arrays: seq<MaskedArray>)
    : (r: (map<string, Value>, Outcome))
    ensures r.1.Pass? <==> forall k :: 0 <= k < |names| ==>
      names[k] == Raw || names[k] == ArrayInfoKey || KnownStd(names[k])
    ensures r.1.Fail? ==> r.1.error.UnknownStat?
    // names the loop does not store are left alone
    ensures forall n :: n !in names || n == Raw || n == ArrayInfoKey ==>
      (n in r.0 <==> n in stats) && (n in stats ==> r.0[n] == stats[n])
    ensures r.1.Pass? ==> forall n :: n in names && n != Raw && n != ArrayInfoKey ==>
      n in r.0 && r.0[n] == StdStat(n, arrays).value
    decreases |names|
  {
    if names == [] then (stats, Pass)
    else if names[0] == Raw || names[0] == ArrayInfoKey then StoreStd(stats, names[1..], arrays)
    else
      match StdStat(names[0], arrays)
      case Err(e) => (stats, Fail(e))
      case Ok(v) => StoreStd(stats[names[0] := v], names[1..], arrays)
  }

  /** The names a list of user statistics stores. */
  function UserNames(user: seq<(string, UserStat)>): (names: set<string>)
    ensures forall k :: 0 <= k < |user| ==> user[k].0 in names
    ensures forall n :: n in names ==> exists k :: 0 <= k < |user| && user[k].0 == n
  {
    set k | 0 <= k < |user| :: user[k].0
  }

  /** The user-statistics loop of calc_stats: each function is called with
      the current `arrayinfo` entry and its result stored under its name, in
      list order. */
  function StoreUser(stats: map<string, Value>, user: seq<(string, UserStat)>, item: Item, pt: Point)
    : (r: (map<string, Value>, Outcome))
    ensures r.1.Fail? <==> user != [] && ArrayInfoKey !in stats
    ensures r.1.Fail? ==> r == (stats, Fail(MissingStat(ArrayInfoKey)))
    // names no user statistic has are left alone
    ensures forall n :: n !in UserNames(user) ==>
      (n in r.0 <==> n in stats) && (n in stats ==> r.0[n] == stats[n])
    ensures r.1.Pass? ==> r.0.Keys == stats.Keys + UserNames(user)
    decreases |user|
  {
    if user == [] then (stats, Pass)
    else if ArrayInfoKey !in stats then (stats, Fail(MissingStat(ArrayInfoKey)))
    else
      var (name, f) := user[0];
      var r := StoreUser(stats[name := f(stats[ArrayInfoKey], item, pt)], user[1..], item, pt);
      assert UserNames(user) == {name} + UserNames(user[1..]) by {
        assert forall k :: 1 <= k < |user| ==> user[k] == user[1..][k - 1];
      }
      r
  }

  /** When no user statistic replaces `arrayinfo`, every function sees the
      same `arrayinfo` entry and the last function of each name decides its
      value: user statistics overwrite standard ones of the same name. */
  lemma {:induction false} StoreUserLastWins(stats: map<string, Value>, user: seq<(string, UserStat)>,
                                             item: Item, pt: Point, k: nat)
    requires ArrayInfoKey in stats && ArrayInfoKey !in UserNames(user)
    requires k < |user| && forall j :: k < j < |user| ==> user[j].0 != user[k].0
    ensures var r := StoreUser(stats, user, item, pt).0;
            user[k].0 in r && r[user[k].0] == user[k].1(stats[ArrayInfoKey], item, pt)
    decreases |user|
  {
    var (name, f) := user[0];
    var next := stats[name := f(stats[ArrayInfoKey], item, pt)];
    assert forall j :: 1 <= j < |user| ==> user[j] == user[1..][j - 1];
    assert UserNames(user[1..]) <= UserNames(user);
    if k == 0 {
      assert user[0].0 !in UserNames(user[1..]);
    } else {
      StoreUserLastWins(next, user[1..], item, pt, k - 1);
    }
  }

  /** The calc_stats of a record (pixdrill/drillstats.py, and
      ItemStats.calc_stats of pixelstac/pointstats.py, which is the same
      code): with standard statistics requested, `raw` must be a list of
      single-band arrays; then the standard statistics, then the user ones. */
  function CalcRecordStats(stats: map<string, Value>, item: Item, pt: Point,
                           std: seq<string>, user: seq<(string, UserStat)>)
    : (r: (map<string, Value>, Outcome))
    ensures |std| > 0 && Raw !in stats ==> r == (stats, Fail(MissingStat(Raw)))
    ensures |std| > 0 && Raw in stats && stats[Raw].Arrays? &&
            MultibandIndices(stats[Raw].arrays) != [] ==>
      r == (stats, Fail(MultibandAsset(MultibandIndices(stats[Raw].arrays))))
    // no standard statistic, no check of the bands
    ensures std == [] ==> r == StoreUser(stats, user, item, pt)
    ensures r.1.Fail? && r.1.error.MultibandAsset? ==> |std| > 0
    ensures r.1.Fail? ==> !r.1.error.UnknownItem?
  {
    if |std| > 0 then
      if Raw !in stats then (stats, Fail(MissingStat(Raw)))
      else if !stats[Raw].Arrays? then (stats, Fail(NotAList(Raw)))
      else
        var arrays := stats[Raw].arrays;
        var check := CheckStdArrays(arrays);
        if check.Fail? then (stats, check)
        else
          var (s1, o1) := StoreStd(stats, std, arrays);
          if o1.Fail? then (s1, o1) else StoreUser(s1, user, item, pt)
    else StoreUser(stats, user, item, pt)
  }

  /** The record invariant: `raw` and `arrayinfo` are lists of the same
      length, and each raw array is the data of the ArrayInfo at its index. */
  predicate WellFormed(stats: map<string, Value>) {
    && HasLists(stats)
    && |stats[Raw].arrays| == |stats[ArrayInfoKey].infos|
    && forall i :: 0 <= i < |stats[Raw].arrays| ==>
         stats[Raw].arrays[i] == stats[ArrayInfoKey].infos[i].data
  }

  /** With standard statistics requested on a well-formed record of
      single-band arrays and known names, every requested standard statistic
      not replaced by a user one holds its function's result, and the
      record stays well formed when no user statistic replaces `raw` or
      `arrayinfo`. */
  lemma CalcRecordStatsStores(stats: map<string, Value>, item: Item, pt: Point,
                              std: seq<string>, user: seq<(string, UserStat)>)
    requires WellFormed(stats)
    requires forall k :: 0 <= k < |std| ==> std[k] == Raw || std[k] == ArrayInfoKey || KnownStd(std[k])
    requires forall i :: 0 <= i < |stats[Raw].arrays| ==> |stats[Raw].arrays[i]| <= 1
    requires Raw !in UserNames(user) && ArrayInfoKey !in UserNames(user)
    ensures var r := CalcRecordStats(stats, item, pt, std, user);
      && r.1.Pass?
      && WellFormed(r.0)
      && r.0[Raw] == stats[Raw] && r.0[ArrayInfoKey] == stats[ArrayInfoKey]
      && forall n :: n in std && n != Raw && n != ArrayInfoKey &&
                     n !in UserNames(user) ==>
           n in r.0 && r.0[n] == StdStat(n, stats[Raw].arrays).value
  {
    var arrays := stats[Raw].arrays;
    if |std| > 0 {
      assert CheckStdArrays(arrays).Pass?;
      var (s1, o1) := StoreStd(stats, std, arrays);
      assert WellFormed(s1);
    }
  }

  /** User statistics are applied after the standard ones: the last user
      function of a name decides that name's value, a standard name
      included. */
  lemma CalcRecordStatsUserWins(stats: map<string, Value>, item: Item, pt: Point,
                                std: seq<string>, user: seq<(string, UserStat)>, k: nat)
    requires WellFormed(stats)
    requires forall j :: 0 <= j < |std| ==> std[j] == Raw || std[j] == ArrayInfoKey || KnownStd(std[j])
    requires forall i :: 0 <= i < |stats[Raw].arrays| ==> |stats[Raw].arrays[i]| <= 1
    requires ArrayInfoKey !in UserNames(user)
    requires k < |user| && forall j :: k < j < |user| ==> user[j].0 != user[k].0
    ensures var r := CalcRecordStats(stats, item, pt, std, user).0;
            user[k].0 in r && r[user[k].0] == user[k].1(stats[ArrayInfoKey], item, pt)
  {
    if |std| > 0 {
      assert CheckStdArrays(stats[Raw].arrays).Pass?;
      var (s1, o1) := StoreStd(stats, std, stats[Raw].arrays);
      StoreUserLastWins(s1, user, item, pt, k);
    } else {
      StoreUserLastWins(stats, user, item, pt, k);
    }
  }

  /** A record as the PointStats constructor and reset leave it. */
  function FreshStats(): (s: map<string, Value>)
    ensures WellFormed(s) && s.Keys == {Raw, ArrayInfoKey}
    ensures s[Raw] == Arrays([]) && s[ArrayInfoKey] == Infos([])
  {
    map[Raw := Arrays([]), ArrayInfoKey := Infos([])]
  }

  /** `raw` and `arrayinfo` are present and hold lists. */
  predicate HasLists(stats: map<string, Value>) {
    && Raw in stats && stats[Raw].Arrays?
    && ArrayInfoKey in stats && stats[ArrayInfoKey].Infos?
  }

  /** add_data on a record: append the array to `raw` and the ArrayInfo to
      `arrayinfo`. */
  function AppendData(stats: map<string, Value>, ai: ArrayInfo): (r: Result<map<string, Value>>)
    ensures r.Ok? <==> HasLists(stats)
    ensures WellFormed(stats) ==> WellFormed(r.value)
    ensures r.Ok? ==> r.value.Keys == stats.Keys
    ensures r.Ok? ==> r.value[Raw] == Arrays(stats[Raw].arrays + [ai.data])
    ensures r.Ok? ==> r.value[ArrayInfoKey] == Infos(stats[ArrayInfoKey].infos + [ai])
    ensures r.Ok? ==> forall n :: n in stats && n != Raw && n != ArrayInfoKey ==> r.value[n] == stats[n]
  {
    if Raw !in stats then Err(MissingStat(Raw))
    else if !stats[Raw].Arrays? then Err(NotAList(Raw))
    else if ArrayInfoKey !in stats then Err(MissingStat(ArrayInfoKey))
    else if !stats[ArrayInfoKey].Infos? then Err(NotAList(ArrayInfoKey))
    else
      Ok(stats[Raw := Arrays(stats[Raw].arrays + [ai.data])]
              [ArrayInfoKey := Infos(stats[ArrayInfoKey].infos + [ai])])
  }

  /** The statistics of one item about one point. */
  datatype ItemRecord = ItemRecord(item: Item, stats: map<string, Value>)

  function Fresh(item: Item): (rec: ItemRecord)
    ensures rec.item == item && WellFormed(rec.stats)
  {
    ItemRecord(item, FreshStats())
  }

  /** The statistics store of one point: item id to record. */
  datatype PointStats = PointStats(pt: Point, records: map<string, ItemRecord>)

  /** The constructor: no record yet. */
  function NewPointStats(pt: Point): (ps: PointStats)
    ensures ps.pt == pt && ps.records == map[]
  {
    PointStats(pt, map[])
  }

  /** reset(item=...): a fresh record for the item, created when missing;
      reset(): every record made fresh. */
  function Reset(ps: PointStats, item: Option<Item>): (r: PointStats)
    ensures r.pt == ps.pt
    ensures item.Some? ==> r.records.Keys == ps.records.Keys + {item.value.id}
    ensures item.Some? ==> r.records[item.value.id] == Fresh(item.value)
    ensures item.Some? ==> forall id :: id in ps.records && id != item.value.id ==>
      r.records[id] == ps.records[id]
    ensures item.None? ==> r.records.Keys == ps.records.Keys
    ensures item.None? ==> forall id :: id in r.records ==> r.records[id] == Fresh(ps.records[id].item)
  {
    match item
    case Some(it) => ps.(records := ps.records[it.id := Fresh(it)])
    case None => ps.(records := map id | id in ps.records :: Fresh(ps.records[id].item))
  }

  /** Resetting twice is resetting once. */
  lemma ResetIdempotent(ps: PointStats, item: Option<Item>)
    ensures Reset(Reset(ps, item), item) == Reset(ps, item)
  {
    var once := Reset(ps, item);
    var twice := Reset(once, item);
    assert twice.records == once.records;
  }

  /** add_data(item, arr_info): the item's record, created fresh when
      missing, gets the array appended. */
  function AddData(ps: PointStats, item: Item, ai: ArrayInfo): (r: Result<PointStats>)
    ensures r.Ok? <==> item.id !in ps.records || HasLists(ps.records[item.id].stats)
    ensures r.Ok? ==> r.value.pt == ps.pt && r.value.records.Keys == ps.records.Keys + {item.id}
    ensures r.Ok? ==> forall id :: id in ps.records && id != item.id ==> r.value.records[id] == ps.records[id]
    ensures r.Ok? ==>
      var before := if item.id in ps.records then ps.records[item.id] else Fresh(item);
      var after := r.value.records[item.id];
      && HasLists(before.stats) && HasLists(after.stats)
      && after.item == before.item
      && after.stats[Raw] == Arrays(before.stats[Raw].arrays + [ai.data])
      && after.stats[ArrayInfoKey] == Infos(before.stats[ArrayInfoKey].infos + [ai])
      && (WellFormed(before.stats) ==> WellFormed(after.stats))
  {
    var rec := if item.id in ps.records then ps.records[item.id] else Fresh(item);
    var stats :- AppendData(rec.stats, ai);
    Ok(ps.(records := ps.records[item.id := rec.(stats := stats)]))
  }

  /** Rolling back: whatever was added for an item, resetting it gives the
      store that resetting it before the additions gives. */
  lemma ResetUndoesAddData(ps: PointStats, item: Item, ai: ArrayInfo)
    requires AddData(ps, item, ai).Ok?
    ensures Reset(AddData(ps, item, ai).value, Some(item)) == Reset(ps, Some(item))
  {
    var a := Reset(AddData(ps, item, ai).value, Some(item));
    var b := Reset(ps, Some(item));
    assert a.records == b.records;
  }

  /** calc_stats(item_id, ...): the item's record must exist. */
  function CalcStats(ps: PointStats, itemId: string, std: seq<string>, user: seq<(string, UserStat)>)
    : (r: (PointStats, Outcome))
    ensures itemId !in ps.records ==> r == (ps, Fail(UnknownItem(itemId)))
    ensures r.0.pt == ps.pt && r.0.records.Keys == ps.records.Keys
    ensures forall id :: id in ps.records && id != itemId ==> r.0.records[id] == ps.records[id]
    ensures itemId in ps.records ==>
      var rec := ps.records[itemId];
      var c := CalcRecordStats(rec.stats, rec.item, ps.pt, std, user);
      r.0.records[itemId] == rec.(stats := c.0) && r.1 == c.1
  {
    if itemId !in ps.records then (ps, Fail(UnknownItem(itemId)))
    else
      var rec := ps.records[itemId];
      var (stats, out) := CalcRecordStats(rec.stats, rec.item, ps.pt, std, user);
      (ps.(records := ps.records[itemId := rec.(stats := stats)]), out)
  }

  /** What get_stats returns for a missing statistic: `[]` for a name in
      STATS_STD, None for any other. */
  function Default(name: string): (v: Value)
    ensures v == EmptyList <==> name in StatsStd
    ensures v == NoneValue <==> name !in StatsStd
  {
    if name in StatsStd then EmptyList else NoneValue
  }

  /** Because STATS_STD lists count twice and omits countnull, a missing
      countnull reads as None while a missing count reads as `[]`. */
  lemma DefaultOfCounts()
    ensures Default(CountName) == EmptyList && Default(MeanName) == EmptyList
    ensures Default(StdDevName) == EmptyList
    ensures Default(CountNullName) == NoneValue
    ensures Default(Raw) == NoneValue
  {
    assert StatsStd[2] == CountName;
  }

  /** The four answers of get_stats. */
  datatype StatsView =
    | AllRecords(records: map<string, ItemRecord>)
    | ItemView(stats: map<string, Value>)
    | StatView(perItem: map<string, Value>)
    | One(value: Value)

  /** A statistic of a record, or its default. */
  function Lookup(stats: map<string, Value>, name: string): (v: Value)
    ensures name in stats ==> v == stats[name]
    ensures name !in stats ==> v == Default(name)
  {
    if name in stats then stats[name] else Default(name)
  }

  /** get_stats(item_id, stat_name): everything; one item's record (empty
      for an unknown item); one statistic for every item; or one statistic
      of one item, with the default when the item or the statistic is
      missing. */
  function GetStats(ps: PointStats, itemId: Option<string>, statName: Option<string>): (v: StatsView)
    ensures itemId.None? && statName.None? ==> v == AllRecords(ps.records)
    ensures itemId.Some? && statName.None? ==>
      v.ItemView? && (itemId.value in ps.records ==> v.stats == ps.records[itemId.value].stats) &&
      (itemId.value !in ps.records ==> v.stats == map[])
    ensures itemId.None? && statName.Some? ==>
      v.StatView? && v.perItem.Keys == ps.records.Keys &&
      forall id :: id in ps.records ==> v.perItem[id] == Lookup(ps.records[id].stats, statName.value)
    ensures itemId.Some? && statName.Some? ==>
      v.One? && v.value == (if itemId.value in ps.records then Lookup(ps.records[itemId.value].stats, statName.value)
                            else Default(statName.value))
  {
    match (itemId, statName)
    case (None, None) => AllRecords(ps.records)
    case (Some(id), None) => ItemView(if id in ps.records then ps.records[id].stats else map[])
    case (None, Some(name)) => StatView(map id | id in ps.records :: Lookup(ps.records[id].stats, name))
    case (Some(id), Some(name)) =>
      One(if id in ps.records then Lookup(ps.records[id].stats, name) else Default(name))
  }

  /** Asking for one item's statistic agrees with asking for that statistic
      across items. */
  lemma GetStatsViewsAgree(ps: PointStats, id: string, name: string)
    requires id in ps.records
    ensures GetStats(ps, Some(id), Some(name)).value == GetStats(ps, None, Some(name)).perItem[id]
  {
  }

  /** After reset(item=...), the item's record reads as empty lists for
      `raw` and `arrayinfo` and as the defaults for everything else. */
  lemma ResetReadsEmpty(ps: PointStats, item: Item, name: string)
    ensures GetStats(Reset(ps, Some(item)), Some(item.id), Some(name)).value ==
            (if name == Raw then Arrays([]) else if name == ArrayInfoKey then Infos([]) else Default(name))
  {
  }

  /** The store of a new point answers with empty maps and defaults. */
  lemma NewPointStatsAnswers(pt: Point, id: string)
    ensures GetStats(NewPointStats(pt), None, None) == AllRecords(map[])
    ensures GetStats(NewPointStats(pt), Some(id), None) == ItemView(map[])
    ensures GetStats(NewPointStats(pt), None, Some(MeanName)) == StatView(map[])
    ensures GetStats(NewPointStats(pt), Some(id), Some(MeanName)) == One(EmptyList)
    ensures GetStats(NewPointStats(pt), Some(id), Some("USER_STAT")) == One(NoneValue)
  {
    assert "USER_STAT" !in StatsStd;
  }

  /** A multiband array and a standard statistic: the whole calculation is
      refused and the store is unchanged; without standard statistics the
      same record passes. */
  lemma MultibandRefused(ps: PointStats, itemId: string, std: seq<string>, user: seq<(string, UserStat)>)
    requires itemId in ps.records && WellFormed(ps.records[itemId].stats)
    requires exists i :: 0 <= i < |ps.records[itemId].stats[Raw].arrays| &&
                         |ps.records[itemId].stats[Raw].arrays[i]| > 1
    ensures |std| > 0 ==>
      CalcStats(ps, itemId, std, user) ==
        (ps, Fail(MultibandAsset(MultibandIndices(ps.records[itemId].stats[Raw].arrays))))
    ensures CalcStats(ps, itemId, [], user).1.Pass?
  {
    var arrays := ps.records[itemId].stats[Raw].arrays;
    var i :| 0 <= i < |arrays| && |arrays[i]| > 1;
    assert i in MultibandIndices(arrays);
    assert ps.records[itemId := ps.records[itemId]] == ps.records;
  }
}
