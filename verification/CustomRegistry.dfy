/**
 The registry of custom metrics and the lister that refreshes it (custom-provider/series_registry.go,
 custom-provider/provider.go).
 */
module CustomRegistry {
  import opened Wrappers
  import opened Prometheus
  import opened LastWriter
  import opened NestedLoops
  import opened FanOut

  datatype CustomMetricInfo = CustomMetricInfo(resource: GroupResource, namespaced: bool, metric: string)

  datatype Sample = Sample(labels: map<string, string>, value: real)

  const NAMESPACES := GroupResource("", "namespaces")
  const NODES := GroupResource("", "nodes")
  const PERSISTENT_VOLUMES := GroupResource("", "persistentvolumes")

  /** Metrics of namespaces, nodes and persistent volumes are not counted as namespaced. */
  predicate ClusterWide(resource: GroupResource) {
    resource == NAMESPACES || resource == NODES || resource == PERSISTENT_VOLUMES
  }

  function KeyFor(resource: GroupResource, namespaced: bool, name: string): CustomMetricInfo {
    CustomMetricInfo(resource, namespaced && !ClusterWide(resource), name)
  }

  /** The entries of one named series for its first k resources. */
  function ResourceEntries(resources: seq<GroupResource>, namespaced: bool, name: string, info: SeriesInfo, k: nat)
    : seq<(CustomMetricInfo, SeriesInfo)>
    requires k <= |resources|
  {
    if k == 0 then []
    else ResourceEntries(resources, namespaced, name, info, k - 1) + [(KeyFor(resources[k - 1], namespaced, name), info)]
  }

  /** The entries of a namer's first j series; series without a name are skipped. */
  function SeriesEntries(namer: Namer, series: seq<Series>, j: nat): seq<(CustomMetricInfo, SeriesInfo)>
    requires j <= |series|
  {
    if j == 0 then []
    else SeriesEntries(namer, series, j - 1) + EntriesOf(namer, series[j - 1])
  }

  function EntriesOf(namer: Namer, series: Series): seq<(CustomMetricInfo, SeriesInfo)> {
    var (resources, namespaced) := namer.resourcesForSeries(series);
    match namer.metricNameForSeries(series)
    case None => []
    case Some(name) =>
      ResourceEntries(resources, namespaced, name, SeriesInfo(series.name, namer), |resources|)
  }

  /** All entries of the first i namers, in the order of the nested loops. */
  function Entries(r: UpdateResult, i: nat): seq<(CustomMetricInfo, SeriesInfo)>
    requires i <= |r.series| && i <= |r.namers|
  {
    if i == 0 then [] else Entries(r, i - 1) + SeriesEntries(r.namers[i - 1], r.series[i - 1], |r.series[i - 1]|)
  }

  function Index(r: UpdateResult): map<CustomMetricInfo, SeriesInfo>
    requires InStep(r)
  {
    FromEntries(Entries(r, |r.series|))
  }

  // ---------------------------------------------------------------------------------------
  // What a registry holds, in terms of namers and series
  // ---------------------------------------------------------------------------------------

  /** The key is for one of these resources, and namespaced if the series is and the resource is not cluster-wide. */
  ghost predicate IsKeyOf(key: CustomMetricInfo, resources: seq<GroupResource>, namespaced: bool, name: string) {
    && key.metric == name && key.resource in resources
    && key.namespaced == (namespaced
         && key.resource != GroupResource("", "namespaces")
         && key.resource != GroupResource("", "nodes")
         && key.resource != GroupResource("", "persistentvolumes"))
  }

  /** Series q of namer p gives the key. */
  ghost predicate Gives(slices: seq<seq<Series>>, namers: seq<Namer>, p: int, q: int, key: CustomMetricInfo) {
    && 0 <= p < |slices| && p < |namers| && 0 <= q < |slices[p]|
    && namers[p].metricNameForSeries(slices[p][q]) == Some(key.metric)
    && var (resources, namespaced) := namers[p].resourcesForSeries(slices[p][q]);
       IsKeyOf(key, resources, namespaced, key.metric)
  }

  /** No later series gives the key. */
  ghost predicate GivesLast(slices: seq<seq<Series>>, namers: seq<Namer>, p: int, q: int, key: CustomMetricInfo) {
    && Gives(slices, namers, p, q, key)
    && forall s, t :: Gives(slices, namers, s, t, key) ==> s < p || (s == p && t <= q)
  }

  /** The registered keys are exactly those that some series gives; each with the last series that does, and its namer. */
  ghost predicate Registers(slices: seq<seq<Series>>, namers: seq<Namer>, info: map<CustomMetricInfo, SeriesInfo>) {
    && (forall key :: key in info <==> exists p, q :: Gives(slices, namers, p, q, key))
    && (forall key, p, q :: GivesLast(slices, namers, p, q, key) ==>
          key in info && info[key] == SeriesInfo(slices[p][q].name, namers[p]))
  }

  /** The map after the entries of one series for its first k resources. */
  lemma {:induction false} ResourcesAdded(
    es: seq<(CustomMetricInfo, SeriesInfo)>, resources: seq<GroupResource>, namespaced: bool, name: string, info: SeriesInfo,
    k: nat, key: CustomMetricInfo)
    requires k <= |resources|
    ensures var m, m' := FromEntries(es), FromEntries(es + ResourceEntries(resources, namespaced, name, info, k));
      && (key in m' <==> key in m || IsKeyOf(key, resources[..k], namespaced, name))
      && (IsKeyOf(key, resources[..k], namespaced, name) ==> m'[key] == info)
      && (key in m && !IsKeyOf(key, resources[..k], namespaced, name) ==> m'[key] == m[key])
  {
    hide FromEntries;
    if k == 0 {
      assert es + [] == es;
    } else {
      ResourcesAdded(es, resources, namespaced, name, info, k - 1, key);
      var before := ResourceEntries(resources, namespaced, name, info, k - 1);
      var last := KeyFor(resources[k - 1], namespaced, name);
      FromAppend(es + before, last, info);
      assert es + (before + [(last, info)]) == (es + before) + [(last, info)];
      assert resources[..k] == resources[..k - 1] + [resources[k - 1]];
      assert key == last <==> key.resource == resources[k - 1] && IsKeyOf(key, [resources[k - 1]], namespaced, name);
    }
  }

  lemma SeriesAdded(es: seq<(CustomMetricInfo, SeriesInfo)>, r: UpdateResult, i: int, j: int, key: CustomMetricInfo)
    requires InStep(r) && 0 <= i < |r.series| && 0 <= j < |r.series[i]|
    ensures var m, m' := FromEntries(es), FromEntries(es + EntriesOf(r.namers[i], r.series[i][j]));
      var gives := Gives(r.series, r.namers, i, j, key);
      && (key in m' <==> key in m || gives)
      && (gives ==> m'[key] == SeriesInfo(r.series[i][j].name, r.namers[i]))
      && (key in m && !gives ==> m'[key] == m[key])
  {
    hide FromEntries, ResourceEntries, IsKeyOf;
    var namer, series := r.namers[i], r.series[i][j];
    var (resources, namespaced) := namer.resourcesForSeries(series);
    match namer.metricNameForSeries(series)
    case None =>
      assert es + [] == es;
    case Some(name) =>
      ResourcesAdded(es, resources, namespaced, name, SeriesInfo(series.name, namer), |resources|, key);
      assert resources[..|resources|] == resources;
      KeysAreNamed(key, resources, namespaced, name);
  }

  lemma KeysAreNamed(key: CustomMetricInfo, resources: seq<GroupResource>, namespaced: bool, name: string)
    ensures IsKeyOf(key, resources, namespaced, name) <==> key.metric == name && IsKeyOf(key, resources, namespaced, key.metric)
  {
  }

  /** What series gives what, for the two loops. */
  ghost function Giving(r: UpdateResult): (int, int, CustomMetricInfo) -> bool {
    (p, q, key) => Gives(r.series, r.namers, p, q, key)
  }

  ghost function Giver(r: UpdateResult): (int, int) -> SeriesInfo
    requires InStep(r)
  {
    (p, q) =>
      if 0 <= p < |r.series| && 0 <= q < |r.series[p]| then SeriesInfo(r.series[p][q].name, r.namers[p])
      else SeriesInfo("", Namer("", s => s, s => None, s => ([], false), g => None, (a, b, c, d, e) => None, (a, b, c) => None))
  }

  lemma {:induction false} RowHolds(r: UpdateResult, i: nat, j: nat)
    requires InStep(r) && i < |r.series| && j <= |r.series[i]|
    requires Holds(FromEntries(Entries(r, i)), Giving(r), Giver(r), i, 0)
    ensures Holds(FromEntries(Entries(r, i) + SeriesEntries(r.namers[i], r.series[i], j)), Giving(r), Giver(r), i, j)
  {
    hide FromEntries, Entries, EntriesOf, Holds, Gives;
    var es := Entries(r, i);
    if j == 0 {
      assert es + [] == es;
    } else {
      RowHolds(r, i, j - 1);
      var before := es + SeriesEntries(r.namers[i], r.series[i], j - 1);
      var more := EntriesOf(r.namers[i], r.series[i][j - 1]);
      assert es + (SeriesEntries(r.namers[i], r.series[i], j - 1) + more) == before + more;
      forall key
        ensures key in FromEntries(before + more) <==> key in FromEntries(before) || Giving(r)(i, j - 1, key)
        ensures Giving(r)(i, j - 1, key) ==> FromEntries(before + more)[key] == Giver(r)(i, j - 1)
        ensures key in FromEntries(before) && !Giving(r)(i, j - 1, key) ==>
          FromEntries(before + more)[key] == FromEntries(before)[key]
      {
        SeriesAdded(before, r, i, j - 1, key);
      }
      HoldsNext(FromEntries(before), FromEntries(before + more), Giving(r), Giver(r), i, j - 1);
    }
  }

  lemma {:induction false} RowsHold(r: UpdateResult, i: nat)
    requires InStep(r) && i <= |r.series|
    ensures Holds(FromEntries(Entries(r, i)), Giving(r), Giver(r), i, 0)
  {
    if i == 0 {
      HoldsFirst(Giving(r), Giver(r));
    } else {
      hide FromEntries, Holds, SeriesEntries;
      var n := |r.series[i - 1]|;
      RowsHold(r, i - 1);
      RowHolds(r, i - 1, n);
      HoldsNextRow(FromEntries(Entries(r, i)), Giving(r), Giver(r), i - 1, n);
    }
  }

  /** The index registers what the nested loops see, the last series winning. */
  lemma IndexRegisters(r: UpdateResult)
    requires InStep(r)
    ensures Registers(r.series, r.namers, Index(r))
  {
    hide Entries, FromEntries, Holds, IsKeyOf;
    var n := |r.series|;
    RowsHold(r, n);
    HoldsAll(Index(r), Giving(r), Giver(r), n);
    forall key ensures key in Index(r) <==> exists p, q :: Gives(r.series, r.namers, p, q, key) {
      assert forall p, q :: Giving(r)(p, q, key) == Gives(r.series, r.namers, p, q, key);
    }
    forall key, p, q | GivesLast(r.series, r.namers, p, q, key)
      ensures key in Index(r) && Index(r)[key] == SeriesInfo(r.series[p][q].name, r.namers[p])
    {
      assert IsLastTurn(Giving(r), key, p, q);
    }
  }

  class BasicSeriesRegistry {
    var info: map<CustomMetricInfo, SeriesInfo>
    var metrics: seq<CustomMetricInfo>
    const normalized: CustomMetricInfo -> Option<CustomMetricInfo>

    constructor (normalized: CustomMetricInfo -> Option<CustomMetricInfo>)
      ensures info == map[] && metrics == [] && Consistent()
      ensures this.normalized == normalized
    {
      this.normalized := normalized;
      info, metrics := map[], [];
    }

    ghost predicate Consistent()
      reads this
    {
      Lists(metrics, info.Keys)
    }

    /** Adds the entries of one series, resource by resource. */
    method AddSeries(newInfo: map<CustomMetricInfo, SeriesInfo>, namer: Namer, series: Series,
                     ghost before: seq<(CustomMetricInfo, SeriesInfo)>)
      returns (r: map<CustomMetricInfo, SeriesInfo>)
      requires newInfo == FromEntries(before)
      ensures r == FromEntries(before + EntriesOf(namer, series))
    {
      var (resources, namespaced) := namer.resourcesForSeries(series);
      var name := namer.metricNameForSeries(series);
      r := newInfo;
      assert before + [] == before;
      if name.None? {
        return;
      }
      var seriesInfo := SeriesInfo(series.name, namer);
      var k := 0;
      while k < |resources|
        invariant 0 <= k <= |resources|
        invariant r == FromEntries(before + ResourceEntries(resources, namespaced, name.value, seriesInfo, k))
      {
        var resource := resources[k];
        var key := CustomMetricInfo(resource, namespaced, name.value);
        if resource == NAMESPACES || resource == NODES || resource == PERSISTENT_VOLUMES {
          key := key.(namespaced := false);
        }
        ghost var added := ResourceEntries(resources, namespaced, name.value, seriesInfo, k);
        FromAppend(before + added, key, seriesInfo);
        assert (before + added) + [(key, seriesInfo)] == before + (added + [(key, seriesInfo)]);
        r := r[key := seriesInfo];
        k := k + 1;
      }
    }

    /** Adds the entries of one namer, series by series. */
    method AddNamer(newInfo: map<CustomMetricInfo, SeriesInfo>, namer: Namer, newSeries: seq<Series>,
                    ghost before: seq<(CustomMetricInfo, SeriesInfo)>)
      returns (r: map<CustomMetricInfo, SeriesInfo>)
      requires newInfo == FromEntries(before)
      ensures r == FromEntries(before + SeriesEntries(namer, newSeries, |newSeries|))
    {
      hide EntriesOf, FromEntries;
      r := newInfo;
      assert before + SeriesEntries(namer, newSeries, 0) == before;
      var j := 0;
      while j < |newSeries|
        invariant 0 <= j <= |newSeries|
        invariant r == FromEntries(before + SeriesEntries(namer, newSeries, j))
      {
        ghost var added := SeriesEntries(namer, newSeries, j);
        r := AddSeries(r, namer, newSeries[j], before + added);
        assert (before + added) + EntriesOf(namer, newSeries[j]) == before + (added + EntriesOf(namer, newSeries[j]));
        j := j + 1;
      }
    }

    /** Replaces table and list together; on a length mismatch nothing changes. */
    method SetSeries(newSeriesSlices: seq<seq<Series>>, namers: seq<Namer>) returns (ok: bool)
      modifies this`info, this`metrics
      ensures ok <==> |newSeriesSlices| == |namers|
      ensures !ok ==> info == old(info) && metrics == old(metrics)
      ensures ok ==> info == Index(UpdateResult(newSeriesSlices, namers)) && Consistent()
      ensures ok ==> Registers(newSeriesSlices, namers, info)
    {
      if |newSeriesSlices| != |namers| {
        return false;
      }
      hide SeriesEntries, Registers;
      ghost var r := UpdateResult(newSeriesSlices, namers);
      IndexRegisters(r);
      var newInfo: map<CustomMetricInfo, SeriesInfo> := map[];
      var i := 0;
      while i < |newSeriesSlices|
        invariant 0 <= i <= |newSeriesSlices|
        invariant newInfo == FromEntries(Entries(r, i))
      {
        newInfo := AddNamer(newInfo, namers[i], newSeriesSlices[i], Entries(r, i));
        i := i + 1;
      }
      var newMetrics := KeysInSomeOrder(newInfo);
      info := newInfo;
      metrics := newMetrics;
      return true;
    }

    /** A query is built for registered metrics only, by the namer that named the series. */
    method QueryForMetric(metricInfo: CustomMetricInfo, namespace: string, selector: string, names: seq<string>)
      returns (query: Option<Selector>)
      requires Consistent()
      ensures query.Some? ==>
        && names != [] && normalized(metricInfo).Some? && normalized(metricInfo).value in metrics
        && var key := normalized(metricInfo).value;
           query == info[key].namer.queryForSeries(info[key].seriesName, key.resource, namespace, selector, names)
      ensures query.None? ==>
        || names == [] || normalized(metricInfo).None? || normalized(metricInfo).value !in metrics
        || var key := normalized(metricInfo).value;
           info[key].namer.queryForSeries(info[key].seriesName, key.resource, namespace, selector, names) == None
    {
      if names == [] {
        return None;
      }
      var key := normalized(metricInfo);
      if key.None? || key.value !in info {
        return None;
      }
      var found := info[key.value];
      return found.namer.queryForSeries(found.seriesName, key.value.resource, namespace, selector, names);
    }

    /** Values by resource name: for each value of the resource's label, the last sample that has it. */
    method MatchValuesToNames(metricInfo: CustomMetricInfo, values: seq<Option<Sample>>)
      returns (matched: Option<map<string, real>>)
      ensures matched.Some? <==>
        && normalized(metricInfo).Some? && normalized(metricInfo).value in info
        && info[normalized(metricInfo).value].namer.labelForResource(normalized(metricInfo).value.resource).Some?
      ensures matched.Some? ==>
        var key := normalized(metricInfo).value;
        var byLabel := info[key].namer.labelForResource(key.resource).value;
        && matched.value == FromEntries(LabelledValues(values, byLabel, |values|))
        && ValuesByName(values, byLabel, matched.value)
    {
      var key := normalized(metricInfo);
      if key.None? || key.value !in info {
        return None;
      }
      var byLabel := info[key.value].namer.labelForResource(key.value.resource);
      if byLabel.None? {
        return None;
      }
      SamplesByName(values, byLabel.value);
      hide ValuesByName;
      var res: map<string, real> := map[];
      var i := 0;
      while i < |values|
        invariant 0 <= i <= |values|
        invariant res == FromEntries(LabelledValues(values, byLabel.value, i))
      {
        if values[i].Some? {
          var name := LabelOf(values[i].value, byLabel.value);
          FromAppend(LabelledValues(values, byLabel.value, i), name, values[i].value.value);
          res := res[name := values[i].value.value];
        }
        i := i + 1;
      }
      return Some(res);
    }
  }

  /** Go's map lookup: the empty string for an absent label. */
  function LabelOf(s: Sample, byLabel: string): string {
    if byLabel in s.labels then s.labels[byLabel] else ""
  }

  function LabelledValues(values: seq<Option<Sample>>, byLabel: string, n: nat): seq<(string, real)>
    requires n <= |values|
  {
    if n == 0 then []
    else
      var before := LabelledValues(values, byLabel, n - 1);
      match values[n - 1]
      case None => before
      case Some(s) => before + [(LabelOf(s, byLabel), s.value)]
  }

  /** Sample i is not nil and has this value, or for the empty string no value, for the label. */
  ghost predicate IsLabelled(values: seq<Option<Sample>>, byLabel: string, i: int, name: string) {
    && 0 <= i < |values| && values[i].Some?
    && if byLabel in values[i].value.labels then values[i].value.labels[byLabel] == name else name == ""
  }

  /** Each name that some sample has, with the value of the last one that has it. */
  ghost predicate ValuesByName(values: seq<Option<Sample>>, byLabel: string, matched: map<string, real>) {
    && (forall name :: name in matched <==> exists i :: IsLabelled(values, byLabel, i, name))
    && (forall name, i :: IsLabelled(values, byLabel, i, name) && (forall j :: IsLabelled(values, byLabel, j, name) ==> j <= i) ==>
          name in matched && matched[name] == values[i].value.value)
  }

  ghost function Labelling(values: seq<Option<Sample>>, byLabel: string): (int, int, string) -> bool {
    (p, i, name) => p == 0 && IsLabelled(values, byLabel, i, name)
  }

  ghost function ValueAt(values: seq<Option<Sample>>): (int, int) -> real {
    (p, i) => if 0 <= i < |values| && values[i].Some? then values[i].value.value else 0.0
  }

  lemma {:induction false} SamplesHold(values: seq<Option<Sample>>, byLabel: string, n: nat)
    requires n <= |values|
    ensures Holds(FromEntries(LabelledValues(values, byLabel, n)), Labelling(values, byLabel), ValueAt(values), 0, n)
  {
    if n == 0 {
      HoldsFirst(Labelling(values, byLabel), ValueAt(values));
    } else {
      hide FromEntries, Holds;
      SamplesHold(values, byLabel, n - 1);
      var before := LabelledValues(values, byLabel, n - 1);
      if values[n - 1].Some? {
        FromAppend(before, LabelOf(values[n - 1].value, byLabel), values[n - 1].value.value);
      }
      HoldsNext(FromEntries(before), FromEntries(LabelledValues(values, byLabel, n)), Labelling(values, byLabel),
                ValueAt(values), 0, n - 1);
    }
  }

  lemma SamplesByName(values: seq<Option<Sample>>, byLabel: string)
    ensures ValuesByName(values, byLabel, FromEntries(LabelledValues(values, byLabel, |values|)))
  {
    hide FromEntries, Holds, LabelledValues;
    var m, gives := FromEntries(LabelledValues(values, byLabel, |values|)), Labelling(values, byLabel);
    SamplesHold(values, byLabel, |values|);
    HoldsNextRow(m, gives, ValueAt(values), 0, |values|);
    HoldsAll(m, gives, ValueAt(values), 1);
    forall name ensures name in m <==> exists i :: IsLabelled(values, byLabel, i, name) {
      if i :| IsLabelled(values, byLabel, i, name) {
        assert gives(0, i, name);
      }
    }
    forall name, i | IsLabelled(values, byLabel, i, name) && (forall j :: IsLabelled(values, byLabel, j, name) ==> j <= i)
      ensures name in m && m[name] == values[i].value.value
    {
      assert IsLastTurn(gives, name, 0, i);
    }
  }

  /**
   updateMetrics of the custom provider: the same fan-out, feeding SetSeries. A failed query leaves the
   registry as it was, and the length mismatch of SetSeries cannot arise.
   */
  method UpdateMetrics(registry: BasicSeriesRegistry, namers: seq<Namer>, query: Selector -> Answer)
    returns (ok: bool)
    modifies registry`info, registry`metrics
    ensures ok <==> AskInTurn(namers, query).Success?
    ensures !ok ==> registry.info == old(registry.info) && registry.metrics == old(registry.metrics)
    ensures ok ==>
      && InStep(AskInTurn(namers, query).value) && registry.Consistent()
      && registry.info == Index(AskInTurn(namers, query).value)
      && Registers(AskInTurn(namers, query).value.series, AskInTurn(namers, query).value.namers, registry.info)
  {
    hide Registers;
    ListingStaysInStep(namers, query);
    match AskInTurn(namers, query) {
      case Failure(_) => return false;
      case Success(r) => ok := registry.SetSeries(r.series, r.namers);
    }
  }

  /** No registered metric of a namespace, a node or a persistent volume is namespaced. */
  lemma ClusterWideKeys(r: UpdateResult, key: CustomMetricInfo)
    requires InStep(r) && key in Index(r)
    ensures ClusterWide(key.resource) ==> !key.namespaced
  {
    var es := Entries(r, |r.series|);
    var i := KeysAreWritten(es, key);
    EntriesCluster(r, |r.series|);
    assert es[i].0 == key;
  }

  ghost predicate AllClusterWide(es: seq<(CustomMetricInfo, SeriesInfo)>) {
    forall i :: 0 <= i < |es| ==> (ClusterWide(es[i].0.resource) ==> !es[i].0.namespaced)
  }

  lemma {:induction false} ResourceEntriesCluster(
    resources: seq<GroupResource>, namespaced: bool, name: string, info: SeriesInfo, k: nat)
    requires k <= |resources|
    ensures AllClusterWide(ResourceEntries(resources, namespaced, name, info, k))
  {
    if k > 0 {
      ResourceEntriesCluster(resources, namespaced, name, info, k - 1);
    }
  }

  lemma {:induction false} SeriesEntriesCluster(namer: Namer, series: seq<Series>, j: nat)
    requires j <= |series|
    ensures AllClusterWide(SeriesEntries(namer, series, j))
  {
    if j > 0 {
      SeriesEntriesCluster(namer, series, j - 1);
      var (resources, namespaced) := namer.resourcesForSeries(series[j - 1]);
      var name := namer.metricNameForSeries(series[j - 1]);
      if name.Some? {
        ResourceEntriesCluster(
          resources, namespaced, name.value, SeriesInfo(series[j - 1].name, namer), |resources|);
      }
    }
  }

  lemma {:induction false} EntriesCluster(r: UpdateResult, i: nat)
    requires InStep(r) && i <= |r.series|
    ensures AllClusterWide(Entries(r, i))
  {
    if i > 0 {
      EntriesCluster(r, i - 1);
      SeriesEntriesCluster(r.namers[i - 1], r.series[i - 1], |r.series[i - 1]|);
    }
  }
}
