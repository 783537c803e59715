/**
 The registry of external metrics and the periodic lister that feeds it
 (external_series_registry.go, periodic_metric_lister.go).
 */
module ExternalRegistry {
  import opened Wrappers
  import opened Prometheus
  import opened LastWriter
  import opened NestedLoops
  import opened FanOut

  /** The metrics named by a namer's first j series; series without a name are skipped. */
  function NamedSeries(namer: Namer, series: seq<Series>, j: nat): seq<(string, SeriesInfo)>
    requires j <= |series|
  {
    if j == 0 then []
    else
      var before := NamedSeries(namer, series, j - 1);
      match namer.metricNameForSeries(series[j - 1])
      case None => before
      case Some(name) => before + [(name, SeriesInfo(series[j - 1].name, namer))]
  }

  /** All named metrics of the first i namers, in discovery order. */
  function NamedMetrics(r: UpdateResult, i: nat): seq<(string, SeriesInfo)>
    requires i <= |r.series| && i <= |r.namers|
  {
    if i == 0 then []
    else NamedMetrics(r, i - 1) + NamedSeries(r.namers[i - 1], r.series[i - 1], |r.series[i - 1]|)
  }

  /** The lookup table of a listing: the last series of a name wins. */
  function Index(r: UpdateResult): map<string, SeriesInfo>
    requires InStep(r)
  {
    FromEntries(NamedMetrics(r, |r.series|))
  }

  // ---------------------------------------------------------------------------------------
  // What the index holds, in terms of namers and series
  // ---------------------------------------------------------------------------------------

  /** Series q of namer p is named like this. */
  ghost predicate Names(r: UpdateResult, p: int, q: int, name: string) {
    && 0 <= p < |r.series| && p < |r.namers| && 0 <= q < |r.series[p]|
    && r.namers[p].metricNameForSeries(r.series[p][q]) == Some(name)
  }

  /** No later series has the name. */
  ghost predicate NamesLast(r: UpdateResult, p: int, q: int, name: string) {
    Names(r, p, q, name) && forall s, t :: Names(r, s, t, name) ==> s < p || (s == p && t <= q)
  }

  /** The metrics are exactly the names of series, each with the last series that has it, and its namer. */
  ghost predicate HoldsNamed(r: UpdateResult, info: map<string, SeriesInfo>) {
    && (forall name :: name in info <==> exists p, q :: Names(r, p, q, name))
    && (forall name, p, q :: NamesLast(r, p, q, name) ==>
          name in info && info[name] == SeriesInfo(r.series[p][q].name, r.namers[p]))
  }

  ghost function Naming(r: UpdateResult): (int, int, string) -> bool {
    (p, q, name) => Names(r, p, q, name)
  }

  ghost function Named(r: UpdateResult): (int, int) -> SeriesInfo
    requires InStep(r)
  {
    (p, q) =>
      if 0 <= p < |r.series| && 0 <= q < |r.series[p]| then SeriesInfo(r.series[p][q].name, r.namers[p])
      else SeriesInfo("", Namer("", s => s, s => None, s => ([], false), g => None, (a, b, c, d, e) => None, (a, b, c) => None))
  }

  lemma {:induction false} RowHolds(r: UpdateResult, i: nat, j: nat)
    requires InStep(r) && i < |r.series| && j <= |r.series[i]|
    requires Holds(FromEntries(NamedMetrics(r, i)), Naming(r), Named(r), i, 0)
    ensures Holds(FromEntries(NamedMetrics(r, i) + NamedSeries(r.namers[i], r.series[i], j)), Naming(r), Named(r), i, j)
  {
    hide FromEntries, NamedMetrics, Holds;
    var es := NamedMetrics(r, i);
    if j == 0 {
      assert es + [] == es;
    } else {
      RowHolds(r, i, j - 1);
      var before := NamedSeries(r.namers[i], r.series[i], j - 1);
      var all := NamedSeries(r.namers[i], r.series[i], j);
      match r.namers[i].metricNameForSeries(r.series[i][j - 1]) {
        case None =>
        case Some(name) =>
          var info := SeriesInfo(r.series[i][j - 1].name, r.namers[i]);
          FromAppend(es + before, name, info);
          assert es + all == (es + before) + [(name, info)];
      }
      HoldsNext(FromEntries(es + before), FromEntries(es + all), Naming(r), Named(r), i, j - 1);
    }
  }

  lemma {:induction false} RowsHold(r: UpdateResult, i: nat)
    requires InStep(r) && i <= |r.series|
    ensures Holds(FromEntries(NamedMetrics(r, i)), Naming(r), Named(r), i, 0)
  {
    if i == 0 {
      HoldsFirst(Naming(r), Named(r));
    } else {
      hide FromEntries, Holds, NamedSeries;
      var n := |r.series[i - 1]|;
      RowsHold(r, i - 1);
      RowHolds(r, i - 1, n);
      HoldsNextRow(FromEntries(NamedMetrics(r, i)), Naming(r), Named(r), i - 1, n);
    }
  }

  lemma IndexHoldsNamed(r: UpdateResult)
    requires InStep(r)
    ensures HoldsNamed(r, Index(r))
  {
    hide NamedMetrics, FromEntries, Holds;
    RowsHold(r, |r.series|);
    HoldsAll(Index(r), Naming(r), Named(r), |r.series|);
    forall name ensures name in Index(r) <==> exists p, q :: Names(r, p, q, name) {
      assert forall p, q :: Naming(r)(p, q, name) == Names(r, p, q, name);
    }
    forall name, p, q | NamesLast(r, p, q, name)
      ensures name in Index(r) && Index(r)[name] == SeriesInfo(r.series[p][q].name, r.namers[p])
    {
      assert IsLastTurn(Naming(r), name, p, q);
    }
  }

  class ExternalSeriesRegistry {
    var metrics: seq<string>
    var metricsInfo: map<string, SeriesInfo>

    constructor ()
      ensures metrics == [] && metricsInfo == map[] && Consistent()
    {
      metrics, metricsInfo := [], map[];
    }

    /** The list and the lookup table name the same metrics, the list each once. */
    ghost predicate Consistent()
      reads this
    {
      Lists(metrics, metricsInfo.Keys)
    }

    /** Replaces list and table together. A length mismatch is fatal and changes nothing. */
    method FilterAndStoreMetrics(result: UpdateResult) returns (fatal: bool)
      modifies this
      ensures fatal <==> !InStep(result)
      ensures fatal ==> metrics == old(metrics) && metricsInfo == old(metricsInfo)
      ensures !fatal ==> metricsInfo == Index(result) && Consistent()
      ensures !fatal ==> HoldsNamed(result, metricsInfo)
    {
      hide HoldsNamed;
      if |result.series| != |result.namers| {
        return true;
      }
      IndexHoldsNamed(result);
      var rawMetricsCache: map<string, SeriesInfo> := map[];
      var i := 0;
      while i < |result.series|
        invariant 0 <= i <= |result.series|
        invariant rawMetricsCache == FromEntries(NamedMetrics(result, i))
      {
        var namer, newSeries := result.namers[i], result.series[i];
        ghost var before := NamedMetrics(result, i);
        assert before + NamedSeries(namer, newSeries, 0) == before;
        var j := 0;
        while j < |newSeries|
          invariant 0 <= j <= |newSeries|
          invariant rawMetricsCache == FromEntries(before + NamedSeries(namer, newSeries, j))
        {
          match namer.metricNameForSeries(newSeries[j]) {
            case None =>
            case Some(name) =>
              var info := SeriesInfo(newSeries[j].name, namer);
              ghost var named := NamedSeries(namer, newSeries, j);
              FromAppend(before + named, name, info);
              assert (before + named) + [(name, info)] == before + (named + [(name, info)]);
              rawMetricsCache := rawMetricsCache[name := info];
          }
          j := j + 1;
        }
        i := i + 1;
      }
      metrics := KeysInSomeOrder(rawMetricsCache);
      metricsInfo := rawMetricsCache;
      return false;
    }

    /** A metric is found exactly when it is listed, and is queried through its own namer. */
    method QueryForMetric(namespace: string, metricName: string, metricSelector: string)
      returns (query: Option<Selector>, found: bool)
      requires Consistent()
      ensures found <==> metricName in metrics
      ensures !found ==> query == None
      ensures found ==>
        var info := metricsInfo[metricName];
        query == info.namer.queryForExternalSeries(info.seriesName, namespace, metricSelector)
    {
      if metricName !in metricsInfo {
        return None, false;
      }
      var info := metricsInfo[metricName];
      return info.namer.queryForExternalSeries(info.seriesName, namespace, metricSelector), true;
    }
  }

  /** The listing in force after a number of updates: that of the last one that succeeded. */
  function MostRecent(first: UpdateResult, namers: seq<Namer>, ticks: seq<Selector -> Answer>): UpdateResult {
    if ticks == [] then first
    else
      match AskInTurn(namers, ticks[|ticks| - 1])
      case Success(r) => r
      case Failure(_) => MostRecent(first, namers, ticks[..|ticks| - 1])
  }

  class PeriodicMetricLister {
    var mostRecentResult: UpdateResult
    var callbacks: seq<ExternalSeriesRegistry?>

    constructor ()
      ensures mostRecentResult == UpdateResult([], []) && callbacks == [] && Agreement()
    {
      mostRecentResult, callbacks := UpdateResult([], []), [];
    }

    /** Every registered registry holds the index built from the most recent listing. */
    ghost predicate Agreement()
      reads this, set r: ExternalSeriesRegistry | r in callbacks
    {
      && InStep(mostRecentResult)
      && forall r: ExternalSeriesRegistry :: r in callbacks ==>
           r.Consistent() && r.metricsInfo == Index(mostRecentResult)
    }

    method AddNotificationReceiver(callback: ExternalSeriesRegistry?)
      modifies this`callbacks
      ensures callbacks == old(callbacks) + [callback]
    {
      callbacks := callbacks + [callback];
    }

    /** Hands the most recent listing to every listener that is not nil; stops at a fatal error. */
    method NotifyListeners() returns (fatal: bool)
      modifies set r: ExternalSeriesRegistry | r in callbacks
      ensures InStep(mostRecentResult) ==> !fatal && Agreement()
    {
      var i := 0;
      while i < |callbacks|
        invariant 0 <= i <= |callbacks|
        invariant InStep(mostRecentResult) ==>
          forall r: ExternalSeriesRegistry :: r in callbacks[..i] ==>
            r.Consistent() && r.metricsInfo == Index(mostRecentResult)
      {
        var listener := callbacks[i];
        assert callbacks[..i + 1] == callbacks[..i] + [listener];
        if listener != null {
          fatal := listener.FilterAndStoreMetrics(mostRecentResult);
          if fatal {
            return;
          }
        }
        i := i + 1;
      }
      assert callbacks[..i] == callbacks;
      return false;
    }

    /** updateMetrics, with the answer of the wrapped lister as its argument. */
    method UpdateMetrics(answer: Result<UpdateResult, Selector>) returns (failed: bool, fatal: bool)
      modifies this`mostRecentResult, set r: ExternalSeriesRegistry | r in callbacks
      ensures failed <==> answer.Failure?
      ensures failed ==> !fatal && mostRecentResult == old(mostRecentResult)
      ensures failed ==> forall r: ExternalSeriesRegistry :: r in callbacks ==>
        r.metrics == old(r.metrics) && r.metricsInfo == old(r.metricsInfo)
      ensures !failed ==> mostRecentResult == answer.value
      ensures !failed && InStep(answer.value) ==> !fatal && Agreement()
    {
      if answer.Failure? {
        return true, false;
      }
      mostRecentResult := answer.value;
      fatal := NotifyListeners();
      failed := false;
    }

    /**
     RunUntil over any number of ticks, each with the answers Prometheus gives at that time. Whatever
     succeeds or fails, the fatal error is not reached, and every registry that agreed at the start
     holds the index of the last successful listing in the end.
     */
    method RunUntil(namers: seq<Namer>, ticks: seq<Selector -> Answer>) returns (fatal: bool)
      requires Agreement()
      modifies this`mostRecentResult, set r: ExternalSeriesRegistry | r in callbacks
      ensures !fatal && Agreement()
      ensures mostRecentResult == MostRecent(old(mostRecentResult), namers, ticks)
    {
      ghost var first := mostRecentResult;
      var i := 0;
      while i < |ticks|
        invariant 0 <= i <= |ticks|
        invariant Agreement()
        invariant mostRecentResult == MostRecent(first, namers, ticks[..i])
      {
        ListingStaysInStep(namers, ticks[i]);
        assert ticks[..i + 1][..i] == ticks[..i];
        var failed;
        failed, fatal := UpdateMetrics(AskInTurn(namers, ticks[i]));
        if fatal {
          return;
        }
        i := i + 1;
      }
      assert ticks[..i] == ticks;
      return false;
    }
  }

  /** A new registry registered with a new lister: list and table agree through every run. */
  method RegisterAndRun(namers: seq<Namer>, ticks: seq<Selector -> Answer>)
    returns (registry: ExternalSeriesRegistry, fatal: bool)
    ensures !fatal && registry.Consistent()
    ensures
      var r := MostRecent(UpdateResult([], []), namers, ticks);
      InStep(r) && registry.metricsInfo == Index(r) && HoldsNamed(r, registry.metricsInfo)
  {
    hide HoldsNamed;
    var lister := new PeriodicMetricLister();
    registry := new ExternalSeriesRegistry();
    lister.AddNotificationReceiver(registry);
    assert Index(lister.mostRecentResult) == map[];
    fatal := lister.RunUntil(namers, ticks);
    IndexHoldsNamed(lister.mostRecentResult);
  }

  /** A metric's entry comes from the last series that bears its name, in discovery order. */
  lemma IndexHoldsLastSeries(r: UpdateResult, i: nat)
    requires InStep(r)
    requires IsLast(NamedMetrics(r, |r.series|), i)
    ensures
      var (name, info) := NamedMetrics(r, |r.series|)[i];
      && name in Index(r) && Index(r)[name] == info
      && exists p, q :: 0 <= p < |r.series| && 0 <= q < |r.series[p]|
           && r.namers[p].metricNameForSeries(r.series[p][q]) == Some(name)
           && info == SeriesInfo(r.series[p][q].name, r.namers[p])
  {
    LastEntryWins(NamedMetrics(r, |r.series|), i);
    var p, q := EntryOrigin(r, |r.series|, i);
  }

  lemma {:induction false} EntryOrigin(r: UpdateResult, n: nat, i: nat) returns (p: nat, q: nat)
    requires InStep(r) && n <= |r.series| && i < |NamedMetrics(r, n)|
    ensures p < n && q < |r.series[p]|
    ensures
      var (name, info) := NamedMetrics(r, n)[i];
      && r.namers[p].metricNameForSeries(r.series[p][q]) == Some(name)
      && info == SeriesInfo(r.series[p][q].name, r.namers[p])
  {
    var before := NamedMetrics(r, n - 1);
    if i < |before| {
      p, q := EntryOrigin(r, n - 1, i);
    } else {
      p := n - 1;
      q := SeriesOrigin(r.namers[p], r.series[p], |r.series[p]|, i - |before|);
    }
  }

  lemma {:induction false} SeriesOrigin(namer: Namer, series: seq<Series>, n: nat, i: nat) returns (q: nat)
    requires n <= |series| && i < |NamedSeries(namer, series, n)|
    ensures q < n
    ensures
      var (name, info) := NamedSeries(namer, series, n)[i];
      namer.metricNameForSeries(series[q]) == Some(name) && info == SeriesInfo(series[q].name, namer)
  {
    if i < |NamedSeries(namer, series, n - 1)| {
      q := SeriesOrigin(namer, series, n - 1, i);
    } else {
      q := n - 1;
    }
  }
}
