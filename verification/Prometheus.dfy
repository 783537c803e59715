/**
 What the metric providers get from Prometheus and from the naming library. Both are arbitrary but
 fixed functions here.
 */
module Prometheus {
  import opened Wrappers

  type Selector = string

  datatype Series = Series(name: string, labels: map<string, string>)

  /** The answer to one series query; Answered(None) is a nil slice without an error. */
  datatype Answer = Failed | Answered(series: Option<seq<Series>>)

  datatype GroupResource = GroupResource(group: string, resource: string)

  /** A configured rule: which series to ask for, which to keep, and what they are called. */
  datatype Namer = Namer(
    selector: Selector,
    filterSeries: seq<Series> -> seq<Series>,
    metricNameForSeries: Series -> Option<string>,
    resourcesForSeries: Series -> (seq<GroupResource>, bool),
    labelForResource: GroupResource -> Option<string>,
    queryForSeries: (string, GroupResource, string, string, seq<string>) -> Option<Selector>,
    queryForExternalSeries: (string, string, string) -> Option<Selector>)

  /** Where a metric's values come from: the series' name and the namer that named it. */
  datatype SeriesInfo = SeriesInfo(seriesName: string, namer: Namer)

  /** The kept series of each listed namer, in step with the namers. */
  datatype UpdateResult = UpdateResult(series: seq<seq<Series>>, namers: seq<Namer>)

  ghost predicate InStep(r: UpdateResult) {
    |r.series| == |r.namers|
  }
}
