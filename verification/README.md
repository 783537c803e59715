# Metrics discovery, cost allocation and windows of alibaba-cloud-metrics-adapter

A Dafny model of the parts of the adapter that decide something themselves: how metrics are
discovered in parallel and kept in registries, how the cost of a cluster is allocated to pods and
regrouped, how durations, windows and filters are read from text, and how a range is cut into steps.
`dafny verify dfyconfig.toml` checks the whole project.

The modules follow the program:

| files | what they model |
|---|---|
| `FanOut`, `FanOutProofs` | the parallel discovery of series: goroutines and two buffered channels as a state machine in which any enabled channel operation may come next; theorems about every interleaving |
| `ExternalRegistry`, `CustomRegistry`, `LastWriter`, `NestedLoops`, `Prometheus` | the two registries and the periodic lister, as classes; tables filled by loops in which the last writer wins |
| `Allocations`, `AllocationProofs`, `GroupMembers`, `Sums` | allocations as heap objects that sets refer to, the regrouping of a set, which entries make up which group, and the order of the map loops |
| `CostComputation`, `Conservation`, `NodeViews`, `RequestMeaning` | pricing the pods of a window through shared allocation objects, rescaling to the bill, distributing idle cost; conservation of money in every mode; what each parameter means for the result |
| `CostManager`, `RangeConservation` | the preparation of a filter in place, the loop over a range, and conservation from the metrics to the response |
| `Ranges`, `BillingWindows` | the steps of a range and the interval a billing query covers for each |
| `Numbers`, `Durations`, `DurationUnits`, `DurationStrings` | the duration parser on wrapping 64-bit arithmetic, its units, and the printer |
| `Calendar`, `Windows`, `WindowTexts` | Gregorian dates (RFC 3339, section 5.7 and Appendices B and C), the named windows in a fixed zone, and those written with numbers |
| `GoStrings`, `Filters`, `FilterRecovery`, `FilterErrors` | the string functions of Go that are used, the filter parser, writing a filter as text, and texts that are rejected |

How the source is rendered:

* `float64` figures of money and usage are real numbers. A division by zero, after which the code goes
  on with NaN or infinite figures, is an outcome of its own (`NotFinite`, `NoNumber`), with the exact
  condition under which it occurs.
* A time is a number of nanoseconds and a fixed zone offset; `int64` wrap-around is written out with
  `Wrap` wherever the source can overflow.
* Ranging over a Go map is a loop that picks the remaining keys in an arbitrary order. Where the order
  shows in the result, the result is stated for every order.
* What Prometheus, Kubernetes and the naming library answer are arbitrary functions that do not change
  during one call; each tick of the periodic lister has its own.
* A fatal log entry is a Boolean result, an error return a `Result` or an outcome.
* A method that is proved against a specification function (`GoParseDuration` and `Parsed`,
  `ParseFilter` and `Meaning`, `AssembleResult` and `Assemble`) is connected by that function to what
  is promised about it: the grammar of durations, the recovery of written filters, the order of a listing.
  What a table or a grouping holds is stated a second time in terms of its inputs alone (`Registers`,
  `HoldsNamed`, `ListsInOrder`, `BelongsTo`).

Results that differ from what one might expect of the code:

* Local midnight is found exactly in zones whose offset is a whole number of minutes
  (`TodayIsLocalMidnight`); `OffsetError` gives the error in the others.
* "The past N days" starts on the right midnight exactly while N days fit in 64 bits of nanoseconds
  (`PastDaysAreWholeDays`).
* The step loop does not cut off its first step, so steps tile a window exactly if a step is not
  longer than the window (`StepsTileExactly`).
* The subtraction of node cost from idle entries reads figures that the same loop changes. One result
  for all map orders is obtained exactly if there is no idle entry of an idle entry of something that
  has cost (`OrderFreeExactly`); for node names that do not look like idle entries this is always so
  (`NodeViewOrderFree`).
* In the node view pods whose node has no entry in the cost list are counted on top of the amount due
  (`NodeViewTotal`).
* Sharing idle cost in a window without pods loses it (`SharingNeedsPods`).
* The loop over a range ends, unless a step fails, exactly if the step is positive or there is nothing to
  do (`LoopEndsExactly`). The allocation handler refuses steps below a day, but the estimated-cost handler
  passes any step on, and with "0", which is a valid duration, every turn computes the same empty step
  (`ZeroStepStays`).
* Preparing a filter once per step of a range can take it further each time if a replica set bears the
  name of another deployment (`StepsCanDiffer`). All steps use the same filter exactly if expanding the
  prepared names once more keeps them, which, when none of them stands for nothing, is exactly that each
  stands for itself (`SameForAllStepsExactly`).
* A step is billed for a midnight that is not its own exactly if, in whole seconds, it starts one second
  after that midnight and ends on a midnight (`StepQueriesItsMidnights`), as the window
  1586822401,1586995200 does (`OneSecondLate`). A range bills each of its midnights once, and no other,
  exactly if it has no such step (`EachMidnightOnce`). Fractions of a second, which a step such as
  24h0.5s has, are cut off before (`HalfSeconds`).
* Just before a whole second, rounding to `float64` may print the next second instead
  (`PrintParseRoundTrip`); whole seconds, which are all that the queries pass, are printed exactly.

## Model

| member | source | states |
|---|---|---|
| FanOut.AssembleResult | pkg/provider/prometheusProvider/external-provider/basic_metric_lister.go:136-156 | the reassembly loop lists exactly the cached namers, at increasing positions, each with its filtered series |
| FanOut.ListingStaysInStep | pkg/provider/prometheusProvider/external-provider/basic_metric_lister.go:138-156 | a listing has as many series lists as namers, so the registries' length check cannot fail on it |
| FanOutProofs.EveryRunIsSafe | pkg/provider/prometheusProvider/external-provider/basic_metric_lister.go:81-157 | at every point of every interleaving: nothing is sent on the closed error channel, no sender blocks, something can happen until the function returns, no selector is asked twice; an error names a selector whose query failed, and a listing holds, in the order of the namers, exactly those answered with series, each with the series it keeps, and then no query failed |
| FanOutProofs.InTurnListsInOrder | pkg/provider/prometheusProvider/external-provider/basic_metric_lister.go:138-156 | the sequential listing in terms of the namers and the answers alone |
| FanOutProofs.EveryRunEnds | pkg/provider/prometheusProvider/external-provider/basic_metric_lister.go:91-134 | every interleaving ends within 6n+2 steps; at rest the function has returned, all goroutines have finished and every selector was asked |
| FanOutProofs.SendersNeverBlock | pkg/provider/prometheusProvider/external-provider/basic_metric_lister.go:94-118 | the channel capacities cover every send, also of goroutines that outlive an early return |
| FanOutProofs.NoDeadlock | pkg/provider/prometheusProvider/external-provider/basic_metric_lister.go:91-134 | until the function returns some step is enabled |
| FanOutProofs.AssembleIsAskInTurn | pkg/provider/prometheusProvider/external-provider/basic_metric_lister.go:120-156 | reassembling a complete cache is the sequential answer |
| FanOutProofs.CacheComplete | pkg/provider/prometheusProvider/external-provider/basic_metric_lister.go:120-133 | after the last receive without an error the cache holds exactly the non-nil answers |
| FanOutProofs.InvKept | pkg/provider/prometheusProvider/external-provider/basic_metric_lister.go:91-134 | each step keeps the counting invariant over queued, owed and received messages, and the rest of the invariant |
| ExternalRegistry.ExternalSeriesRegistry.FilterAndStoreMetrics | pkg/provider/prometheusProvider/external-provider/external_series_registry.go:67-107 | list and lookup table are replaced together: a metric is there exactly if some series has its name, with the last such series and its namer; a length mismatch is fatal and changes nothing |
| ExternalRegistry.IndexHoldsNamed | pkg/provider/prometheusProvider/external-provider/external_series_registry.go:75-92 | the same of the index, over the pairs of namers and series |
| ExternalRegistry.ExternalSeriesRegistry.QueryForMetric | pkg/provider/prometheusProvider/external-provider/external_series_registry.go:116-129 | a metric is found exactly if it is listed, and is queried through the namer that named it |
| ExternalRegistry.PeriodicMetricLister.AddNotificationReceiver | pkg/provider/prometheusProvider/external-provider/periodic_metric_lister.go:46-48 | receivers are notified in the order of their registration; nothing else changes |
| ExternalRegistry.PeriodicMetricLister.NotifyListeners | pkg/provider/prometheusProvider/external-provider/periodic_metric_lister.go:94-100 | afterwards every registered registry holds the index of the most recent listing |
| ExternalRegistry.PeriodicMetricLister.UpdateMetrics | pkg/provider/prometheusProvider/external-provider/periodic_metric_lister.go:66-92 | a failed update changes neither the most recent listing nor any registry; a successful one brings all into agreement |
| ExternalRegistry.PeriodicMetricLister.RunUntil | pkg/provider/prometheusProvider/external-provider/periodic_metric_lister.go:58-64 | over any sequence of successful and failing updates the fatal error is not reached, and registries and the last successful listing agree |
| ExternalRegistry.RegisterAndRun | pkg/provider/prometheusProvider/external-provider/external_series_registry.go:56-65 | a registry registered at its construction holds the index of the last successful listing after every run |
| ExternalRegistry.IndexHoldsLastSeries | pkg/provider/prometheusProvider/external-provider/external_series_registry.go:75-92 | a metric's entry is that of the last series with its name in discovery order, under the namer that named it |
| CustomRegistry.BasicSeriesRegistry.SetSeries | pkg/provider/prometheusProvider/custom-provider/series_registry.go:82-133 | a key is registered exactly if some series gives it: its metric is the series' name, its resource one of the series', and it is namespaced if the series is and the resource is not cluster-wide; its value is that of the last such series; all keys are listed once; a length mismatch changes nothing |
| CustomRegistry.IndexRegisters | pkg/provider/prometheusProvider/custom-provider/series_registry.go:87-117 | the same of the index of the nested loops |
| CustomRegistry.BasicSeriesRegistry.QueryForMetric | pkg/provider/prometheusProvider/custom-provider/series_registry.go:142-170 | when a query is built, and that it is built by the metric's own namer |
| CustomRegistry.BasicSeriesRegistry.MatchValuesToNames | pkg/provider/prometheusProvider/custom-provider/series_registry.go:172-203 | values are matched exactly if the metric is known and its resource has a label; the last sample of a resource name counts |
| CustomRegistry.UpdateMetrics | pkg/provider/prometheusProvider/custom-provider/provider.go:240-299 | an update fails exactly if asking in turn fails, and then changes nothing; otherwise the registry is the index of the listing |
| CustomRegistry.ClusterWideKeys | pkg/provider/prometheusProvider/custom-provider/series_registry.go:105-108 | no key for namespaces, nodes or persistent volumes is namespaced |
| Durations.GoParseDuration | pkg/metrics/costv2/util/timeutil.go:125-222 | the loop on wrapping integers returns the specified value or error |
| Durations.ParseDenoted | pkg/metrics/costv2/util/timeutil.go:125-222 | the parser returns d exactly if the text fits the grammar and denotes d without overflow |
| Durations.ParsedIsExact | pkg/metrics/costv2/util/timeutil.go:125-222 | a text is accepted with value d if and only if some sequence of terms spells it whose sum fits in 63 bits and, signed, is d |
| DurationUnits.UnitsAre | pkg/metrics/costv2/util/timeutil.go:109-120 | n weeks are read as 7n days, and so on down to n nanoseconds, with all three spellings of microseconds; overflow included |
| DurationUnits.NoOtherUnits | pkg/metrics/costv2/util/timeutil.go:179-195 | a number with any other unit, or with none unless it is 0, is an error |
| DurationUnits.FractionsAre | pkg/metrics/costv2/util/timeutil.go:166-209 | digits after a period are that decimal fraction of the unit, in whole nanoseconds |
| DurationUnits.SignsAre | pkg/metrics/costv2/util/timeutil.go:130-137 | a plus sign changes nothing, a minus sign negates |
| DurationUnits.AmountsAdd | pkg/metrics/costv2/util/timeutil.go:210-214 | amounts one after the other are added up, or are an error if the sum does not fit |
| DurationUnits.OffsetIsNotRead | pkg/metrics/costv2/util/timeutil.go:95-106 | spaces around a duration and the word offset before it are not read |
| DurationUnits.ValidExactly | pkg/metrics/costv2/util/timeutil.go:321-329 | a valid duration string is a number followed by one of the units w, d, h, m and s, and nothing else is valid |
| Durations.LeadingInt | pkg/metrics/costv2/util/timeutil.go:270-288 | the leading digits are read exactly if their value is at most 2^63-1; no overflow is missed and none reported without cause |
| Durations.LeadingFraction | pkg/metrics/costv2/util/timeutil.go:293-319 | all digits are consumed; those before overflow are kept with a power of ten as the scale |
| Durations.FractionLoss | pkg/metrics/costv2/util/timeutil.go:166-209 | a term's value is below its exact rational value by a bounded amount, and never above it |
| Durations.Amount | pkg/metrics/costv2/util/timeutil.go:196-209 | the product and sum tests of one term catch every overflow and nothing else |
| Durations.ParseTerm | pkg/metrics/costv2/util/timeutil.go:147-215 | one turn of the loop reads one term and leaves the rest |
| Durations.ConsumeUnit | pkg/metrics/costv2/util/timeutil.go:179-191 | the unit is the text up to the next period or digit |
| Durations.ScanSound | pkg/metrics/costv2/util/timeutil.go:147-215 | the terms that are found spell the text |
| Durations.ScanOfText | pkg/metrics/costv2/util/timeutil.go:147-215 | every sequence of terms is found again in its text, so a text has one reading |
| DurationStrings.PrintParseRoundTrip | pkg/metrics/costv2/util/timeutil.go:44-106 | for any rounding of `float64`: a whole number of seconds is printed and parsed back exactly; another duration without its part below one second, or, only if it is within a few microseconds of it, as the next second; the text is valid exactly from one second on |
| DurationStrings.RoundedSeconds | pkg/metrics/costv2/util/timeutil.go:44-45 | the seconds of a duration are its whole seconds, or one more only just before the next |
| DurationStrings.LargestUnitChosen | pkg/metrics/costv2/util/timeutil.go:44-65 | the printed unit is the largest of days, hours, minutes and seconds that divides the duration |
| DurationStrings.ParseNumberAndUnit | pkg/metrics/costv2/util/timeutil.go:95-120 | a number and a unit are a valid duration string and denote that many units |
| Calendar.CivilRoundTrip | pkg/metrics/costv2/types/window.go:230 | the date of a day is a valid date whose day number is that day |
| Calendar.DateRoundTrip | pkg/metrics/costv2/types/window.go:230 | every valid date is the date of its day number |
| Calendar.CivilFollowsCalendar | pkg/metrics/costv2/types/window.go:243-249 | days count up through months and leap years from January 1 of year 1 |
| Calendar.WeekdayIsAppendixB | pkg/metrics/costv2/types/window.go:200 | the weekday of a day number is that of RFC 3339, Appendix B |
| Windows.OffsetError | pkg/metrics/costv2/types/window.go:165-174 | the start of today in any zone: local midnight plus the seconds by which the zone is off a whole minute |
| Windows.TodayIsLocalMidnight | pkg/metrics/costv2/types/window.go:165-179 | today starts on local midnight, whichever side of the UTC date line, if and only if the zone is a whole number of minutes |
| Windows.WeekStartsOnMonday | pkg/metrics/costv2/types/window.go:192-205 | the week starts on a local Monday midnight at most seven days ago |
| Windows.MonthStartsOnFirst | pkg/metrics/costv2/types/window.go:222-234 | the month starts on local midnight of the 1st of the current month |
| Windows.LastWindowsMeetCurrentOnes | pkg/metrics/costv2/types/window.go:170-251 | yesterday, lastweek and lastmonth end where today, week and month start, and span one day, seven days and the whole previous calendar month |
| Windows.PastDaysAreWholeDays | pkg/metrics/costv2/types/window.go:253-283 | the past N days start N-1 days before today's midnight if and only if N days fit in an int64, and are negative only for N = 0 |
| Windows.PastWeeksAreDays | pkg/metrics/costv2/types/window.go:263-281 | N weeks are 7N days, overflow included |
| Windows.PastWindowText | pkg/metrics/costv2/types/window.go:253-283 | a number and a unit are read as that window, a number beyond 64 bits as the largest one |
| WindowTexts.PastMinutesAndHours | pkg/metrics/costv2/types/window.go:253-283 | "Nm" and "Nh" end now and start that long before if and only if it fits in an int64 |
| WindowTexts.OffsetWindowText | pkg/metrics/costv2/types/window.go:285-321 | both ends of a window with an offset, an offset week being 24 weeks |
| WindowTexts.TimestampPairText | pkg/metrics/costv2/types/window.go:323-331 | two numbers are seconds since January 1, 1970 |
| Windows.SecondsKeepOrder | pkg/metrics/costv2/types/window.go:352-364 | cutting both ends to seconds keeps a window from becoming negative |
| Windows.MidnightsAreWholeSeconds | pkg/metrics/costv2/types/window.go:352-364 | cutting to seconds leaves local midnights where they are |
| Filters.ParseFilterParts | pkg/metrics/costv2/types/filter.go:79-88 | the text is cut before every occurrence of a prefix, replaced one prefix after the other |
| Filters.ParseValueList | pkg/metrics/costv2/types/filter.go:91-97 | the values between commas, without spaces and quotes around them |
| Filters.Filter.ApplyPart | pkg/metrics/costv2/types/filter.go:107-137 | a part changes the one component its key names, or is an error and changes nothing |
| Filters.Filter.NormalizeKinds | pkg/metrics/costv2/types/filter.go:139-159 | controller kinds are replaced in place by their canonical forms, up to the first that has none |
| Filters.KindsAreCanonical | pkg/metrics/costv2/types/filter.go:139-159 | every kind gets its canonical form, or the error names a kind that has none |
| FilterErrors.KindsAre | pkg/metrics/costv2/types/filter.go:139-159 | which kinds, in any case, have which canonical form |
| FilterErrors.KeysByBeginning | pkg/metrics/costv2/types/filter.go:119-130 | a key is known by its beginning |
| FilterErrors.SpacesAroundValues | pkg/metrics/costv2/types/filter.go:91-97 | spaces around a quoted value are not read |
| FilterErrors.SpacesAroundFields | pkg/metrics/costv2/types/filter.go:111-115 | spaces around a field are not read |
| FilterErrors.NoFieldIsAnError | pkg/metrics/costv2/types/filter.go:112-116 | a nonempty text without a field is an invalid format |
| FilterErrors.UnknownFieldIsAnError | pkg/metrics/costv2/types/filter.go:118-136 | a field whose key is none of the known ones is an unsupported key |
| Filters.ParseFilter | pkg/metrics/costv2/types/filter.go:100-162 | the parser returns a new filter with the text's meaning, or the first error |
| Filters.Filter.IsEmptyExceptCluster | pkg/metrics/costv2/types/filter.go:164-170 | true exactly of a filter that differs from the empty one at most in its clusters |
| FilterRecovery.WrittenIsRecovered | pkg/metrics/costv2/types/filter.go:79-162 | a filter written in the key:"a","b"+key:"c" syntax is parsed back with canonical kinds, or rejected if a kind has none |
| FilterRecovery.CanonicalIsRecovered | pkg/metrics/costv2/types/filter.go:100-162 | a filter with canonical kinds is parsed back as it is |
| FilterRecovery.OrderDoesNotMatter | pkg/metrics/costv2/types/filter.go:104-137 | writing the fields after the cluster in another order gives the same result |
| FilterRecovery.MarkedIs | pkg/metrics/costv2/types/filter.go:79-88 | in a written filter each replacement marks the beginnings of its own fields and nothing else |
| FilterRecovery.PartsAre | pkg/metrics/costv2/types/filter.go:79-88 | the parts of a written filter are its fields |
| FilterRecovery.ClauseIsRead | pkg/metrics/costv2/types/filter.go:107-137 | a written field is read as what it says |
| Allocations.Allocation.Add | pkg/metrics/costv2/types/allocation.go:143-151 | all seven figures are added, nothing else changes |
| Allocations.AllocationSet.Set | pkg/metrics/costv2/types/allocation.go:70-78 | the set refers to the allocation under its name, in place of an earlier one |
| Allocations.AllocationSet.GroupBy | pkg/metrics/costv2/types/allocation.go:89-152 | in any map order: one new allocation per key, whose seven figures are the exact sums of its members; the set and its allocations stay as they are |
| Allocations.AllocationSet.AggregateBy | pkg/metrics/costv2/types/allocation.go:80-168 | an empty set gives nothing, "pod" the set itself, an unsupported key an error, any other key a regrouped new set |
| Allocations.SubtractNode | pkg/metrics/costv2/types/allocation.go:155-164 | an idle entry loses the current cost and ratio of its node's entry, if there is one |
| Allocations.SubtractNodes | pkg/metrics/costv2/types/allocation.go:154-165 | the loop does so for all keys in some order |
| Allocations.AllocationSetRange.AggregateBy | pkg/metrics/costv2/types/allocation.go:184-197 | every set of the range is regrouped, or none if one cannot be |
| Allocations.AllocationSetRange.Append | pkg/metrics/costv2/types/allocation.go:201-203 | the set is added at the end |
| GroupMembers.GroupsAre | pkg/metrics/costv2/types/allocation.go:91-165 | for every aggregate, there is a group for exactly the keys some entry belongs to, and each figure is the sum over the entries that do: by namespace, kind and name of the controller, its kind, node, or label; without them unallocated; idle entries under their own names |
| GroupMembers.OneGroup | pkg/metrics/costv2/types/allocation.go:92-132 | every entry belongs to exactly one group |
| GroupMembers.SupportedAre | pkg/metrics/costv2/types/allocation.go:93-121 | which aggregates are supported |
| AllocationProofs.GroupingConserves | pkg/metrics/costv2/types/allocation.go:89-152 | regrouping conserves the sum of every figure |
| AllocationProofs.GroupingsAgree | pkg/metrics/costv2/types/allocation.go:89-152 | any two iteration orders give the same keys and figures |
| AllocationProofs.InOrderIsAtOnce | pkg/metrics/costv2/types/allocation.go:154-165 | without a costly chain of idle entries, subtracting in place in any order is subtracting the original figures at once |
| AllocationProofs.OrderFreeExactly | pkg/metrics/costv2/types/allocation.go:154-165 | all orders of the in-place subtraction agree if and only if there is no such chain |
| CostComputation.InitPodMap | pkg/metrics/costv2/cost_manager.go:248-286 | one pod per namespace and name, from the first record, with an allocation object of its own |
| CostComputation.PricePods | pkg/metrics/costv2/cost_manager.go:133-147 | every pod has its estimated cost and ratio, the totals are their sums, and the set refers to exactly the pods' own allocations |
| CostComputation.RepricePods | pkg/metrics/costv2/cost_manager.go:169-174 | a loop over the pods changes each price once, through the shared allocation, and sums up the new costs |
| CostComputation.PriceWindow | pkg/metrics/costv2/cost_manager.go:121-175 | estimated cost, or its ratio of the bill; an error exactly for an invalid target type |
| CostComputation.ShareIdle | pkg/metrics/costv2/cost_manager.go:183-195 | each pod gets its part of the idle cost, by weight or evenly |
| CostComputation.PlaceIdle | pkg/metrics/costv2/cost_manager.go:196-221 | what is not shared is recorded as one idle entry, or as one entry per node |
| CostComputation.ComputeWindow | pkg/metrics/costv2/cost_manager.go:90-225 | the returned set shows exactly the priced pods and the idle entries of its mode; exactly when parameters are rejected and when figures are not finite |
| RequestMeaning.WeightedMeansByWeight | pkg/metrics/costv2/cost_manager.go:186-188 | shareSplit "weighted": each pod has the same part of the amount due as of all pods' costs, and its ratio is of the amount due |
| RequestMeaning.EvenMeansEvenly | pkg/metrics/costv2/cost_manager.go:189-191 | shareSplit "even": pods differ after sharing by what they differed before |
| RequestMeaning.UnsharedPodsKeepTheirCost | pkg/metrics/costv2/cost_manager.go:133-175 | without sharing, with a filter or without idle cost, pods show their own cost and ratio |
| RequestMeaning.EntriesAre | pkg/metrics/costv2/cost_manager.go:177-222 | which entries the set has for which parameters |
| RequestMeaning.IdleEntriesSay | pkg/metrics/costv2/cost_manager.go:196-221 | an idle entry has the window, a cost and a ratio, and nothing else; the single one has what the pods leave over |
| RequestMeaning.PodKeepsItsRecord | pkg/metrics/costv2/cost_manager.go:248-286 | a pod's entry has the properties and usage of its first record, and the window |
| RequestMeaning.RejectedExactly | pkg/metrics/costv2/cost_manager.go:149-194 | for which parameters a request is rejected |
| RequestMeaning.NotFiniteExactly | pkg/metrics/costv2/cost_manager.go:183-208 | for which divisors figures are not finite |
| RequestMeaning.PodCostIs | pkg/metrics/costv2/cost_manager.go:133-175 | a pod's cost is its estimate, or the bill in proportion to it |
| RequestMeaning.EstimateIsNear | pkg/metrics/costv2/cost_manager.go:134-135 | an estimate is a whole number of thousandths within half a thousandth of CPU cost and memory cost times their weights |
| RequestMeaning.HalvesAwayFromZero | pkg/metrics/costv2/cost_manager.go:135 | halves are rounded away from zero |
| RequestMeaning.AmountsDue | pkg/metrics/costv2/cost_manager.go:149-168 | which amount is due for which API, target and cost type |
| RequestMeaning.FirstRecordCounts | pkg/metrics/costv2/cost_manager.go:248-252 | of several records of a pod the first counts |
| Conservation.SlashFreeNamesAreDistinct | pkg/metrics/costv2/cost_manager.go:273 | pods of namespaces without a slash have distinct allocation names |
| Conservation.WeightedSum | pkg/metrics/costv2/cost_manager.go:187-188 | costs after sharing by weight sum up to the amount due |
| Conservation.EvenSum | pkg/metrics/costv2/cost_manager.go:190-191 | costs after sharing evenly sum up to the amount due |
| Conservation.ComputedConserves | pkg/metrics/costv2/cost_manager.go:125-222 | with idle cost shown apart or shared, a window's costs sum up to the amount due and its ratios to one, for estimated and billed cost |
| Conservation.SharingNeedsPods | pkg/metrics/costv2/cost_manager.go:183-195 | without pods sharing conserves cost only if nothing is due, and never the ratio |
| NodeViews.AggregateConserves | pkg/metrics/costv2/types/allocation.go:80-168 | the same still holds after regrouping by any supported key |
| NodeViews.NodeViewOrderFree | pkg/metrics/costv2/types/allocation.go:154-165 | in the node view every order of the subtracting loop gives one result |
| NodeViews.IdleOfNode | pkg/metrics/costv2/cost_manager.go:199-210 | each node's idle entry is the node's part of the amount due less the cost of the pods on it, and likewise for ratios |
| NodeViews.NodeViewTotal | pkg/metrics/costv2/types/allocation.go:154-165 | the node view sums up to the amount due plus the cost of pods whose node has no cost entry |
| CostManager.CostManager.PreprocessFilter | pkg/metrics/costv2/cost_manager.go:758-799 | deployment names are replaced in place by the names of the replica sets they control; other components stay |
| CostManager.ExpandedNames | pkg/metrics/costv2/cost_manager.go:763-795 | a name is in the prepared filter if and only if it is a given name that no deployment bears, or a replica set controlled by a deployment of a given name |
| CostManager.PreparedOnce | pkg/metrics/costv2/cost_manager.go:758-799 | preparing a filter again changes nothing if and only if expanding the prepared names keeps them; when none of them stands for nothing, if and only if each stands for itself |
| CostManager.SameForAllStepsExactly | pkg/metrics/costv2/cost_manager.go:438-446 | the same conditions are exact for all steps of a range using one filter, although each rewrites it |
| CostManager.SameForAllSteps | pkg/metrics/costv2/cost_manager.go:438-446 | so it is whenever no deployment bears the name of a replica set it produced |
| CostManager.StepsCanDiffer | pkg/metrics/costv2/cost_manager.go:101 | a cluster in which two steps of one request use different names |
| CostManager.CostManager.ComputeAllocation | pkg/metrics/costv2/cost_manager.go:90-225 | the window is computed with the filter as it was just prepared |
| CostManager.RequestEndsExactly | pkg/metrics/costv2/cost_manager.go:438-453 | the loop of a request comes to an end if and only if the step is positive, the window is empty, or some turn meets an invalid parameter |
| CostManager.CostManager.GetRangeAllocation | pkg/metrics/costv2/cost_manager.go:425-465 | for every request whose loop ends: open and negative windows are refused; otherwise one computed and regrouped set per turn of the loop, or the error of the first step that fails, or an unsupported aggregate with something to regroup |
| RangeConservation.ClusterFilterStays | pkg/metrics/costv2/cost_manager.go:178 | a filter that is empty except for the cluster stays so in all steps |
| RangeConservation.ReturnedConserves | pkg/metrics/costv2/cost_manager.go:425-465 | each set of a response sums up to its step's amount due, and its ratios to one, for any aggregate |
| RangeConservation.ReturnedByNode | pkg/metrics/costv2/cost_manager.go:425-465 | the same for the node view with idle cost by node, entry by entry and in total |
| Ranges.LoopEndsExactly | pkg/metrics/costv2/cost_manager.go:438-453 | the loop state reaches the end if and only if the step is positive or the window is empty |
| Ranges.ZeroStepStays | pkg/metrics/costv2/cost_manager.go:653-659 | with step zero on a nonempty window every turn has the same empty step, and the loop never ends |
| Ranges.StepCount | pkg/metrics/costv2/cost_manager.go:438-453 | for any step: the loop takes n turns if and only if the window is empty and n is 0, or the step is positive and n is the duration divided by it, rounded up |
| Ranges.StepsAreStates | pkg/metrics/costv2/cost_manager.go:438-453 | the steps of a range are the states of its loop |
| Ranges.StepsTileExactly | pkg/metrics/costv2/cost_manager.go:438-453 | the steps are contiguous, disjoint and cover the window if and only if a step is not longer than the window |
| Ranges.StepSizes | pkg/metrics/costv2/cost_manager.go:438-453 | no step is longer than asked for, and all but the last are as long |
| Ranges.TileOf | pkg/metrics/costv2/cost_manager.go:438-453 | every moment of a tiled window lies in exactly one step |
| Ranges.StepQueriesItsMidnights | pkg/metrics/costv2/cost_metrics.go:118-123 | a step, written in whole seconds, is queried for exactly its own midnights if and only if it does not start one second after a midnight and end on one |
| Ranges.OneSecondLate | pkg/metrics/costv2/types/window.go:323-331 | a timestamp window that is billed for the midnight before it |
| Ranges.HalfSeconds | pkg/metrics/costv2/types/window.go:151-160 | of two steps that meet half a second after midnight the second one bills it |
| Ranges.ChainBilledOnceExactly | pkg/metrics/costv2/cost_metrics.go:236-247 | consecutive steps bill each midnight between their ends exactly once, and no other, if and only if none of them is such a step |
| Ranges.EachMidnightOnce | pkg/metrics/costv2/cost_metrics.go:118-123 | the same for the steps of any range with a positive step |
| Ranges.WholeDaysAreNotLate | pkg/metrics/costv2/cost_manager.go:511-522 | steps of whole days from a midnight on bill only their own midnights, wherever the range ends |
| BillingWindows.UsualStepsAreNotLate | pkg/metrics/costv2/cost_manager.go:511-522 | from a midnight on so do the steps of whole days and the default step, which is the window's duration |
| BillingWindows.PastDaysAreBilledOnce | pkg/metrics/costv2/cost_metrics.go:235-247 | the parsed window of the past N days bills each local midnight once under the same exact condition, which whole days and the default step meet |

## Left out

- HTTP handlers, CSV and JSON writing, client construction, credentials and flags: input and output.
- PromQL texts and the values behind them (`buildExternalQuery`, `GetLabelSelectorStr`): the metrics of a window and a filter are one arbitrary function; `labels.Parse` does not fail.
- CostComputation.InitPodMap: the metrics' records of a pod are merged into one record beforehand; items without a pod or namespace label, pod labels, provider identifiers, the lookup of a replica set's owner and metrics of pods that are not in the map are not modelled.
- CostComputation.ComputeWindow: for a zero divisor it says exactly when that happens, but nothing of the set that the code still returns, whose costs or ratios are then NaN or infinite.
- Rounding, NaN and infinity of `float64`: figures are real (only the printer of durations has a rounding, of which no more is used than that it keeps the order, integers and half a unit); where a divisor is zero the outcome says so instead of showing figures. `LeadingFraction` keeps its scale, a power of ten, as a real.
- A nil filter, on which the source's selector text would fail, does not occur; nil lists and empty lists of a filter are one.
- CostManager.CostManager.GetRangeAllocation: covers the requests whose loop ends, which `RequestEndsExactly` describes; of the others the model shows only that they do not end. Instants are unbounded integers.
- Ranges.Queried: a range query covers its duration up to and including its end; an empty written step queries nothing. `GetUTCTime` is not modelled, all is on the local clock.
- Windows.ParseWindowAt: the branch for RFC 3339 pairs is a parameter; zones with daylight saving time and the duration of open windows are not modelled. "X offset Yw" windows have the 24 weeks per unit that the code uses, not one.
- Strings are sequences of characters, not UTF-8 bytes; lower case is given for the characters whose lower case is an ASCII letter.
- Error texts and log entries, including `quote`, `ResolutionStringAndSeconds` and the number formatting of seconds.
- FilterRecovery.WrittenIsRecovered: values are free of quotes, colons, opening brackets and the separator, and those of lists of commas; label keys of colons, opening brackets and the separator; a first value of a list does not start with a space or a plus sign, nor a label's with a plus sign; there is at most one label with one value, as the syntax can express.
- The goroutine fan-out of the custom provider is the one of the external lister, line for line; `UpdateMetrics` uses its proved outcome.
- Locks: registries are swapped in one step, as the source does under its mutex.
- The cost package of version 1, the SLB, SLS, CMS and AHAS sources, the provider manager and the metric converter: single-branch dispatch and field copying.
