/**
 Metric discovery (basic_metric_lister.go and the same code in the custom provider): one goroutine
 per distinct selector, two buffered channels, a receiving loop that returns early on an error, a
 close, and the reassembly of the answers in namer order.

 The goroutines and the receiving function are a state machine whose steps are single channel
 operations; any enabled step may come next. The theorems quantify over every such interleaving.
 */
module FanOut {
  import opened Wrappers
  import opened Prometheus

  datatype Config = Config(namers: seq<Namer>, query: Selector -> Answer) {
    function Sel(j: nat): Selector
      requires j < |namers|
    {
      namers[j].selector
    }
  }

  /** How far the two sends owed for one namer have come. */
  datatype Stage = Unlaunched | Asking | SendingErr | SendingSeries | Finished

  datatype ErrMsg = NoError | QueryFailed(sel: Selector)

  datatype SeriesMsg = SeriesMsg(sel: Selector, series: Option<seq<Series>>)

  datatype Outcome = ListFailed(sel: Selector) | Listed(result: UpdateResult)

  /** The function's own position: the launching loop, the receiving loop, or returned. */
  datatype Main = Launching(next: nat) | AwaitingErr(got: nat) | AwaitingSeries(got: nat) | Returned(outcome: Outcome)

  datatype State = State(
    main: Main,
    stages: seq<Stage>,
    seen: set<Selector>,                  // selectors
    errs: seq<ErrMsg>,                    // the channel errs
    closed: bool,                         // close(errs) has run
    found: seq<SeriesMsg>,                // the channel selectorSeriesChan
    cache: map<Selector, seq<Series>>,    // seriesCacheByQuery
    asked: seq<Selector>,                 // the queries sent to Prometheus, in order
    panicked: bool)                       // a send on a closed channel

  /** A step of the function itself or of the goroutine launched for namer j. */
  datatype Actor = Main | Go(j: nat)

  function Init(c: Config): State {
    State(Launching(0), seq(|c.namers|, i => Unlaunched), {}, [], false, [], map[], [], false)
  }

  function SendErr(s: State, m: ErrMsg): State {
    if s.closed then s.(panicked := true) else s.(errs := s.errs + [m])
  }

  /** Both channels have room for one message per namer. */
  predicate ErrsHasRoom(c: Config, s: State) {
    s.closed || |s.errs| < |c.namers|
  }

  predicate FoundHasRoom(c: Config, s: State) {
    |s.found| < |c.namers|
  }

  /** The goroutine of namer j has been launched and has not finished. */
  predicate Running(c: Config, s: State, j: nat) {
    && j < |c.namers| == |s.stages|
    && s.main != Launching(j)
    && s.stages[j] in {Asking, SendingErr, SendingSeries}
  }

  predicate Enabled(c: Config, s: State, a: Actor) {
    && |s.stages| == |c.namers| && !s.panicked
    && match a
       case Go(j) =>
         && Running(c, s, j)
         && (s.stages[j] == SendingErr ==> ErrsHasRoom(c, s))
         && (s.stages[j] == SendingSeries ==> FoundHasRoom(c, s))
       case Main =>
         match s.main
         case Launching(i) =>
           && i <= |c.namers|
           && (i < |c.namers| && s.stages[i] == SendingErr ==> ErrsHasRoom(c, s))
           && (i < |c.namers| && s.stages[i] == SendingSeries ==> FoundHasRoom(c, s))
         case AwaitingErr(k) => k >= |c.namers| || s.errs != []
         case AwaitingSeries(k) => s.found != []
         case Returned(_) => false
  }

  /** One turn of the launching loop; a selector seen before is answered by the loop itself. */
  function LaunchStep(c: Config, s: State, i: nat): State
    requires |s.stages| == |c.namers| && i <= |c.namers|
  {
    if i == |c.namers| then s.(main := AwaitingErr(0))
    else
      match s.stages[i]
      case Unlaunched =>
        if c.Sel(i) in s.seen then s.(stages := s.stages[i := SendingErr])
        else s.(seen := s.seen + {c.Sel(i)}, stages := s.stages[i := Asking], main := Launching(i + 1))
      case SendingErr => SendErr(s, NoError).(stages := s.stages[i := SendingSeries])
      case _ =>
        s.(found := s.found + [SeriesMsg("", None)], stages := s.stages[i := Finished], main := Launching(i + 1))
  }

  function GoStep(c: Config, s: State, j: nat): State
    requires j < |s.stages| == |c.namers|
  {
    match s.stages[j]
    case Asking => s.(asked := s.asked + [c.Sel(j)], stages := s.stages[j := SendingErr])
    case SendingErr =>
      if c.query(c.Sel(j)).Failed?
      then SendErr(s, QueryFailed(c.Sel(j))).(stages := s.stages[j := Finished])
      else SendErr(s, NoError).(stages := s.stages[j := SendingSeries])
    case _ =>
      var series := match c.query(c.Sel(j)) case Failed => None case Answered(x) => x;
      s.(found := s.found + [SeriesMsg(c.Sel(j), series)], stages := s.stages[j := Finished])
  }

  function ReceiveErr(c: Config, s: State, k: nat): State
    requires k >= |c.namers| || s.errs != []
  {
    if k >= |c.namers| then s.(closed := true, main := Returned(Listed(Assemble(c.namers, s.cache))))
    else
      var rest := s.(errs := s.errs[1..]);
      match s.errs[0]
      case QueryFailed(sel) => rest.(main := Returned(ListFailed(sel)))
      case NoError => rest.(main := AwaitingSeries(k))
  }

  function ReceiveSeries(s: State, k: nat): State
    requires s.found != []
  {
    var m := s.found[0];
    var cache := if m.series.Some? then s.cache[m.sel := m.series.value] else s.cache;
    s.(found := s.found[1..], cache := cache, main := AwaitingErr(k + 1))
  }

  function Step(c: Config, s: State, a: Actor): State
    requires Enabled(c, s, a)
  {
    match a
    case Go(j) => GoStep(c, s, j)
    case Main =>
      match s.main
      case Launching(i) => LaunchStep(c, s, i)
      case AwaitingErr(k) => ReceiveErr(c, s, k)
      case AwaitingSeries(k) => ReceiveSeries(s, k)
  }

  /** The schedule takes from to to: every step is enabled when it is taken. */
  ghost predicate Run(c: Config, from: State, schedule: seq<Actor>, to: State)
    decreases |schedule|
  {
    if schedule == [] then from == to
    else Enabled(c, from, schedule[0]) && Run(c, Step(c, from, schedule[0]), schedule[1..], to)
  }

  // ---------------------------------------------------------------------------------------
  // Reassembly
  // ---------------------------------------------------------------------------------------

  function Prepend(series: seq<Series>, namer: Namer, rest: UpdateResult): UpdateResult {
    UpdateResult([series] + rest.series, [namer] + rest.namers)
  }

  /** The listed namers in order: those whose selector is in the cache, with their kept series. */
  function Assemble(namers: seq<Namer>, cache: map<Selector, seq<Series>>): UpdateResult {
    if namers == [] then UpdateResult([], [])
    else
      var rest := Assemble(namers[1..], cache);
      if namers[0].selector in cache
      then Prepend(namers[0].filterSeries(cache[namers[0].selector]), namers[0], rest)
      else rest
  }

  /** The namer at position p, with what it keeps of the series found for its selector. */
  ghost predicate IsPick(namers: seq<Namer>, found: Selector -> Option<seq<Series>>, p: nat, namer: Namer, kept: seq<Series>) {
    && p < |namers| && namer == namers[p]
    && found(namer.selector).Some? && kept == namer.filterSeries(found(namer.selector).value)
  }

  predicate Increasing(at: seq<nat>) {
    forall i, j :: 0 <= i < j < |at| ==> at[i] < at[j]
  }

  ghost predicate Covers(namers: seq<Namer>, found: Selector -> Option<seq<Series>>, at: seq<nat>) {
    forall j: nat :: j < |namers| && found(namers[j].selector).Some? ==> j in at
  }

  /** The listed namers are those at the given positions, in order, and these are all whose series were found. */
  ghost predicate Picks(namers: seq<Namer>, found: Selector -> Option<seq<Series>>, r: UpdateResult, at: seq<nat>) {
    && |at| == |r.namers| == |r.series|
    && (forall i :: 0 <= i < |at| ==> IsPick(namers, found, at[i], r.namers[i], r.series[i]))
    && Increasing(at) && Covers(namers, found, at)
  }

  /** The same positions in a sequence with one more namer in front. */
  function Shifted(at: seq<nat>): (r: seq<nat>)
    ensures |r| == |at| && forall i :: 0 <= i < |r| ==> r[i] == at[i] + 1
  {
    if at == [] then [] else [at[0] + 1] + Shifted(at[1..])
  }

  function Later(at: seq<nat>, first: bool): seq<nat> {
    if first then [0] + Shifted(at) else Shifted(at)
  }

  lemma LaterIncreases(at: seq<nat>, first: bool)
    requires Increasing(at)
    ensures Increasing(Later(at, first))
  {
    hide Shifted;
    var t := Shifted(at);
    assert Increasing(t);
    if first {
      FrontIncreases(t);
    }
  }

  lemma FrontIncreases(t: seq<nat>)
    requires Increasing(t) && forall i :: 0 <= i < |t| ==> t[i] > 0
    ensures Increasing([0] + t)
  {
  }

  lemma LaterCovers(namers: seq<Namer>, found: Selector -> Option<seq<Series>>, at: seq<nat>)
    requires namers != [] && Covers(namers[1..], found, at)
    ensures Covers(namers, found, Later(at, found(namers[0].selector).Some?))
  {
    hide Shifted;
    var t := Shifted(at);
    forall j: nat | 0 < j < |namers| && found(namers[j].selector).Some? ensures j in t {
      assert namers[1..][j - 1] == namers[j];
      var i :| 0 <= i < |at| && at[i] == j - 1;
      assert t[i] == j;
    }
  }

  lemma LaterPick(namers: seq<Namer>, found: Selector -> Option<seq<Series>>, p: nat, namer: Namer, kept: seq<Series>)
    requires namers != [] && IsPick(namers[1..], found, p, namer, kept)
    ensures IsPick(namers, found, p + 1, namer, kept)
  {
  }

  /** Picking from the rest and, if its series were found, the namer in front is picking from all. */
  lemma PickFirst(namers: seq<Namer>, found: Selector -> Option<seq<Series>>, rest: UpdateResult, at: seq<nat>)
    requires namers != [] && Picks(namers[1..], found, rest, at)
    ensures match found(namers[0].selector)
            case None => Picks(namers, found, rest, Later(at, false))
            case Some(series) =>
              Picks(namers, found, UpdateResult([namers[0].filterSeries(series)] + rest.series, [namers[0]] + rest.namers),
                    Later(at, true))
  {
    hide IsPick, Increasing, Covers, Shifted;
    forall i | 0 <= i < |at| ensures IsPick(namers, found, at[i] + 1, rest.namers[i], rest.series[i]) {
      LaterPick(namers, found, at[i], rest.namers[i], rest.series[i]);
    }
    LaterCovers(namers, found, at);
    match found(namers[0].selector)
    case None =>
      LaterIncreases(at, false);
    case Some(series) =>
      LaterIncreases(at, true);
      FrontPick(namers, found, series);
      var all := UpdateResult([namers[0].filterSeries(series)] + rest.series, [namers[0]] + rest.namers);
      var r := [0] + Shifted(at);
      forall i | 0 <= i < |r| ensures IsPick(namers, found, r[i], all.namers[i], all.series[i]) {
        if i > 0 {
          assert r[i] == Shifted(at)[i - 1];
          assert all.namers[i] == rest.namers[i - 1] && all.series[i] == rest.series[i - 1];
        }
      }
  }

  lemma FrontPick(namers: seq<Namer>, found: Selector -> Option<seq<Series>>, series: seq<Series>)
    requires namers != [] && found(namers[0].selector) == Some(series)
    ensures IsPick(namers, found, 0, namers[0], namers[0].filterSeries(series))
  {
  }

  /** The series cached for a selector. */
  function Cached(cache: map<Selector, seq<Series>>): Selector -> Option<seq<Series>> {
    sel => if sel in cache then Some(cache[sel]) else None
  }

  lemma {:induction false} AssemblePicks(namers: seq<Namer>, cache: map<Selector, seq<Series>>) returns (at: seq<nat>)
    ensures Picks(namers, Cached(cache), Assemble(namers, cache), at)
  {
    hide Picks;
    if namers == [] {
      at := [];
      NothingPicked(Cached(cache));
    } else {
      var later := AssemblePicks(namers[1..], cache);
      PickFirst(namers, Cached(cache), Assemble(namers[1..], cache), later);
      at := Later(later, namers[0].selector in cache);
    }
  }

  lemma NothingPicked(found: Selector -> Option<seq<Series>>)
    ensures Picks([], found, UpdateResult([], []), [])
  {
  }

  /** The reassembly loop of ListAllMetrics. */
  method AssembleResult(namers: seq<Namer>, cache: map<Selector, seq<Series>>) returns (r: UpdateResult)
    ensures r == Assemble(namers, cache)
    ensures exists at :: Picks(namers, Cached(cache), r, at)
  {
    var newSeries: seq<seq<Series>>, newNamers: seq<Namer> := [], [];
    var i := 0;
    while i < |namers|
      invariant 0 <= i <= |namers|
      invariant
        var rest := Assemble(namers[i..], cache);
        Assemble(namers, cache) == UpdateResult(newSeries + rest.series, newNamers + rest.namers)
    {
      var namer := namers[i];
      assert namers[i..][1..] == namers[i + 1..];
      if namer.selector in cache {
        newSeries := newSeries + [namer.filterSeries(cache[namer.selector])];
        newNamers := newNamers + [namer];
      }
      i := i + 1;
    }
    ghost var at := AssemblePicks(namers, cache);
    return UpdateResult(newSeries, newNamers);
  }

  /** The specification: ask the namers one after the other, stopping at the first failed query. */
  function AskInTurn(namers: seq<Namer>, query: Selector -> Answer): Result<UpdateResult, Selector> {
    if namers == [] then Success(UpdateResult([], []))
    else
      match query(namers[0].selector)
      case Failed => Failure(namers[0].selector)
      case Answered(answer) =>
        match AskInTurn(namers[1..], query)
        case Failure(sel) => Failure(sel)
        case Success(rest) =>
          if answer.Some?
          then Success(Prepend(namers[0].filterSeries(answer.value), namers[0], rest))
          else Success(rest)
  }

  /** The series a query answers with, unless that is a nil slice or an error. */
  function Answers(query: Selector -> Answer): Selector -> Option<seq<Series>> {
    sel => match query(sel) case Failed => None case Answered(series) => series
  }

  lemma {:induction false} InTurnPicks(namers: seq<Namer>, query: Selector -> Answer) returns (at: seq<nat>)
    requires AskInTurn(namers, query).Success?
    ensures Picks(namers, Answers(query), AskInTurn(namers, query).value, at)
    ensures forall j :: 0 <= j < |namers| ==> !query(namers[j].selector).Failed?
  {
    hide Picks;
    if namers == [] {
      at := [];
      NothingPicked(Answers(query));
    } else {
      var later := InTurnPicks(namers[1..], query);
      PickFirst(namers, Answers(query), AskInTurn(namers[1..], query).value, later);
      at := Later(later, Answers(query)(namers[0].selector).Some?);
      forall j | 0 <= j < |namers| ensures !query(namers[j].selector).Failed? {
        assert j == 0 || namers[1..][j - 1] == namers[j];
      }
    }
  }

  lemma {:induction false} ListingStaysInStep(namers: seq<Namer>, query: Selector -> Answer)
    ensures
      var r := AskInTurn(namers, query);
      r.Success? ==> InStep(r.value)
  {
    if namers != [] {
      ListingStaysInStep(namers[1..], query);
    }
  }

  /** s is the selector of some namer. */
  predicate IsSelector(c: Config, sel: Selector) {
    exists j :: 0 <= j < |c.namers| && c.Sel(j) == sel
  }

  /** Namer j is the first with its selector: the one a goroutine is launched for. */
  predicate First(c: Config, j: nat)
    requires j < |c.namers|
  {
    forall i :: 0 <= i < j ==> c.Sel(i) != c.Sel(j)
  }

  lemma {:induction false} FirstExists(c: Config, j: nat) returns (i: nat)
    requires j < |c.namers|
    ensures i <= j && c.Sel(i) == c.Sel(j) && First(c, i)
  {
    if First(c, j) {
      i := j;
    } else {
      var k :| 0 <= k < j && c.Sel(k) == c.Sel(j);
      i := FirstExists(c, k);
    }
  }
}
