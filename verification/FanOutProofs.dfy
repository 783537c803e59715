/** Every interleaving of the fan-out: safety, progress, and the outcome. */
module FanOutProofs {
  import opened Wrappers
  import opened Prometheus
  import opened FanOut

  // ---------------------------------------------------------------------------------------
  // Counting sends
  // ---------------------------------------------------------------------------------------

  /** What a stage still owes: its error message first, only its series message, or any step at all. */
  datatype Tally = OwesErr | OwesSeries | OwesSteps

  function Owes(t: Tally, st: Stage): nat {
    match t
    case OwesErr => if st in {Unlaunched, Asking, SendingErr} then 1 else 0
    case OwesSeries => if st == SendingSeries then 1 else 0
    case OwesSteps =>
      match st
      case Unlaunched => 4
      case Asking => 3
      case SendingErr => 2
      case SendingSeries => 1
      case Finished => 0
  }

  function Sum(t: Tally, stages: seq<Stage>): nat {
    if stages == [] then 0 else Owes(t, stages[0]) + Sum(t, stages[1..])
  }

  lemma {:induction false} SumUpdate(t: Tally, stages: seq<Stage>, j: nat, st: Stage)
    requires j < |stages|
    ensures Sum(t, stages[j := st]) + Owes(t, stages[j]) == Sum(t, stages) + Owes(t, st)
  {
    if j > 0 {
      SumUpdate(t, stages[1..], j - 1, st);
      assert stages[j := st][1..] == stages[1..][j - 1 := st];
    } else {
      assert stages[j := st][1..] == stages[1..];
    }
  }

  lemma {:induction false} SumAtLeast(t: Tally, stages: seq<Stage>, j: nat)
    requires j < |stages|
    ensures Sum(t, stages) >= Owes(t, stages[j])
  {
    if j > 0 {
      SumAtLeast(t, stages[1..], j - 1);
    }
  }

  lemma {:induction false} SumWitness(t: Tally, stages: seq<Stage>) returns (j: nat)
    requires Sum(t, stages) > 0
    ensures j < |stages| && Owes(t, stages[j]) > 0
  {
    if Owes(t, stages[0]) > 0 {
      j := 0;
    } else {
      var i := SumWitness(t, stages[1..]);
      j := i + 1;
    }
  }

  lemma {:induction false} SumOfUnlaunched(t: Tally, stages: seq<Stage>)
    requires forall j :: 0 <= j < |stages| ==> stages[j] == Unlaunched
    ensures Sum(t, stages) == |stages| * Owes(t, Unlaunched)
  {
    if stages != [] {
      SumOfUnlaunched(t, stages[1..]);
    }
  }

  function Nils(errs: seq<ErrMsg>): nat {
    if errs == [] then 0 else (if errs[0] == NoError then 1 else 0) + Nils(errs[1..])
  }

  lemma {:induction false} NilsAppend(errs: seq<ErrMsg>, m: ErrMsg)
    ensures Nils(errs + [m]) == Nils(errs) + (if m == NoError then 1 else 0)
  {
    if errs == [] {
      assert errs + [m] == [m];
    } else {
      assert (errs + [m])[1..] == errs[1..] + [m];
      NilsAppend(errs[1..], m);
    }
  }

  /**
   The counting invariant. Before the function returns: error messages received, queued and owed add
   up to one per namer; series messages queued, received and still possible do not exceed one per
   namer; and every received or queued "no error" is matched by a series message that is received,
   queued or next in its sender. Whatever is still owed after the return has room.
   */
  ghost predicate Counts(c: Config, s: State) {
    var n := |c.namers|;
    var owedErrs, owedSeries := Sum(OwesErr, s.stages), Sum(OwesSeries, s.stages);
    && |s.stages| == n && !s.panicked
    && |s.errs| + owedErrs <= n
    && |s.found| + owedErrs + owedSeries <= n
    && (s.closed ==> owedErrs == 0)
    && match s.main
       case Launching(i) =>
         i <= n && |s.errs| + owedErrs == n && !s.closed && Nils(s.errs) == |s.found| + owedSeries
       case AwaitingErr(k) =>
         && k <= n && k + |s.errs| + owedErrs == n && k + |s.found| + owedErrs + owedSeries <= n && !s.closed
         && Nils(s.errs) == |s.found| + owedSeries
       case AwaitingSeries(k) =>
         && k < n && k + 1 + |s.errs| + owedErrs == n && k + |s.found| + owedErrs + owedSeries <= n && !s.closed
         && Nils(s.errs) + 1 == |s.found| + owedSeries
       case Returned(o) =>
         && (s.closed <==> o.Listed?)
         && (o.Listed? ==> owedErrs == 0 && owedSeries == 0 && s.errs == [] && s.found == [])
  }

  lemma CountsInit(c: Config)
    ensures Counts(c, Init(c))
  {
    var stages := Init(c).stages;
    SumOfUnlaunched(OwesErr, stages);
    SumOfUnlaunched(OwesSeries, stages);
  }

  lemma SumsUpdate(stages: seq<Stage>, j: nat, st: Stage)
    requires j < |stages|
    ensures forall t :: Sum(t, stages[j := st]) + Owes(t, stages[j]) == Sum(t, stages) + Owes(t, st)
    ensures forall t :: Sum(t, stages) >= Owes(t, stages[j])
  {
    forall t
      ensures Sum(t, stages[j := st]) + Owes(t, stages[j]) == Sum(t, stages) + Owes(t, st)
      ensures Sum(t, stages) >= Owes(t, stages[j])
    {
      SumUpdate(t, stages, j, st);
      SumAtLeast(t, stages, j);
    }
  }

  lemma CountsKeptByGo(c: Config, s: State, j: nat)
    requires Counts(c, s) && Enabled(c, s, Go(j))
    ensures Counts(c, GoStep(c, s, j))
  {
    hide Sum, Nils;
    var s' := GoStep(c, s, j);
    SumsUpdate(s.stages, j, s'.stages[j]);
    assert s'.stages == s.stages[j := s'.stages[j]];
    NilsAppend(s.errs, NoError);
    NilsAppend(s.errs, QueryFailed(c.Sel(j)));
  }

  lemma CountsKeptByLaunch(c: Config, s: State, i: nat)
    requires Counts(c, s) && s.main == Launching(i) && Enabled(c, s, Actor.Main)
    requires i < |c.namers| ==> s.stages[i] in {Unlaunched, SendingErr, SendingSeries}
    ensures Counts(c, LaunchStep(c, s, i))
  {
    hide Sum, Nils;
    if i < |c.namers| {
      var s' := LaunchStep(c, s, i);
      SumsUpdate(s.stages, i, s'.stages[i]);
      assert s'.stages == s.stages[i := s'.stages[i]];
      NilsAppend(s.errs, NoError);
    }
  }

  lemma CountsKeptByReceive(c: Config, s: State)
    requires Counts(c, s) && Enabled(c, s, Actor.Main) && !s.main.Launching?
    ensures Counts(c, Step(c, s, Actor.Main))
  {
    hide Sum, Assemble;
  }

  // ---------------------------------------------------------------------------------------
  // What has been launched, asked, queued and cached
  // ---------------------------------------------------------------------------------------

  /** How many namers the launching loop has passed. */
  function Launched(c: Config, s: State): nat {
    match s.main case Launching(i) => i case _ => |c.namers|
  }

  /** Namers not reached are unlaunched; repeated selectors are served by the loop before it moves on. */
  ghost predicate LaunchOrder(c: Config, s: State) {
    var i := Launched(c, s);
    && |s.stages| == |c.namers| && i <= |c.namers|
    && (forall j :: 0 <= j < i ==> s.stages[j] != Unlaunched && (First(c, j) || s.stages[j] == Finished))
    && (forall j :: i < j < |c.namers| ==> s.stages[j] == Unlaunched)
    && (i < |c.namers| ==>
          && s.stages[i] in {Unlaunched, SendingErr, SendingSeries}
          && (First(c, i) ==> s.stages[i] == Unlaunched))
    && (s.main.Launching? ==> s.seen == SelectorsBefore(c, i))
  }

  function SelectorsBefore(c: Config, i: nat): set<Selector>
    requires i <= |c.namers|
  {
    set j | 0 <= j < i :: c.namers[j].selector
  }

  lemma FirstIsUnseen(c: Config, i: nat)
    requires i < |c.namers|
    ensures First(c, i) <==> c.Sel(i) !in SelectorsBefore(c, i)
    ensures SelectorsBefore(c, i + 1) == SelectorsBefore(c, i) + {c.Sel(i)}
  {
    forall sel ensures sel in SelectorsBefore(c, i + 1) <==> sel in SelectorsBefore(c, i) || sel == c.Sel(i) {
      if sel in SelectorsBefore(c, i + 1) {
        var j :| 0 <= j < i + 1 && c.namers[j].selector == sel;
      }
      if sel == c.Sel(i) {
        assert c.namers[i].selector == sel;
      }
    }
    if c.Sel(i) in SelectorsBefore(c, i) {
      var j :| 0 <= j < i && c.namers[j].selector == c.Sel(i);
      assert c.Sel(j) == c.Sel(i);
    }
  }

  /** A goroutine that is about to ask is the only one for its selector. */
  lemma AsksForTheFirstTime(c: Config, s: State, j: nat)
    requires LaunchOrder(c, s) && AskedOnce(c, s) && Running(c, s, j) && s.stages[j] == Asking
    ensures First(c, j) && c.Sel(j) !in s.asked
  {
    assert j != Launched(c, s);
    assert forall i :: 0 <= i < |c.namers| && First(c, i) && c.Sel(i) == c.Sel(j) ==> i == j;
    assert c.Sel(j) in s.asked ==> IsAsked(c, s, c.Sel(j));
  }

  /** Queries are asked by first namers only, each once. */
  ghost predicate AskedOnce(c: Config, s: State) {
    && |s.stages| == |c.namers|
    && (forall p, q :: 0 <= p < q < |s.asked| ==> s.asked[p] != s.asked[q])
    && (forall sel :: sel in s.asked ==> IsAsked(c, s, sel))
    && (forall j :: 0 <= j < |c.namers| && First(c, j) && s.stages[j] !in {Unlaunched, Asking} ==>
          c.Sel(j) in s.asked)
  }

  predicate IsAsked(c: Config, s: State, sel: Selector)
    requires |s.stages| == |c.namers|
  {
    exists j :: 0 <= j < |c.namers| && First(c, j) && c.Sel(j) == sel && s.stages[j] !in {Unlaunched, Asking}
  }

  /** Everything queued, cached or returned comes from an answer of Prometheus. */
  ghost predicate Sound(c: Config, s: State) {
    && (forall sel :: QueryFailed(sel) in s.errs ==> IsSelector(c, sel) && c.query(sel).Failed?)
    && (forall m :: m in s.found && m.series.Some? ==> c.query(m.sel) == Answered(m.series))
    && (forall sel :: sel in s.cache ==> c.query(sel) == Answered(Some(s.cache[sel])))
  }

  /** No answer gets lost: what a finished goroutine sent is queued, cached, or the returned error. */
  ghost predicate Kept(c: Config, s: State) {
    && |s.stages| == |c.namers|
    && forall j :: 0 <= j < |c.namers| && First(c, j) ==> KeptFor(c, s, j)
  }

  ghost predicate KeptFor(c: Config, s: State, j: nat)
    requires j < |c.namers| == |s.stages|
  {
    match c.query(c.Sel(j))
    case Failed =>
      && s.stages[j] != SendingSeries
      && (s.stages[j] == Finished ==> QueryFailed(c.Sel(j)) in s.errs || HasFailed(s))
    case Answered(series) =>
      s.stages[j] == Finished && series.Some? ==> c.Sel(j) in s.cache || SeriesMsg(c.Sel(j), series) in s.found
  }

  predicate HasFailed(s: State) {
    s.main.Returned? && s.main.outcome.ListFailed?
  }

  /** The outcome agrees with asking the namers in turn. */
  ghost predicate SameAsInTurn(c: Config, o: Outcome) {
    match o
    case ListFailed(sel) => IsSelector(c, sel) && c.query(sel).Failed? && AskInTurn(c.namers, c.query).Failure?
    case Listed(r) => AskInTurn(c.namers, c.query) == Success(r)
  }

  ghost predicate Inv(c: Config, s: State) {
    && Counts(c, s) && LaunchOrder(c, s) && AskedOnce(c, s) && Sound(c, s) && Kept(c, s)
    && (s.main.Returned? ==> SameAsInTurn(c, s.main.outcome))
  }

  lemma InvInit(c: Config)
    ensures Inv(c, Init(c))
  {
    CountsInit(c);
  }

  lemma LaunchOrderKeptByGo(c: Config, s: State, j: nat)
    requires LaunchOrder(c, s) && Enabled(c, s, Go(j))
    ensures LaunchOrder(c, GoStep(c, s, j))
  {
  }

  lemma LaunchOrderKeptByLaunch(c: Config, s: State, i: nat)
    requires LaunchOrder(c, s) && s.main == Launching(i)
    ensures LaunchOrder(c, LaunchStep(c, s, i))
  {
    if i < |c.namers| {
      FirstIsUnseen(c, i);
    }
  }

  lemma LaunchOrderKept(c: Config, s: State, a: Actor)
    requires LaunchOrder(c, s) && Enabled(c, s, a)
    ensures LaunchOrder(c, Step(c, s, a))
  {
    hide Assemble, GoStep, LaunchStep;
    match a
    case Go(j) => LaunchOrderKeptByGo(c, s, j);
    case Main =>
      if s.main.Launching? {
        LaunchOrderKeptByLaunch(c, s, s.main.next);
      }
  }

  lemma AskedOnceKeptByGo(c: Config, s: State, j: nat)
    requires LaunchOrder(c, s) && AskedOnce(c, s) && Enabled(c, s, Go(j))
    ensures AskedOnce(c, GoStep(c, s, j))
  {
    var s' := GoStep(c, s, j);
    if s.stages[j] == Asking {
      AsksForTheFirstTime(c, s, j);
    }
    StillAsked(c, s, s');
    assert s'.stages[j] !in {Unlaunched, Asking};
  }

  lemma AskedOnceKeptByLaunch(c: Config, s: State, i: nat)
    requires LaunchOrder(c, s) && AskedOnce(c, s) && s.main == Launching(i)
    ensures AskedOnce(c, LaunchStep(c, s, i))
  {
    StillAsked(c, s, LaunchStep(c, s, i));
    if i < |c.namers| {
      FirstIsUnseen(c, i);
    }
  }

  lemma StillAsked(c: Config, s: State, s': State)
    requires |s.stages| == |s'.stages| == |c.namers|
    requires forall j :: 0 <= j < |s.stages| && s.stages[j] !in {Unlaunched, Asking} ==>
      s'.stages[j] !in {Unlaunched, Asking}
    ensures forall sel :: IsAsked(c, s, sel) ==> IsAsked(c, s', sel)
  {
  }

  lemma AskedOnceKept(c: Config, s: State, a: Actor)
    requires LaunchOrder(c, s) && AskedOnce(c, s) && Enabled(c, s, a)
    ensures AskedOnce(c, Step(c, s, a))
  {
    hide AskedOnce, LaunchOrder, GoStep, LaunchStep, Assemble;
    match a
    case Go(j) => AskedOnceKeptByGo(c, s, j);
    case Main =>
      if s.main.Launching? {
        AskedOnceKeptByLaunch(c, s, s.main.next);
      } else {
        AskedOnceDependsOn(c, s, Step(c, s, a));
      }
  }

  lemma AskedOnceDependsOn(c: Config, s: State, s': State)
    requires AskedOnce(c, s) && s'.stages == s.stages && s'.asked == s.asked
    ensures AskedOnce(c, s')
  {
    StillAsked(c, s, s');
  }

  lemma SoundKept(c: Config, s: State, a: Actor)
    requires LaunchOrder(c, s) && Sound(c, s) && Kept(c, s) && Enabled(c, s, a)
    ensures Sound(c, Step(c, s, a))
  {
    hide Assemble;
  }

  lemma KeptByGo(c: Config, s: State, j: nat)
    requires LaunchOrder(c, s) && Kept(c, s) && Enabled(c, s, Go(j)) && !GoStep(c, s, j).panicked
    ensures Kept(c, GoStep(c, s, j))
  {
  }

  lemma KeptByLaunch(c: Config, s: State, i: nat)
    requires LaunchOrder(c, s) && Kept(c, s) && s.main == Launching(i) && !LaunchStep(c, s, i).panicked
    ensures Kept(c, LaunchStep(c, s, i))
  {
  }

  lemma KeptByReceive(c: Config, s: State)
    requires Sound(c, s) && Kept(c, s) && Enabled(c, s, Actor.Main) && !s.main.Launching?
    ensures Kept(c, Step(c, s, Actor.Main))
  {
    hide Assemble;
  }

  lemma KeptKept(c: Config, s: State, a: Actor)
    requires LaunchOrder(c, s) && Sound(c, s) && Kept(c, s) && Enabled(c, s, a)
    requires !Step(c, s, a).panicked
    ensures Kept(c, Step(c, s, a))
  {
    hide Kept, Sound, LaunchOrder, GoStep, LaunchStep, ReceiveErr, ReceiveSeries;
    match a
    case Go(j) => KeptByGo(c, s, j);
    case Main =>
      if s.main.Launching? {
        KeptByLaunch(c, s, s.main.next);
      } else {
        KeptByReceive(c, s);
      }
  }

  /** Receiving the last series message with nothing failed: the cache holds every answer. */
  lemma CacheComplete(c: Config, s: State)
    requires Inv(c, s) && s.main == AwaitingErr(|c.namers|)
    ensures forall j :: 0 <= j < |c.namers| ==>
      match c.query(c.namers[j].selector)
      case Failed => false
      case Answered(series) =>
        (series.Some? <==> c.namers[j].selector in s.cache) && (series.Some? ==> s.cache[c.namers[j].selector] == series.value)
  {
    hide Sum;
    forall j | 0 <= j < |c.namers|
      ensures match c.query(c.namers[j].selector)
        case Failed => false
        case Answered(series) =>
          (series.Some? <==> c.namers[j].selector in s.cache) && (series.Some? ==> s.cache[c.namers[j].selector] == series.value)
    {
      var i := FirstExists(c, j);
      AllFinished(c, s, i);
      assert KeptFor(c, s, i);
    }
  }

  lemma AllFinished(c: Config, s: State, j: nat)
    requires Counts(c, s) && s.main == AwaitingErr(|c.namers|) && j < |c.namers|
    ensures s.errs == [] && s.found == [] && s.stages[j] == Finished
  {
    SumAtLeast(OwesErr, s.stages, j);
    SumAtLeast(OwesSeries, s.stages, j);
  }

  /** Reassembling a complete cache is asking in turn. */
  lemma {:induction false} AssembleIsAskInTurn(
    namers: seq<Namer>, query: Selector -> Answer, cache: map<Selector, seq<Series>>)
    requires forall j :: 0 <= j < |namers| ==>
      match query(namers[j].selector)
      case Failed => false
      case Answered(series) =>
        && (series.Some? <==> namers[j].selector in cache)
        && (series.Some? ==> cache[namers[j].selector] == series.value)
    ensures AskInTurn(namers, query) == Success(Assemble(namers, cache))
  {
    if namers != [] {
      AssembleIsAskInTurn(namers[1..], query, cache);
    }
  }

  lemma {:induction false} AskInTurnFails(namers: seq<Namer>, query: Selector -> Answer)
    ensures AskInTurn(namers, query).Failure?
      <==> exists j :: 0 <= j < |namers| && query(namers[j].selector).Failed?
  {
    if namers != [] {
      AskInTurnFails(namers[1..], query);
      if j :| 0 <= j < |namers| && query(namers[j].selector).Failed? {
        assert j == 0 || namers[1..][j - 1] == namers[j];
      }
    }
  }

  lemma OutcomeKept(c: Config, s: State, a: Actor)
    requires Inv(c, s) && Enabled(c, s, a)
    ensures
      var s' := Step(c, s, a);
      s'.main.Returned? ==> SameAsInTurn(c, s'.main.outcome)
  {
    hide Counts, LaunchOrder, AskedOnce, Kept, Assemble, AskInTurn;
    if a.Main? && s.main.AwaitingErr? {
      if s.main.got >= |c.namers| {
        assert s.main.got == |c.namers| by {
          GotAtMost(c, s);
        }
        CacheComplete(c, s);
        AssembleIsAskInTurn(c.namers, c.query, s.cache);
      } else if s.errs[0].QueryFailed? {
        AskInTurnFails(c.namers, c.query);
        assert s.errs[0] in s.errs;
        var j :| 0 <= j < |c.namers| && c.Sel(j) == s.errs[0].sel;
        assert c.query(c.namers[j].selector).Failed?;
      }
    }
  }

  lemma GotAtMost(c: Config, s: State)
    requires Counts(c, s) && s.main.AwaitingErr?
    ensures s.main.got <= |c.namers|
  {
  }

  lemma InvKept(c: Config, s: State, a: Actor)
    requires Inv(c, s) && Enabled(c, s, a)
    ensures Inv(c, Step(c, s, a))
  {
    assert Counts(c, Step(c, s, a)) by {
      CountsKept(c, s, a);
    }
    hide Counts, LaunchOrder, AskedOnce, Sound, Kept, SameAsInTurn, Step, Enabled;
    LaunchOrderKept(c, s, a);
    AskedOnceKept(c, s, a);
    SoundKept(c, s, a);
    NotPanicked(c, Step(c, s, a));
    KeptKept(c, s, a);
    OutcomeKept(c, s, a);
  }

  lemma NotPanicked(c: Config, s: State)
    requires Counts(c, s)
    ensures !s.panicked
  {
  }

  lemma CountsKept(c: Config, s: State, a: Actor)
    requires Counts(c, s) && LaunchOrder(c, s) && Enabled(c, s, a)
    ensures Counts(c, Step(c, s, a))
  {
    hide Counts, GoStep, LaunchStep, Assemble;
    match a
    case Go(j) => CountsKeptByGo(c, s, j);
    case Main =>
      if s.main.Launching? {
        CountsKeptByLaunch(c, s, s.main.next);
      } else {
        CountsKeptByReceive(c, s);
      }
  }

  lemma {:induction false} InvOnRuns(c: Config, from: State, schedule: seq<Actor>, to: State)
    requires Inv(c, from) && Run(c, from, schedule, to)
    ensures Inv(c, to)
    decreases |schedule|
  {
    hide Inv, Step, Enabled;
    if schedule != [] {
      InvKept(c, from, schedule[0]);
      InvOnRuns(c, Step(c, from, schedule[0]), schedule[1..], to);
    }
  }

  // ---------------------------------------------------------------------------------------
  // Progress
  // ---------------------------------------------------------------------------------------

  /** Whatever the function or a goroutine sends has room in its channel, also after an early return. */
  lemma SendersNeverBlock(c: Config, s: State)
    requires Inv(c, s)
    ensures forall j :: Running(c, s, j) ==> Enabled(c, s, Go(j))
    ensures s.main.Launching? ==> Enabled(c, s, Actor.Main)
  {
    hide Sum, AskedOnce, Sound, Kept, SameAsInTurn;
    forall j: nat | j < |s.stages|
      ensures s.stages[j] == SendingErr ==> ErrsHasRoom(c, s)
      ensures s.stages[j] == SendingSeries ==> FoundHasRoom(c, s)
    {
      SumAtLeast(OwesErr, s.stages, j);
      SumAtLeast(OwesSeries, s.stages, j);
    }
  }

  /** Until the function returns, some step is enabled. */
  lemma NoDeadlock(c: Config, s: State) returns (a: Actor)
    requires Inv(c, s) && !s.main.Returned?
    ensures Enabled(c, s, a)
  {
    SendersNeverBlock(c, s);
    hide Sum, AskedOnce, Sound, Kept, SameAsInTurn;
    a := Actor.Main;
    if s.main.AwaitingErr? && s.main.got < |c.namers| && s.errs == [] {
      var j := SumWitness(OwesErr, s.stages);
      assert Running(c, s, j);
      a := Go(j);
    } else if s.main.AwaitingSeries? && s.found == [] {
      var j := SumWitness(OwesSeries, s.stages);
      assert Running(c, s, j);
      a := Go(j);
    }
  }

  /** An upper bound on the steps that are still to come. */
  function StepsLeft(c: Config, s: State): int {
    var n := |c.namers|;
    Sum(OwesSteps, s.stages)
    + match s.main
      case Launching(_) => 2 * n + 2
      case AwaitingErr(k) => 2 * (n - k) + 1
      case AwaitingSeries(k) => 2 * (n - k)
      case Returned(_) => 0
  }

  lemma StepsDecrease(c: Config, s: State, a: Actor)
    requires Counts(c, s) && LaunchOrder(c, s) && Enabled(c, s, a)
    ensures StepsLeft(c, Step(c, s, a)) < StepsLeft(c, s)
  {
    hide Sum, Assemble;
    var s' := Step(c, s, a);
    match a
    case Go(j) =>
      SumUpdate(OwesSteps, s.stages, j, s'.stages[j]);
      assert s'.stages == s.stages[j := s'.stages[j]];
    case Main =>
      if s.main.Launching? && s.main.next < |c.namers| {
        var i := s.main.next;
        SumUpdate(OwesSteps, s.stages, i, s'.stages[i]);
        assert s'.stages == s.stages[i := s'.stages[i]];
      }
  }

  lemma {:induction false} RunLength(c: Config, from: State, schedule: seq<Actor>, to: State)
    requires Inv(c, from) && Run(c, from, schedule, to)
    ensures |schedule| + StepsLeft(c, to) <= StepsLeft(c, from) && StepsLeft(c, to) >= 0
    decreases |schedule|
  {
    if schedule == [] {
      StepsNotNegative(c, from);
    } else {
      var s := Step(c, from, schedule[0]);
      InvKept(c, from, schedule[0]);
      StepsDecrease(c, from, schedule[0]);
      hide Inv, Step, StepsLeft, Enabled;
      RunLength(c, s, schedule[1..], to);
    }
  }

  lemma StepsNotNegative(c: Config, s: State)
    requires Counts(c, s)
    ensures StepsLeft(c, s) >= 0
  {
  }

  // ---------------------------------------------------------------------------------------
  // The theorems
  // ---------------------------------------------------------------------------------------

  /** The query of the namer was answered with series, of which these are kept. */
  ghost predicate KeepsAnswer(c: Config, namer: Namer, kept: seq<Series>) {
    exists x :: c.query(namer.selector) == Answered(Some(x)) && kept == namer.filterSeries(x)
  }

  /**
   The listing in terms of the namers and the answers alone: it holds, in the order of the namers, exactly
   those whose query was answered with series, each with the ones it keeps; and no query failed.
   */
  ghost predicate ListsInOrder(c: Config, r: UpdateResult, at: seq<nat>) {
    && |at| == |r.namers| == |r.series|
    && (forall i, j :: 0 <= i < j < |at| ==> at[i] < at[j])
    && (forall i :: 0 <= i < |at| ==>
          at[i] < |c.namers| && r.namers[i] == c.namers[at[i]] && KeepsAnswer(c, r.namers[i], r.series[i]))
    && (forall j: nat, x :: j < |c.namers| && c.query(c.namers[j].selector) == Answered(Some(x)) ==> j in at)
    && (forall j :: 0 <= j < |c.namers| ==> c.query(c.namers[j].selector) != Failed)
  }

  lemma PickIsAnswered(c: Config, p: nat, namer: Namer, kept: seq<Series>)
    requires IsPick(c.namers, Answers(c.query), p, namer, kept)
    ensures p < |c.namers| && namer == c.namers[p] && KeepsAnswer(c, namer, kept)
  {
    var x := Answers(c.query)(namer.selector).value;
    assert c.query(namer.selector) == Answered(Some(x));
  }

  lemma InTurnListsInOrder(c: Config, r: UpdateResult) returns (at: seq<nat>)
    requires AskInTurn(c.namers, c.query) == Success(r)
    ensures ListsInOrder(c, r, at)
  {
    hide AskInTurn, IsPick, KeepsAnswer;
    at := InTurnPicks(c.namers, c.query);
    forall i | 0 <= i < |at|
      ensures at[i] < |c.namers| && r.namers[i] == c.namers[at[i]] && KeepsAnswer(c, r.namers[i], r.series[i])
    {
      PickIsAnswered(c, at[i], r.namers[i], r.series[i]);
    }
    forall j: nat, x | j < |c.namers| && c.query(c.namers[j].selector) == Answered(Some(x)) ensures j in at {
      assert Answers(c.query)(c.namers[j].selector).Some?;
    }
  }

  /**
   Safety of every interleaving, at every point of it: the error channel is closed exactly by a
   successful return, nothing is sent on it after that, no sender blocks, no selector is asked twice
   or without a namer, some step is possible until the function returns, and what it returns is what
   asking the namers in turn would give: an error exactly when some query fails, otherwise the same
   listing, which holds the answered namers in their order.
   */
  lemma EveryRunIsSafe(c: Config, schedule: seq<Actor>, s: State)
    requires Run(c, Init(c), schedule, s)
    ensures !s.panicked
    ensures s.closed <==> s.main.Returned? && s.main.outcome.Listed?
    ensures forall j :: Running(c, s, j) ==> Enabled(c, s, Go(j))
    ensures !s.main.Returned? ==> exists a :: Enabled(c, s, a)
    ensures forall p, q :: 0 <= p < q < |s.asked| ==> s.asked[p] != s.asked[q]
    ensures forall sel :: sel in s.asked ==> IsSelector(c, sel)
    ensures s.main.Returned? ==> SameAsInTurn(c, s.main.outcome)
    ensures s.main.Returned? && s.main.outcome.Listed? ==> exists at :: ListsInOrder(c, s.main.outcome.result, at)
    ensures s.main.Returned? && s.main.outcome.ListFailed? ==>
      exists j :: 0 <= j < |c.namers| && c.namers[j].selector == s.main.outcome.sel && c.query(s.main.outcome.sel) == Failed
  {
    hide ListsInOrder, KeepsAnswer;
    InvInit(c);
    InvOnRuns(c, Init(c), schedule, s);
    SendersNeverBlock(c, s);
    if !s.main.Returned? {
      var a := NoDeadlock(c, s);
    }
    if s.main.Returned? && s.main.outcome.Listed? {
      var at := InTurnListsInOrder(c, s.main.outcome.result);
    }
    hide Counts, LaunchOrder, Sound, Kept, Enabled;
  }

  /**
   Every interleaving ends, after at most 6n + 2 steps for n namers; when no step is left, the
   function has returned, every goroutine has finished, and every selector has been asked.
   */
  lemma EveryRunEnds(c: Config, schedule: seq<Actor>, s: State)
    requires Run(c, Init(c), schedule, s)
    ensures |schedule| <= 6 * |c.namers| + 2
    ensures (forall a :: !Enabled(c, s, a)) ==>
      && s.main.Returned?
      && (forall j :: 0 <= j < |s.stages| ==> s.stages[j] == Finished)
      && (forall j :: 0 <= j < |c.namers| ==> c.Sel(j) in s.asked)
  {
    InvInit(c);
    StepsAtStart(c);
    hide Inv, Enabled, Step, StepsLeft, Init;
    RunLength(c, Init(c), schedule, s);
    InvOnRuns(c, Init(c), schedule, s);
    if forall a :: !Enabled(c, s, a) {
      RestingState(c, s);
    }
  }

  lemma StepsAtStart(c: Config)
    ensures StepsLeft(c, Init(c)) == 6 * |c.namers| + 2
  {
    SumOfUnlaunched(OwesSteps, Init(c).stages);
  }

  lemma RestingState(c: Config, s: State)
    requires Inv(c, s) && forall a :: !Enabled(c, s, a)
    ensures s.main.Returned?
    ensures forall j :: 0 <= j < |s.stages| ==> s.stages[j] == Finished
    ensures forall j :: 0 <= j < |c.namers| ==> c.Sel(j) in s.asked
  {
    SendersNeverBlock(c, s);
    if !s.main.Returned? {
      var a := NoDeadlock(c, s);
    }
    hide Counts, Sound, Kept, SameAsInTurn, Enabled;
    forall j: nat | j < |s.stages| ensures s.stages[j] == Finished {
      assert !Running(c, s, j);
    }
    forall j: nat | j < |c.namers| ensures c.Sel(j) in s.asked {
      var i := FirstExists(c, j);
    }
  }
}
