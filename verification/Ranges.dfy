/**
 Cutting a window into steps (the loop of GetRangeAllocation in cost_manager.go), and the interval
 a billing query covers for each step (cost_metrics.go). Times are nanoseconds on the local clock.
 */
module Ranges {
  import opened Durations

  datatype Step = Step(start: int, end: int)

  function Min(x: int, y: int): int {
    if x < y then x else y
  }

  /** A range request: from start to end in steps of a size. */
  datatype Range = Range(start: int, end: int, size: int)

  /** The loop's step after n turns; the first step is not cut off at the end. */
  function After(g: Range, n: nat): Step {
    if n == 0 then Step(g.start, g.start + g.size)
    else
      var s := After(g, n - 1);
      Step(s.end, Min(s.end + g.size, g.end))
  }

  /** The loop's condition fails after n turns. */
  predicate Finished(g: Range, n: nat) {
    g.end <= After(g, n).start
  }

  /** The loop takes exactly n turns. */
  ghost predicate Turns(g: Range, n: nat) {
    Finished(g, n) && forall i: nat :: i < n ==> !Finished(g, i)
  }

  /** The loop's steps from a given one on. */
  function StepsFrom(s: Step, end: int, size: int): seq<Step>
    requires size > 0 && s.start < s.end
    decreases end - s.start
  {
    if end <= s.start then []
    else if end <= s.end then [s]
    else [s] + StepsFrom(Step(s.end, Min(s.end + size, end)), end, size)
  }

  /** All steps; the first one is not cut off at the window's end. */
  function Steps(start: int, end: int, size: int): seq<Step>
    requires size > 0
  {
    StepsFrom(Step(start, start + size), end, size)
  }

  function Times(n: int, size: int): int {
    n * size
  }

  /** How many steps of a size it takes to fill a duration. */
  function Ceiling(duration: int, size: int): int
    requires size > 0
  {
    (duration + size - 1) / size
  }

  lemma CeilingIs(duration: int, size: int, n: int)
    requires size > 0 && Times(n - 1, size) < duration <= Times(n, size)
    ensures Ceiling(duration, size) == n
  {
    var x := duration + size - 1;
    assert n * size <= x < n * size + size;
    DivIs(x, size, n);
  }

  lemma DivIs(x: int, d: int, q: int)
    requires d > 0 && q * d <= x < q * d + d
    ensures x / d == q
  {
    var k := q - x / d;
    assert k * d == q * d - x / d * d;
    SmallMultiple(k, d);
  }

  lemma SmallMultiple(k: int, d: int)
    requires d > 0 && -d < k * d < d
    ensures k == 0
  {
    if k >= 1 {
      AtLeast(k, d);
      assert false;
    } else if k <= -1 {
      AtLeast(-k, d);
      NegativeTimes(k, d);
      assert false;
    }
  }

  lemma AtLeast(k: int, d: int)
    requires k >= 1 && d > 0
    ensures k * d >= d
  {
    assert (k - 1) * d >= 0;
  }

  lemma NegativeTimes(k: int, d: int)
    ensures (-k) * d == -(k * d)
  {
  }

  lemma TimesMore(n: int, size: int)
    ensures Times(n + 1, size) == Times(n, size) + size
  {
  }

  /** The steps after a given one, by index. */
  lemma {:induction false} StepsFromAt(s: Step, end: int, size: int, i: nat)
    requires size > 0 && s.start < s.end && s.start < end && i < |StepsFrom(s, end, size)|
    ensures StepsFrom(s, end, size)[i] ==
      if i == 0 then s else Step(s.end + Times(i - 1, size), Min(s.end + Times(i, size), end))
    ensures s.end + Times(i - 1, size) < end || i == 0
    decreases end - s.start
  {
    hide Times;
    if i > 0 {
      var next := Step(s.end, Min(s.end + size, end));
      StepsFromAt(next, end, size, i - 1);
      TimesMore(i - 1, size);
      TimesMore(i - 2, size);
      ZeroTimes(size);
      assert StepsFrom(s, end, size)[i] == StepsFrom(next, end, size)[i - 1];
    }
  }

  lemma ZeroTimes(size: int)
    ensures Times(0, size) == 0 && Times(1, size) == size
  {
  }

  lemma {:induction false} StepsFromCount(s: Step, end: int, size: int)
    requires size > 0 && s.start < s.end && s.start < end
    ensures var n := |StepsFrom(s, end, size)|;
      n >= 1 && s.end + Times(n - 1, size) >= end && (n >= 2 ==> s.end + Times(n - 2, size) < end)
    decreases end - s.start
  {
    hide Times;
    ZeroTimes(size);
    if s.end < end {
      var next := Step(s.end, Min(s.end + size, end));
      StepsFromCount(next, end, size);
      var n := |StepsFrom(next, end, size)|;
      TimesMore(n - 1, size);
      TimesMore(n - 2, size);
    }
  }

  /** The i-th step of a window. */
  lemma StepAt(start: int, end: int, size: int, i: nat)
    requires size > 0 && i < |Steps(start, end, size)|
    ensures Steps(start, end, size)[i] ==
      Step(start + Times(i, size), if i == 0 then start + size else Min(start + Times(i + 1, size), end))
    ensures start + Times(i, size) < end
  {
    hide Times;
    StepsFromAt(Step(start, start + size), end, size, i);
    ZeroTimes(size);
    TimesMore(i - 1, size);
    TimesMore(i, size);
  }

  lemma StepsCount(start: int, end: int, size: int)
    requires size > 0 && start <= end
    ensures |Steps(start, end, size)| == Ceiling(end - start, size)
  {
    hide Times, Ceiling;
    ZeroTimes(size);
    if start == end {
      TimesMore(-1, size);
      CeilingIs(0, size, 0);
    } else {
      StepsFromCount(Step(start, start + size), end, size);
      var n := |Steps(start, end, size)|;
      TimesMore(n - 1, size);
      TimesMore(n - 2, size);
      CeilingIs(end - start, size, n);
    }
  }

  // ---------------------------------------------------------------------------------------
  // When the loop ends
  // ---------------------------------------------------------------------------------------

  /** The steps of the loop are its states. */
  lemma {:induction false} StepsAreStates(g: Range, i: nat)
    requires g.size > 0 && i < |Steps(g.start, g.end, g.size)|
    ensures After(g, i) == Steps(g.start, g.end, g.size)[i] && !Finished(g, i)
  {
    hide Times, Steps;
    StepAt(g.start, g.end, g.size, i);
    ZeroTimes(g.size);
    if i > 0 {
      StepsAreStates(g, i - 1);
      StepAt(g.start, g.end, g.size, i - 1);
      TimesMore(i, g.size);
      StepIs(g.start, g.end, g.size, i - 1);
    }
  }

  lemma StatesEnd(g: Range)
    requires g.size > 0
    ensures Turns(g, |Steps(g.start, g.end, g.size)|)
  {
    hide Steps;
    var steps := Steps(g.start, g.end, g.size);
    forall i: nat | i < |steps| ensures !Finished(g, i) {
      StepsAreStates(g, i);
    }
    if g.start < g.end {
      LastStep(g.start, g.end, g.size);
      StepsAreStates(g, |steps| - 1);
    } else {
      FirstSteps(g.start, g.end, g.size);
    }
  }

  lemma FirstSteps(start: int, end: int, size: int)
    requires size > 0 && end <= start
    ensures Steps(start, end, size) == []
  {
  }

  /** Without a positive size the loop does not come nearer to the end. */
  lemma {:induction false} NoProgress(g: Range, n: nat)
    requires g.size <= 0 && g.start < g.end
    ensures After(g, n).end <= After(g, n).start <= g.start
  {
    if n > 0 {
      NoProgress(g, n - 1);
    }
  }

  /** With size zero, which the text "0" denotes, every turn computes the same empty step. */
  lemma {:induction false} ZeroStepStays(start: int, end: int, n: nat)
    requires start < end
    ensures After(Range(start, end, 0), n) == Step(start, start) && !Finished(Range(start, end, 0), n)
  {
    if n > 0 {
      ZeroStepStays(start, end, n - 1);
    }
  }

  /** Unless a step fails, the loop ends exactly if the step is positive or there is nothing to do. */
  lemma LoopEndsExactly(g: Range)
    ensures (exists n: nat :: Finished(g, n)) <==> g.size > 0 || g.end <= g.start
  {
    hide After, Steps;
    if g.size > 0 {
      StatesEnd(g);
      assert Finished(g, |Steps(g.start, g.end, g.size)|);
    } else if g.end <= g.start {
      FirstState(g);
      assert Finished(g, 0);
    } else {
      forall n: nat ensures !Finished(g, n) {
        NoProgress(g, n);
      }
    }
  }

  lemma FirstState(g: Range)
    ensures After(g, 0) == Step(g.start, g.start + g.size)
  {
  }

  /**
   The number of turns: none for an empty window; else, given a positive step, the duration divided by
   it, rounded up; without a positive step there is no such number.
   */
  lemma StepCount(g: Range, n: nat)
    ensures Turns(g, n) <==>
      if g.end <= g.start then n == 0 else g.size > 0 && n == Ceiling(g.end - g.start, g.size)
  {
    hide After, Steps, Ceiling, Finished;
    FirstState(g);
    assert Finished(g, 0) <==> g.end <= g.start by {
      FinishedIs(g, 0);
    }
    LoopEndsExactly(g);
    if g.start < g.end && g.size > 0 {
      StatesEnd(g);
      StepsCount(g.start, g.end, g.size);
      TurnsUnique(g, n, Ceiling(g.end - g.start, g.size));
    } else if g.end <= g.start {
      assert Turns(g, 0);
      TurnsUnique(g, n, 0);
    }
  }

  lemma FinishedIs(g: Range, n: nat)
    ensures Finished(g, n) <==> g.end <= After(g, n).start
  {
  }

  lemma TurnsUnique(g: Range, m: nat, n: nat)
    requires Turns(g, n)
    ensures Turns(g, m) <==> m == n
  {
    hide After, Finished;
    if Turns(g, m) {
      assert !(m < n) && !(n < m);
    }
  }

  /** Steps that follow each other without a gap or an overlap, from start to end. */
  ghost predicate Tiles(steps: seq<Step>, start: int, end: int) {
    && steps != []
    && steps[0].start == start && steps[|steps| - 1].end == end
    && (forall i :: 0 <= i < |steps| ==> steps[i].start < steps[i].end)
    && (forall i :: 0 <= i < |steps| - 1 ==> steps[i].end == steps[i + 1].start)
  }

  lemma StepIs(start: int, end: int, size: int, i: nat)
    requires size > 0 && i < |Steps(start, end, size)|
    ensures var steps := Steps(start, end, size);
      && start <= steps[i].start < end && steps[i].start < steps[i].end && (i == 0 ==> steps[i].start == start)
      && (if i < |steps| - 1 then steps[i].end == steps[i + 1].start && steps[i].end - steps[i].start == size
          else if i == 0 then steps[i].end == start + size
          else steps[i].end <= end)
      && steps[i].end - steps[i].start <= size
      && (i > 0 || size <= end - start ==> steps[i].end <= end)
  {
    hide Times, Steps;
    StepAt(start, end, size, i);
    TimesMore(i, size);
    ZeroTimes(size);
    TimesGrow(i, size);
    if i < |Steps(start, end, size)| - 1 {
      StepAt(start, end, size, i + 1);
    }
  }

  lemma TimesGrow(n: nat, size: int)
    requires size > 0
    ensures Times(n, size) >= 0
  {
  }

  lemma LastStep(start: int, end: int, size: int)
    requires size > 0 && start < end
    ensures var steps := Steps(start, end, size);
      steps != [] && steps[|steps| - 1].end == if size <= end - start then end else start + size
  {
    hide Times;
    var s := Step(start, start + size);
    StepsFromCount(s, end, size);
    var n := |StepsFrom(s, end, size)|;
    ZeroTimes(size);
    StepAt(start, end, size, n - 1);
    TimesMore(n - 1, size);
    if n > 1 {
      TimesMore(n - 2, size);
      TimesGrow(n - 2, size);
    }
  }

  /** Exactly when a step is not longer than the window do the steps tile it. */
  lemma StepsTileExactly(start: int, end: int, size: int)
    requires size > 0 && start < end
    ensures Tiles(Steps(start, end, size), start, end) <==> size <= end - start
  {
    hide Steps;
    var steps := Steps(start, end, size);
    LastStep(start, end, size);
    StepIs(start, end, size, 0);
    if size <= end - start {
      forall i | 0 <= i < |steps|
        ensures steps[i].start < steps[i].end && (i < |steps| - 1 ==> steps[i].end == steps[i + 1].start)
      {
        StepIs(start, end, size, i);
      }
    }
  }

  /** No step is longer than the size, and all but the last have it. */
  lemma StepSizes(start: int, end: int, size: int)
    requires size > 0
    ensures var steps := Steps(start, end, size);
      forall i :: 0 <= i < |steps| ==>
        && 0 < steps[i].end - steps[i].start <= size
        && (i < |steps| - 1 ==> steps[i].end - steps[i].start == size)
  {
    hide Steps;
    var steps := Steps(start, end, size);
    forall i | 0 <= i < |steps|
      ensures 0 < steps[i].end - steps[i].start <= size
      ensures i < |steps| - 1 ==> steps[i].end - steps[i].start == size
    {
      StepIs(start, end, size, i);
    }
  }

  lemma {:induction false} TileOrder(steps: seq<Step>, start: int, end: int, i: nat, j: nat)
    requires Tiles(steps, start, end) && i < j < |steps|
    ensures steps[i].end <= steps[j].start
  {
    if i + 1 < j {
      TileOrder(steps, start, end, i, j - 1);
    }
  }

  /** In a tiling every moment of the window is in exactly one step. */
  lemma {:induction false} TileOf(steps: seq<Step>, start: int, end: int, t: int) returns (i: nat)
    requires Tiles(steps, start, end) && start <= t < end
    ensures i < |steps| && steps[i].start <= t < steps[i].end
    ensures forall j :: 0 <= j < |steps| && steps[j].start <= t < steps[j].end ==> j == i
  {
    i := 0;
    while steps[i].end <= t
      invariant 0 <= i < |steps| && steps[i].start <= t
      decreases |steps| - i
    {
      i := i + 1;
    }
    forall j | 0 <= j < |steps| && steps[j].start <= t < steps[j].end ensures j == i {
      if j < i {
        TileOrder(steps, start, end, j, i);
      } else if i < j {
        TileOrder(steps, start, end, i, j);
      }
    }
  }

  // ---------------------------------------------------------------------------------------
  // Billing queries
  // ---------------------------------------------------------------------------------------

  /** The layout in which a window reaches its queries has no fractions of a second. */
  function Cut(t: int): int {
    t - t % SECOND
  }

  function Written(s: Step): Step {
    Step(Cut(s.start), Cut(s.end))
  }

  /** Hour, minute and second are zero. */
  predicate ShowsMidnight(t: int) {
    t % DAY < SECOND
  }

  /** Billing samples lie on midnights, so a query that ends on one is moved back by a second. */
  function QueryEnd(end: int): int {
    if ShowsMidnight(end) then end - SECOND else end
  }

  /** A range query covers the duration of the written step up to and including its end. */
  predicate Queried(s: Step, t: int) {
    var w := Written(s);
    QueryEnd(w.end) - (w.end - w.start) <= t <= QueryEnd(w.end)
  }

  /** t lies in the written step. */
  predicate Own(s: Step, t: int) {
    Written(s).start <= t < Written(s).end
  }

  /** Written, the step starts a second after a midnight and ends on one. */
  predicate Late(s: Step) {
    Written(s).end % DAY == 0 && Written(s).start % DAY == SECOND
  }

  lemma CutIs(t: int)
    ensures Cut(t) % SECOND == 0 && Cut(t) <= t < Cut(t) + SECOND
    ensures Cut(t) % DAY < SECOND <==> Cut(t) % DAY == 0
    ensures t % SECOND == 0 ==> Cut(t) == t
  {
    var k := t / SECOND;
    assert Cut(t) == SECOND * k;
    SecondOfDay(k);
  }

  lemma SecondOfDay(k: int)
    ensures (SECOND * k) % SECOND == 0
    ensures (SECOND * k) % DAY == SECOND * (k % 86_400)
  {
    var q := k / 86_400;
    assert SECOND * k == DAY * q + SECOND * (k % 86_400);
  }

  lemma CutKeepsOrder(s: int, t: int)
    requires s <= t
    ensures Cut(s) <= Cut(t)
  {
  }

  /** A step always queries its own midnights. */
  lemma OwnIsQueried(s: Step, m: int)
    requires m % DAY == 0 && Own(s, m)
    ensures Queried(s, m)
  {
    CutIs(s.end);
    if Written(s).end % DAY == 0 {
      MidnightsApart(m, Written(s).end);
    }
  }

  /** Midnights are a day apart. */
  lemma MidnightsApart(m: int, e: int)
    requires m % DAY == 0 && e % DAY == 0
    ensures e <= m || m <= e - DAY
  {
  }

  /** A step that starts a second after midnight and ends on one also queries the midnight before it. */
  lemma LateQueries(s: Step)
    requires s.start <= s.end && Late(s)
    ensures var m := Written(s).start - SECOND;
      m % DAY == 0 && Queried(s, m) && !Own(s, m)
  {
  }

  lemma OthersAreOwn(s: Step, m: int)
    requires s.start <= s.end && !Late(s) && m % DAY == 0 && Queried(s, m)
    ensures Own(s, m)
  {
    var w := Written(s);
    CutIs(s.start);
    CutIs(s.end);
    if w.end % DAY == 0 && m < w.start {
      assert w.start - SECOND <= m;
      SecondsApart(m, w.start);
    }
  }

  /** Whole seconds are a second apart. */
  lemma SecondsApart(m: int, t: int)
    requires m % DAY == 0 && t % SECOND == 0 && m < t <= m + SECOND
    ensures t % DAY == SECOND
  {
    var k, j := m / DAY, t / SECOND;
    assert m == DAY * k && t == SECOND * j;
    assert j == 86_400 * k + 1;
    SecondOfDay(j);
    DayAndOne(k);
  }

  lemma DayAndOne(k: int)
    ensures (86_400 * k + 1) % 86_400 == 1
  {
  }

  /** A step is queried for exactly its own midnights if and only if it is not late. */
  lemma StepQueriesItsMidnights(s: Step)
    requires s.start <= s.end
    ensures (forall m :: m % DAY == 0 ==> (Queried(s, m) <==> Own(s, m))) <==> !Late(s)
  {
    hide Queried, Own, Late;
    if Late(s) {
      LateQueries(s);
    } else {
      forall m | m % DAY == 0 ensures Queried(s, m) <==> Own(s, m) {
        if Own(s, m) {
          OwnIsQueried(s, m);
        } else if Queried(s, m) {
          OthersAreOwn(s, m);
        }
      }
    }
  }

  /** The window 1586822401,1586995200 is billed for the midnight a second before it, 1586822400. */
  lemma OneSecondLate()
    ensures var s := Step(1_586_822_401 * SECOND, 1_586_995_200 * SECOND);
      Late(s) && Queried(s, 1_586_822_400 * SECOND) && (1_586_822_400 * SECOND) % DAY == 0 && !Own(s, 1_586_822_400 * SECOND)
  {
  }

  /** A step of 24h0.5s does not query the midnight half a second before its end; the next step does. */
  lemma HalfSeconds()
    ensures var s, t := Step(0, DAY + SECOND / 2), Step(DAY + SECOND / 2, 2 * DAY + SECOND);
      !Queried(s, DAY) && Queried(t, DAY) && !Own(s, DAY) && Own(t, DAY)
  {
  }

  /** Of all the steps the i-th, and no other, is queried for t. */
  ghost predicate QueriedOnlyBy(steps: seq<Step>, i: int, t: int) {
    0 <= i < |steps| && forall j :: 0 <= j < |steps| ==> (Queried(steps[j], t) <==> j == i)
  }

  /** Within [start, end) exactly one step is queried for t, outside none. */
  ghost predicate BilledOnce(steps: seq<Step>, start: int, end: int, t: int) {
    if start <= t < end then exists i :: QueriedOnlyBy(steps, i, t)
    else forall j :: 0 <= j < |steps| ==> !Queried(steps[j], t)
  }

  /** Steps, empty ones among them, that follow each other without a gap or an overlap. */
  ghost predicate Chain(steps: seq<Step>) {
    && steps != []
    && (forall i :: 0 <= i < |steps| ==> steps[i].start <= steps[i].end)
    && (forall i :: 0 <= i < |steps| - 1 ==> steps[i].end == steps[i + 1].start)
  }

  lemma {:induction false} ChainOrder(steps: seq<Step>, i: nat, j: nat)
    requires Chain(steps) && i < j < |steps|
    ensures Cut(steps[i].end) <= Cut(steps[j].start)
  {
    hide Cut;
    if i + 1 < j {
      ChainOrder(steps, i, j - 1);
      CutKeepsOrder(steps[j - 1].start, steps[j - 1].end);
    }
  }

  ghost predicate OwnedOnlyBy(steps: seq<Step>, i: int, t: int) {
    0 <= i < |steps| && forall j :: 0 <= j < |steps| ==> (Own(steps[j], t) <==> j == i)
  }

  /** Between the ends of a chain every moment is in exactly one written step, and no other moment is. */
  lemma {:induction false} OwnerOf(steps: seq<Step>, t: int) returns (i: nat)
    requires Chain(steps)
    ensures var a, b := Cut(steps[0].start), Cut(steps[|steps| - 1].end);
      if a <= t < b then OwnedOnlyBy(steps, i, t) else forall j :: 0 <= j < |steps| ==> !Own(steps[j], t)
  {
    hide Cut;
    var a, b := Cut(steps[0].start), Cut(steps[|steps| - 1].end);
    i := 0;
    if a <= t < b {
      while Cut(steps[i].end) <= t
        invariant 0 <= i < |steps| && Cut(steps[i].start) <= t
        decreases |steps| - i
      {
        i := i + 1;
      }
      forall j | 0 <= j < |steps| ensures Own(steps[j], t) <==> j == i {
        if j < i {
          ChainOrder(steps, j, i);
        } else if i < j {
          ChainOrder(steps, i, j);
        }
      }
    } else {
      forall j | 0 <= j < |steps| ensures a <= Cut(steps[j].start) && Cut(steps[j].end) <= b {
        ChainEnds(steps, j);
      }
    }
  }

  lemma ChainEnds(steps: seq<Step>, j: nat)
    requires Chain(steps) && j < |steps|
    ensures Cut(steps[0].start) <= Cut(steps[j].start) && Cut(steps[j].end) <= Cut(steps[|steps| - 1].end)
  {
    hide Cut;
    var n := |steps| - 1;
    CutKeepsOrder(steps[0].start, steps[0].end);
    CutKeepsOrder(steps[n].start, steps[n].end);
    if j > 0 {
      ChainOrder(steps, 0, j);
    }
    if j < n {
      ChainOrder(steps, j, n);
    }
  }

  /** A chain bills each of its midnights exactly once, and no other, if and only if no step of it is late. */
  lemma ChainBilledOnceExactly(steps: seq<Step>)
    requires Chain(steps)
    ensures
      (forall m :: m % DAY == 0 ==> BilledOnce(steps, Cut(steps[0].start), Cut(steps[|steps| - 1].end), m))
      <==> (forall j :: 0 <= j < |steps| ==> !Late(steps[j]))
  {
    hide Own, Late, Queried, Cut;
    var a, b := Cut(steps[0].start), Cut(steps[|steps| - 1].end);
    if j :| 0 <= j < |steps| && Late(steps[j]) {
      var m := Written(steps[j]).start - SECOND;
      LateQueries(steps[j]);
      LateIsBilledTwice(steps, j, m);
    } else {
      forall m | m % DAY == 0 ensures BilledOnce(steps, a, b, m) {
        forall j | 0 <= j < |steps| ensures Queried(steps[j], m) <==> Own(steps[j], m) {
          StepQueriesItsMidnights(steps[j]);
        }
        var i := OwnerOf(steps, m);
        assert a <= m < b ==> QueriedOnlyBy(steps, i, m);
      }
    }
  }

  /** A foreign midnight is queried by its owner as well, or lies outside. */
  lemma LateIsBilledTwice(steps: seq<Step>, j: nat, m: int)
    requires Chain(steps) && j < |steps| && m % DAY == 0 && Queried(steps[j], m) && !Own(steps[j], m)
    ensures !BilledOnce(steps, Cut(steps[0].start), Cut(steps[|steps| - 1].end), m)
  {
    hide Own, Queried, Cut;
    var k := OwnerOf(steps, m);
    if Cut(steps[0].start) <= m < Cut(steps[|steps| - 1].end) {
      OwnIsQueried(steps[k], m);
    }
  }

  function Max(x: int, y: int): int {
    if x < y then y else x
  }

  lemma StepsChain(start: int, end: int, size: int)
    requires size > 0 && start < end
    ensures var steps := Steps(start, end, size);
      Chain(steps) && steps[0].start == start && steps[|steps| - 1].end == Max(end, start + size)
  {
    hide Steps;
    var steps := Steps(start, end, size);
    LastStep(start, end, size);
    StepIs(start, end, size, 0);
    forall i | 0 <= i < |steps|
      ensures steps[i].start <= steps[i].end && (i < |steps| - 1 ==> steps[i].end == steps[i + 1].start)
    {
      StepIs(start, end, size, i);
    }
  }

  /**
   The steps of a range bill each midnight from its start to its end, or to the end of a first step that
   is longer, exactly once, and no other, if and only if no step is late.
   */
  lemma EachMidnightOnce(start: int, end: int, size: int)
    requires size > 0 && start < end
    ensures var steps := Steps(start, end, size);
      (forall m :: m % DAY == 0 ==> BilledOnce(steps, Cut(start), Cut(Max(end, start + size)), m))
      <==> (forall j :: 0 <= j < |steps| ==> !Late(steps[j]))
  {
    hide Steps, Late, BilledOnce, Cut, Chain;
    StepsChain(start, end, size);
    ChainBilledOnceExactly(Steps(start, end, size));
  }

  /** No step is late in steps of whole days from a midnight on. */
  lemma WholeDaysAreNotLate(start: int, end: int, size: int, j: nat)
    requires start % DAY == 0 && size > 0 && size % DAY == 0 && j < |Steps(start, end, size)|
    ensures !Late(Steps(start, end, size)[j])
  {
    hide Times, Steps;
    var s := Steps(start, end, size)[j];
    StepAt(start, end, size, j);
    MultipleOfDay(size, j);
    SumOfDays(start, Times(j, size));
    WholeSeconds(s.start);
  }

  lemma WholeSeconds(t: int)
    requires t % DAY == 0
    ensures Cut(t) == t
  {
    var k := t / DAY;
    assert t == SECOND * (86_400 * k);
    SecondOfDay(86_400 * k);
  }

  lemma MultipleOfDay(size: int, n: nat)
    requires size > 0 && size % DAY == 0
    ensures Times(n, size) % DAY == 0
  {
    var k := size / DAY;
    assert Times(n, size) == (n * k) * DAY;
  }

  lemma SumOfDays(x: int, y: int)
    requires x % DAY == 0 && y % DAY == 0
    ensures (x + y) % DAY == 0
  {
  }

  /** The default step is the duration of the window: one step, late only if the window is. */
  lemma DefaultStep(start: int, end: int)
    requires start < end
    ensures Steps(start, end, end - start) == [Step(start, end)]
  {
  }
}
