/** Money is conserved: from the metrics of a window to the regrouped set that is returned. */
module Conservation {
  import opened Sums
  import opened Allocations
  import opened CostComputation

  /** No two pods of the window have the same "namespace/pod" name. */
  ghost predicate NamesDistinct(a: Answers) {
    forall j, k :: j in Records(a.pods) && k in Records(a.pods) && j.Name() == k.Name() ==> j == k
  }

  lemma NamesDiffer(j: PodMeta, k: PodMeta)
    requires '/' !in j.namespace && '/' !in k.namespace && j.Name() == k.Name()
    ensures j == k
  {
    var m, n := |j.namespace|, |k.namespace|;
    assert j.Name()[m] == '/' == k.Name()[n];
    assert forall i :: 0 <= i < m ==> j.Name()[i] == j.namespace[i];
    assert forall i :: 0 <= i < n ==> k.Name()[i] == k.namespace[i];
    assert m == n;
    assert j.Name()[..m] == j.namespace && k.Name()[..m] == k.namespace;
    assert j.Name()[m + 1..] == j.pod && k.Name()[m + 1..] == k.pod;
  }

  /** Kubernetes namespaces hold no slash, so its pods have distinct names. */
  lemma SlashFreeNamesAreDistinct(a: Answers)
    requires forall k :: k in Records(a.pods) ==> '/' !in k.namespace
    ensures NamesDistinct(a)
  {
    forall j, k | j in Records(a.pods) && k in Records(a.pods) && j.Name() == k.Name() ensures j == k {
      NamesDiffer(j, k);
    }
  }

  ghost function PodNames(a: Answers): set<string> {
    set k | k in Records(a.pods) :: k.Name()
  }

  /** A figure summed over the pods. */
  ghost function PodSum(mode: IdleMode, p: Params, a: Answers, w: Weights, f: Field): real
    requires f == Cost || f == CostRatio
  {
    if f == Cost then SumOver(Records(a.pods).Keys, k => FinalCost(mode, p, a, w, k))
    else SumOver(Records(a.pods).Keys, k => FinalRatio(mode, p, a, w, k))
  }

  lemma KeysAre(mode: IdleMode, p: Params, a: Answers, w: Weights, start: int, end: int, views: map<string, View>)
    requires IsComputed(mode, p, a, w, start, end, views)
    ensures views.Keys == PodNames(a) + IdleEntries(mode, p, a, w, start, end).Keys
  {
    hide IdleEntries, Records, PodView, PodMeta.Name;
    var idle := IdleEntries(mode, p, a, w, start, end);
    forall n | n in views && n !in idle ensures n in PodNames(a) {
      assert ShowsPod(mode, p, a, w, start, end, n, views[n]);
    }
  }

  lemma PodEntry(mode: IdleMode, p: Params, a: Answers, w: Weights, start: int, end: int, views: map<string, View>, k: PodMeta)
    requires IsComputed(mode, p, a, w, start, end, views) && NamesDistinct(a)
    requires k in Records(a.pods) && k.Name() !in IdleEntries(mode, p, a, w, start, end)
    ensures k.Name() in views && views[k.Name()] == PodView(mode, p, a, w, start, end, k)
  {
    hide IdleEntries, Records, PodView, PodMeta.Name;
    assert ShowsPod(mode, p, a, w, start, end, k.Name(), views[k.Name()]);
  }

  /** The pods' entries sum up to the sum over the pods. */
  lemma PodEntriesSum(mode: IdleMode, p: Params, a: Answers, w: Weights, start: int, end: int, views: map<string, View>, f: Field)
    requires IsComputed(mode, p, a, w, start, end, views) && NamesDistinct(a) && (f == Cost || f == CostRatio)
    requires PodNames(a) !! IdleEntries(mode, p, a, w, start, end).Keys
    ensures SumOf(views, PodNames(a), f) == PodSum(mode, p, a, w, f)
  {
    hide IdleEntries, Records, PodMeta.Name, SumOver, FinalCost, FinalRatio, IsComputed;
    var cost := k => FinalCost(mode, p, a, w, k);
    var ratio := k => FinalRatio(mode, p, a, w, k);
    var g := if f == Cost then cost else ratio;
    forall k | k in Records(a.pods) ensures g(k) == FigureOf(views, k.Name(), f) {
      assert k.Name() in PodNames(a);
      PodEntry(mode, p, a, w, start, end, views, k);
    }
    SumImage(Records(a.pods).Keys, (k: PodMeta) => k.Name(), PodNames(a), n => FigureOf(views, n, f), g);
  }

  // ---------------------------------------------------------------------------------------
  // What the pods' costs sum up to
  // ---------------------------------------------------------------------------------------

  lemma Reweighted(base: real, due: real, total: real)
    requires total != 0.0
    ensures base + Proportion(due - total, base, total) == base * (due / total)
  {
    assert (due - total) * base / total == due * base / total - base;
  }

  lemma WeightedSum(p: Params, a: Answers, w: Weights)
    requires PodTotal(p, a, w) != 0.0
    ensures PodSum(SharedByWeight, p, a, w, Cost) == AmountDue(p, a)
  {
    hide SumOver, AmountDue, PodCost, Records, Proportion;
    var total, due := PodTotal(p, a, w), AmountDue(p, a);
    var base, final := k => PodCost(p, a, w, k), k => FinalCost(SharedByWeight, p, a, w, k);
    forall k ensures final(k) == base(k) * (due / total) {
      Reweighted(base(k), due, total);
    }
    SumScale(Records(a.pods).Keys, base, due / total, final);
    assert total * (due / total) == due;
  }

  lemma EvenSum(p: Params, a: Answers, w: Weights)
    requires a.pods != []
    ensures PodSum(SharedEvenly, p, a, w, Cost) == AmountDue(p, a)
  {
    hide SumOver, AmountDue, PodCost, Records;
    RecordsEmpty(a.pods);
    var recs := Records(a.pods);
    var n := |recs| as real;
    var idle := IdleCost(p, a, w);
    var part := Quotient(idle, n);
    assert |recs.Keys| == |recs|;
    SumShift(recs.Keys, k => PodCost(p, a, w, k), part, k => FinalCost(SharedEvenly, p, a, w, k));
    assert n * part == idle;
  }

  lemma RatioSum(mode: IdleMode, p: Params, a: Answers, w: Weights)
    requires mode == SharedByWeight || mode == SharedEvenly
    requires AmountDue(p, a) != 0.0 && PodSum(mode, p, a, w, Cost) == AmountDue(p, a)
    ensures PodSum(mode, p, a, w, CostRatio) == 1.0
  {
    hide SumOver, AmountDue, FinalCost, Records;
    var due := AmountDue(p, a);
    var cost, ratio := k => FinalCost(mode, p, a, w, k), k => FinalRatio(mode, p, a, w, k);
    forall k ensures ratio(k) == cost(k) * (1.0 / due) {
      QuotientIs(cost(k), due);
    }
    SumScale(Records(a.pods).Keys, cost, 1.0 / due, ratio);
    assert due * (1.0 / due) == 1.0;
  }

  lemma QuotientIs(x: real, y: real)
    requires y != 0.0
    ensures Quotient(x, y) == x * (1.0 / y)
  {
  }

  lemma UnsharedSums(mode: IdleMode, p: Params, a: Answers, w: Weights)
    requires !mode.SharedByWeight? && !mode.SharedEvenly?
    ensures PodSum(mode, p, a, w, Cost) == PodTotal(p, a, w)
    ensures PodSum(mode, p, a, w, CostRatio) == RatioTotal(a, w)
  {
    hide SumOver, AmountDue, PodCost, EstimatedRatio, Records;
    SumSame(Records(a.pods).Keys, k => FinalCost(mode, p, a, w, k), k => PodCost(p, a, w, k));
    SumSame(Records(a.pods).Keys, k => FinalRatio(mode, p, a, w, k), k => EstimatedRatio(a, w, k));
  }

  // ---------------------------------------------------------------------------------------
  // One window
  // ---------------------------------------------------------------------------------------

  lemma IdleIsNoPodName(a: Answers)
    ensures IDLE !in PodNames(a)
  {
    forall k | k in Records(a.pods) ensures k.Name() != IDLE {
      assert k.Name()[|k.namespace|] == '/';
      assert '/' !in IDLE;
    }
  }

  /** The sum over a computed set: the pods' sum and the idle entries' sum. */
  lemma TotalIs(mode: IdleMode, p: Params, a: Answers, w: Weights, start: int, end: int, views: map<string, View>, f: Field)
    requires IsComputed(mode, p, a, w, start, end, views) && NamesDistinct(a) && (f == Cost || f == CostRatio)
    requires PodNames(a) !! IdleEntries(mode, p, a, w, start, end).Keys
    ensures TotalOf(views, f) == PodSum(mode, p, a, w, f) + TotalOf(IdleEntries(mode, p, a, w, start, end), f)
  {
    hide IdleEntries, Records, PodMeta.Name, SumOver, NamesDistinct, PodSum, PodNames, ShowsPod;
    var idle := IdleEntries(mode, p, a, w, start, end);
    KeysAre(mode, p, a, w, start, end, views);
    PodEntriesSum(mode, p, a, w, start, end, views, f);
    SumUnion(PodNames(a), idle.Keys, n => FigureOf(views, n, f));
    SumSame(idle.Keys, n => FigureOf(views, n, f), n => FigureOf(idle, n, f));
  }

  predicate AccountsForAll(mode: IdleMode) {
    mode == Apart || mode == SharedByWeight || mode == SharedEvenly
  }

  lemma {:induction false} ApartTotal(p: Params, a: Answers, w: Weights, start: int, end: int)
    ensures TotalOf(IdleEntries(Apart, p, a, w, start, end), Cost) == IdleCost(p, a, w)
    ensures TotalOf(IdleEntries(Apart, p, a, w, start, end), CostRatio) == 1.0 - RatioTotal(a, w)
  {
    hide SumOver, IdleCost, RatioTotal;
    var idle := IdleEntries(Apart, p, a, w, start, end);
    assert idle.Keys == {IDLE};
    SumOne(IDLE, n => FigureOf(idle, n, Cost));
    SumOne(IDLE, n => FigureOf(idle, n, CostRatio));
  }

  lemma NothingIdle(mode: IdleMode, p: Params, a: Answers, w: Weights, start: int, end: int, f: Field)
    requires mode != Apart && mode != ByNode
    ensures TotalOf(IdleEntries(mode, p, a, w, start, end), f) == 0.0
  {
    assert IdleEntries(mode, p, a, w, start, end).Keys == {};
  }

  /**
   With idle cost accounted for, each computed set sums up to the amount due and its ratios to one:
   always if idle cost is shown apart; if it is shared, given a pod to share it and figures to divide by.
   */
  lemma ComputedConserves(mode: IdleMode, p: Params, a: Answers, w: Weights, start: int, end: int, views: map<string, View>)
    requires AccountsForAll(mode) && NamesDistinct(a) && IsComputed(mode, p, a, w, start, end, views)
    requires mode != Apart ==> a.pods != [] && !DividesByZero(mode, p, a, w)
    ensures TotalOf(views, Cost) == AmountDue(p, a)
    ensures TotalOf(views, CostRatio) == 1.0
  {
    hide IsComputed, PodTotal, RatioTotal, AmountDue, NamesDistinct, Records, SumOver, TotalOf, PodSum;
    IdleIsNoPodName(a);
    TotalIs(mode, p, a, w, start, end, views, Cost);
    TotalIs(mode, p, a, w, start, end, views, CostRatio);
    if mode == Apart {
      ApartTotal(p, a, w, start, end);
      UnsharedSums(mode, p, a, w);
    } else {
      NothingIdle(mode, p, a, w, start, end, Cost);
      NothingIdle(mode, p, a, w, start, end, CostRatio);
      if mode == SharedByWeight {
        WeightedSum(p, a, w);
      } else {
        EvenSum(p, a, w);
      }
      RatioSum(mode, p, a, w);
    }
  }

  /** Without pods sharing leaves an empty set, which conserves the amount due exactly when that is zero. */
  lemma SharingNeedsPods(mode: IdleMode, p: Params, a: Answers, w: Weights, start: int, end: int, views: map<string, View>)
    requires mode == SharedByWeight || mode == SharedEvenly
    requires a.pods == [] && IsComputed(mode, p, a, w, start, end, views)
    ensures TotalOf(views, Cost) == AmountDue(p, a) <==> AmountDue(p, a) == 0.0
    ensures TotalOf(views, CostRatio) != 1.0
  {
    hide AmountDue;
    KeysAre(mode, p, a, w, start, end, views);
    assert views.Keys == {};
  }
}
