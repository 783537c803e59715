/** What the parameters of a request mean for the computed set of a window. */
module RequestMeaning {
  import opened Wrappers
  import opened GoStrings
  import opened LastWriter
  import opened Allocations
  import opened CostComputation
  import opened Conservation
  import opened NodeViews

  // ---------------------------------------------------------------------------------------
  // Prices
  // ---------------------------------------------------------------------------------------

  /** The i-th record is the first one of its pod. */
  ghost predicate IsFirstRecord(pods: seq<PodRecord>, i: int) {
    0 <= i < |pods| && forall j :: 0 <= j < i ==> pods[j].meta != pods[i].meta
  }

  /** The pods of a window are those that have a record; the first one counts. */
  lemma {:induction false} FirstRecordCounts(pods: seq<PodRecord>, i: int)
    requires IsFirstRecord(pods, i)
    ensures pods[i].meta in Records(pods) && Records(pods)[pods[i].meta] == pods[i]
  {
    var n := |pods| - 1;
    if i < n {
      FirstRecordCounts(pods[..n], i);
    } else if pods[n].meta in Records(pods[..n]) {
      var j := RecordOf(pods[..n], pods[n].meta);
      assert false;
    }
  }

  lemma {:induction false} RecordOf(pods: seq<PodRecord>, k: PodMeta) returns (i: nat)
    requires k in Records(pods)
    ensures IsFirstRecord(pods, i) && pods[i].meta == k && Records(pods)[k] == pods[i]
  {
    var n := |pods| - 1;
    if k in Records(pods[..n]) {
      i := RecordOf(pods[..n], k);
    } else {
      i := n;
      forall j | 0 <= j < n ensures pods[j].meta != k {
        if pods[j].meta == k {
          RecordedIsKept(pods[..n], j);
          assert false;
        }
      }
    }
  }

  lemma {:induction false} RecordedIsKept(pods: seq<PodRecord>, j: nat)
    requires j < |pods|
    ensures pods[j].meta in Records(pods)
  {
    if j < |pods| - 1 {
      RecordedIsKept(pods[..|pods| - 1], j);
    }
  }

  /** An estimate is a whole number of thousandths, as near to the weighted cost as can be. */
  lemma EstimateIsNear(w: Weights, costCPU: real, costRAM: real) returns (thousandths: int)
    ensures var x := costCPU * w.cpu + costRAM * w.ram;
      && Estimate(w, costCPU, costRAM) == thousandths as real / 1000.0
      && x - 0.0005 <= Estimate(w, costCPU, costRAM) <= x + 0.0005
  {
    hide Estimate;
    var x := Weighted(w, costCPU, costRAM);
    thousandths := RoundedEstimate(w, costCPU, costRAM, x);
  }

  lemma RoundedEstimate(w: Weights, costCPU: real, costRAM: real, x: real) returns (n: int)
    requires x == Weighted(w, costCPU, costRAM)
    ensures Estimate(w, costCPU, costRAM) == n as real / 1000.0
    ensures x - 0.0005 <= Estimate(w, costCPU, costRAM) <= x + 0.0005
  {
    hide RoundThousandths, Weighted;
    n := Rounded(x);
  }

  lemma Rounded(x: real) returns (n: int)
    ensures RoundThousandths(x) == n as real / 1000.0 && x - 0.0005 <= RoundThousandths(x) <= x + 0.0005
  {
    var y := x * 1000.0;
    n := if y >= 0.0 then (y + 0.5).Floor else -(0.5 - y).Floor;
  }

  /** Halves of a thousandth are rounded away from zero. */
  lemma HalvesAwayFromZero(n: nat)
    ensures RoundThousandths((n as real + 0.5) / 1000.0) == (n + 1) as real / 1000.0
    ensures RoundThousandths(-(n as real + 0.5) / 1000.0) == -((n + 1) as real) / 1000.0
  {
    assert (n as real + 0.5) / 1000.0 * 1000.0 == n as real + 0.5;
    assert -(n as real + 0.5) / 1000.0 * 1000.0 == -(n as real + 0.5);
  }

  /** The amount due: the nodes' cost, or the bill for the target and the cost type, which is zero if there is none. */
  lemma AmountsDue(p: Params, a: Answers)
    ensures p.apiType == TypeCost ==> AmountDue(p, a) == NodeTotal(a.nodeCosts)
    ensures p.apiType == TypeAllocation && p.targetType == "cluster" && p.costType == PretaxAmount ==> AmountDue(p, a) == a.pretaxTotal
    ensures p.apiType == TypeAllocation && p.targetType == "cluster" && p.costType == PretaxGrossAmount ==>
      AmountDue(p, a) == a.pretaxGrossTotal
    ensures p.apiType == TypeAllocation && p.targetType == "node" && p.costType == PretaxAmount ==> AmountDue(p, a) == a.pretaxNode
    ensures p.apiType == TypeAllocation && p.targetType == "node" && p.costType != PretaxAmount ==> AmountDue(p, a) == 0.0
    ensures p.apiType == TypeAllocation && p.costType == CostEstimated ==> AmountDue(p, a) == 0.0
  {
  }

  /** A pod's cost before sharing: its estimate, or the bill in the proportion of the estimate to the nodes' cost. */
  lemma PodCostIs(p: Params, a: Answers, w: Weights, i: int)
    requires IsFirstRecord(a.pods, i)
    ensures var rec, nodes := a.pods[i], NodeTotal(a.nodeCosts);
      var estimate := Estimate(w, rec.costCPU, rec.costRAM);
      && (p.apiType == TypeCost ==> PodCost(p, a, w, rec.meta) == estimate)
      && (nodes != 0.0 ==> EstimatedRatio(a, w, rec.meta) * nodes == estimate)
      && (p.apiType == TypeAllocation && nodes != 0.0 ==> PodCost(p, a, w, rec.meta) * nodes == estimate * AmountDue(p, a))
      && (nodes == 0.0 ==> EstimatedRatio(a, w, rec.meta) == 0.0)
      && (p.apiType == TypeAllocation && nodes == 0.0 ==> PodCost(p, a, w, rec.meta) == 0.0)
  {
    hide Estimate, NodeTotal, AmountDue, Records;
    FirstRecordCounts(a.pods, i);
    var estimate, nodes := Estimate(w, a.pods[i].costCPU, a.pods[i].costRAM), NodeTotal(a.nodeCosts);
    if nodes != 0.0 {
      InProportion(estimate, nodes, AmountDue(p, a));
    }
  }

  lemma InProportion(part: real, whole: real, due: real)
    requires whole != 0.0
    ensures Quotient(part, whole) * whole == part
    ensures Quotient(part, whole) * due * whole == part * due
  {
    assert Quotient(part, whole) * due * whole == Quotient(part, whole) * whole * due;
  }

  // ---------------------------------------------------------------------------------------
  // Outcomes
  // ---------------------------------------------------------------------------------------

  /** A request is rejected for exactly these parameters. */
  lemma RejectedExactly(p: Params, filterEmpty: bool, a: Answers)
    ensures InvalidParameter(ModeOf(p, filterEmpty), p, a) <==>
      || (p.apiType == TypeAllocation && p.targetType != "cluster" && p.targetType != "node")
      || (p.idle && filterEmpty && p.shareIdle && p.shareSplit != "weighted" && p.shareSplit != "even" && a.pods != [])
  {
  }

  /** Figures are not finite for exactly these divisors. */
  lemma NotFiniteExactly(p: Params, filterEmpty: bool, a: Answers, w: Weights)
    ensures DividesByZero(ModeOf(p, filterEmpty), p, a, w) <==>
      && p.idle && filterEmpty
      && if p.shareIdle then
           && a.pods != [] && p.shareSplit in {"weighted", "even"}
           && (AmountDue(p, a) == 0.0 || (p.shareSplit == "weighted" && PodTotal(p, a, w) == 0.0))
         else p.aggregate == "node" && p.idleByNode && a.nodeCosts != [] && NodeTotal(a.nodeCosts) == 0.0
  {
    hide AmountDue, PodTotal, NodeTotal;
  }

  // ---------------------------------------------------------------------------------------
  // The computed set
  // ---------------------------------------------------------------------------------------

  /** Pods have names of their own, which matters for idle entries only in the node view with idle cost by node. */
  ghost predicate OwnNames(p: Params, a: Answers) {
    NamesDistinct(a) && (p.aggregate == "node" && p.idleByNode ==> NoIdleNames(a))
  }

  /** views is what the computation of a request returns. */
  ghost predicate IsAnswer(
    p: Params, filterEmpty: bool, a: Answers, w: Weights, start: int, end: int, views: map<string, View>)
  {
    && OwnNames(p, a)
    && IsComputed(ModeOf(p, filterEmpty), p, a, w, start, end, views)
    && !InvalidParameter(ModeOf(p, filterEmpty), p, a) && !DividesByZero(ModeOf(p, filterEmpty), p, a, w)
  }

  lemma NamesApart(p: Params, filterEmpty: bool, a: Answers, w: Weights, start: int, end: int)
    requires OwnNames(p, a)
    ensures PodNames(a) !! IdleEntries(ModeOf(p, filterEmpty), p, a, w, start, end).Keys
  {
    hide Records;
    IdleIsNoPodName(a);
    if p.aggregate == "node" && p.idleByNode {
      IdleApartFromPods(p, a, w, start, end);
    }
  }

  lemma PodShownAs(p: Params, filterEmpty: bool, a: Answers, w: Weights, start: int, end: int, views: map<string, View>, k: PodMeta)
    requires IsAnswer(p, filterEmpty, a, w, start, end, views) && k in Records(a.pods)
    ensures k.Name() in views && views[k.Name()] == PodView(ModeOf(p, filterEmpty), p, a, w, start, end, k)
  {
    hide IsComputed, Records, PodView, ModeOf, PodMeta.Name;
    NamesApart(p, filterEmpty, a, w, start, end);
    assert k.Name() in PodNames(a);
    PodEntry(ModeOf(p, filterEmpty), p, a, w, start, end, views, k);
  }

  /** A pod's entry says what its first record says, for the window of the request. */
  lemma PodKeepsItsRecord(p: Params, filterEmpty: bool, a: Answers, w: Weights, start: int, end: int, views: map<string, View>,
                          i: int)
    requires IsAnswer(p, filterEmpty, a, w, start, end, views) && IsFirstRecord(a.pods, i)
    ensures var rec := a.pods[i];
      var name := rec.meta.namespace + "/" + rec.meta.pod;
      && name in views && views[name].name == name
      && views[name].properties == Some(rec.properties) && views[name].start == start && views[name].end == end
      && forall f :: f != Cost && f != CostRatio ==> views[name].figures.Get(f) == rec.usage.Get(f)
  {
    hide IsAnswer, Records, FinalCost, FinalRatio, ModeOf;
    FirstRecordCounts(a.pods, i);
    PodShownAs(p, filterEmpty, a, w, start, end, views, a.pods[i].meta);
  }

  /** The cost that is shown of a pod. */
  ghost function CostOf(views: map<string, View>, k: PodMeta): real {
    FigureOf(views, k.Name(), Cost)
  }

  ghost function RatioOf(views: map<string, View>, k: PodMeta): real {
    FigureOf(views, k.Name(), CostRatio)
  }

  lemma ShownFigures(p: Params, filterEmpty: bool, a: Answers, w: Weights, start: int, end: int, views: map<string, View>, k: PodMeta)
    requires IsAnswer(p, filterEmpty, a, w, start, end, views) && k in Records(a.pods)
    ensures CostOf(views, k) == FinalCost(ModeOf(p, filterEmpty), p, a, w, k)
    ensures RatioOf(views, k) == FinalRatio(ModeOf(p, filterEmpty), p, a, w, k)
  {
    hide IsAnswer, Records, FinalCost, FinalRatio, ModeOf, PodMeta.Name;
    PodShownAs(p, filterEmpty, a, w, start, end, views, k);
  }

  /** Sharing by weight: every pod has the same part of the amount due as of all the pods' costs. */
  lemma WeightedMeansByWeight(p: Params, a: Answers, w: Weights, start: int, end: int, views: map<string, View>, k: PodMeta)
    requires p.idle && p.shareIdle && p.shareSplit == "weighted" && IsAnswer(p, true, a, w, start, end, views)
    requires k in Records(a.pods)
    ensures CostOf(views, k) * PodTotal(p, a, w) == PodCost(p, a, w, k) * AmountDue(p, a)
    ensures RatioOf(views, k) * AmountDue(p, a) == CostOf(views, k)
  {
    hide Records, AmountDue, PodTotal, PodCost, OwnNames, IsComputed, Proportion;
    RecordsEmpty(a.pods);
    ShownFigures(p, true, a, w, start, end, views, k);
    var base, due, total := PodCost(p, a, w, k), AmountDue(p, a), PodTotal(p, a, w);
    PodsExist(a, k);
    Reweighted(base, due, total);
    InProportion(base * due, total, 1.0);
    ByWeight(base, due, total);
    InProportion(CostOf(views, k), due, 1.0);
  }

  lemma ByWeight(base: real, due: real, total: real)
    requires total != 0.0
    ensures base * (due / total) * total == base * due
  {
    assert base * (due / total) * total == base * ((due / total) * total);
  }

  lemma PodsExist(a: Answers, k: PodMeta)
    requires k in Records(a.pods)
    ensures a.pods != []
  {
  }

  /** Sharing evenly: sharing adds the same amount to every pod. */
  lemma EvenMeansEvenly(p: Params, a: Answers, w: Weights, start: int, end: int, views: map<string, View>, j: PodMeta, k: PodMeta)
    requires p.idle && p.shareIdle && p.shareSplit == "even" && IsAnswer(p, true, a, w, start, end, views)
    requires j in Records(a.pods) && k in Records(a.pods)
    ensures CostOf(views, j) - CostOf(views, k) == PodCost(p, a, w, j) - PodCost(p, a, w, k)
    ensures RatioOf(views, k) * AmountDue(p, a) == CostOf(views, k)
  {
    hide Records, AmountDue, PodTotal, PodCost, OwnNames, IsComputed, IdleCost;
    PodsExist(a, k);
    ShownFigures(p, true, a, w, start, end, views, j);
    ShownFigures(p, true, a, w, start, end, views, k);
    InProportion(CostOf(views, k), AmountDue(p, a), 1.0);
  }

  /** Otherwise pods show their own cost, and the ratio of their estimate. */
  lemma UnsharedPodsKeepTheirCost(p: Params, filterEmpty: bool, a: Answers, w: Weights, start: int, end: int,
                                  views: map<string, View>, k: PodMeta)
    requires !(p.idle && filterEmpty && p.shareIdle) && IsAnswer(p, filterEmpty, a, w, start, end, views) && k in Records(a.pods)
    ensures CostOf(views, k) == PodCost(p, a, w, k) && RatioOf(views, k) == EstimatedRatio(a, w, k)
  {
    hide Records, PodCost, EstimatedRatio, IsAnswer;
    ShownFigures(p, filterEmpty, a, w, start, end, views, k);
  }

  /**
   The entries: one per pod, and with idle cost asked for, not shared and no filter, either one per node
   of the cost list, for nodes by node, or else a single one.
   */
  lemma EntriesAre(p: Params, filterEmpty: bool, a: Answers, w: Weights, start: int, end: int, views: map<string, View>, n: string)
    requires IsAnswer(p, filterEmpty, a, w, start, end, views)
    ensures n in views <==>
      || (exists i :: 0 <= i < |a.pods| && n == a.pods[i].meta.Name())
      || (p.idle && filterEmpty && !p.shareIdle
            && if p.aggregate == "node" && p.idleByNode
               then exists i :: 0 <= i < |a.nodeCosts| && n == "idle:" + a.nodeCosts[i].node
               else n == "__idle__")
  {
    hide Records, IsComputed, PodMeta.Name, OwnNames, FromEntries, InvalidParameter, DividesByZero;
    KeysAre(ModeOf(p, filterEmpty), p, a, w, start, end, views);
    PodNamesAre(a, n);
    IdleKeys(p, a, start, end, |a.nodeCosts|);
  }

  lemma PodNamesAre(a: Answers, n: string)
    ensures n in PodNames(a) <==> exists i :: 0 <= i < |a.pods| && n == a.pods[i].meta.Name()
  {
    hide PodMeta.Name;
    if n in PodNames(a) {
      var k :| k in Records(a.pods) && k.Name() == n;
      var i := RecordOf(a.pods, k);
    }
    forall i | 0 <= i < |a.pods| ensures a.pods[i].meta in Records(a.pods) {
      RecordedIsKept(a.pods, i);
    }
  }

  /** An idle entry says nothing but its name, the window, a cost and a ratio. */
  lemma IdleEntriesSay(p: Params, filterEmpty: bool, a: Answers, w: Weights, start: int, end: int, views: map<string, View>,
                       n: string)
    requires IsAnswer(p, filterEmpty, a, w, start, end, views) && n in views && n !in PodNames(a)
    ensures views[n].name == n && views[n].properties == None && views[n].start == start && views[n].end == end
    ensures forall f :: f != Cost && f != CostRatio ==> views[n].figures.Get(f) == 0.0
    ensures n == "__idle__" ==>
      && views[n].figures.Get(Cost) == AmountDue(p, a) - PodTotal(p, a, w)
      && views[n].figures.Get(CostRatio) == 1.0 - RatioTotal(a, w)
  {
    hide Records, IsComputed, PodMeta.Name, OwnNames, InvalidParameter, DividesByZero, AmountDue, PodTotal, RatioTotal,
         FromEntries, NodeTotal;
    var idle := IdleEntries(ModeOf(p, filterEmpty), p, a, w, start, end);
    KeysAre(ModeOf(p, filterEmpty), p, a, w, start, end, views);
    IdleShownAsIs(ModeOf(p, filterEmpty), p, a, w, start, end, views, n);
    if ModeOf(p, filterEmpty) == ByNode {
      IdleSays(p, a, start, end, |a.nodeCosts|, n);
      NoNodeIsIdle(p, a, start, end, |a.nodeCosts|);
    }
  }

  lemma IdleShownAsIs(mode: IdleMode, p: Params, a: Answers, w: Weights, start: int, end: int, views: map<string, View>, n: string)
    requires IsComputed(mode, p, a, w, start, end, views) && n in IdleEntries(mode, p, a, w, start, end)
    ensures n in views && views[n] == IdleEntries(mode, p, a, w, start, end)[n]
  {
  }

  lemma {:induction false} IdleSays(p: Params, a: Answers, start: int, end: int, n: nat, name: string)
    requires n <= |a.nodeCosts| && name in FromEntries(NodeEntries(p, a, start, end, n))
    ensures var v := FromEntries(NodeEntries(p, a, start, end, n))[name];
      && v.name == name && v.properties == None && v.start == start && v.end == end
      && forall f :: f != Cost && f != CostRatio ==> v.figures.Get(f) == 0.0
  {
    hide AmountDue, NodeTotal, FromEntries;
    if n == 0 {
      NoEntriesAtAll();
      assert false;
    } else {
      var v := NodeView(p, a, start, end, a.nodeCosts[n - 1]);
      FromAppend(NodeEntries(p, a, start, end, n - 1), v.name, v);
      if name != v.name {
        IdleSays(p, a, start, end, n - 1, name);
      }
    }
  }

  lemma NoEntriesAtAll()
    ensures forall name: string :: name !in FromEntries<string, View>([])
  {
  }

  lemma NoNodeIsIdle(p: Params, a: Answers, start: int, end: int, n: nat)
    requires n <= |a.nodeCosts|
    ensures "__idle__" !in FromEntries(NodeEntries(p, a, start, end, n))
  {
    hide FromEntries;
    IdleKeys(p, a, start, end, n);
    forall i | 0 <= i < n ensures IdleName(a.nodeCosts[i].node) != "__idle__" {
      assert IdleName(a.nodeCosts[i].node)[0] == 'i' && "__idle__"[0] == '_';
    }
  }
}
