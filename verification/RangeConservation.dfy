/** What a range request returns for each of its steps accounts for the amount due. */
module RangeConservation {
  import opened Sums
  import opened Allocations
  import opened CostComputation
  import opened Conservation
  import opened NodeViews
  import opened Ranges
  import F = Filters
  import opened CostManager

  /** A filter that names at most clusters is used by all steps as it is, so idle cost is computed in all or none. */
  lemma ClusterFilterStays(c: Cluster, f: F.Content, i: nat)
    requires OnlyCluster(f)
    ensures FilterAt(c, f, i) == f
  {
    assert NoNameReused(c, f.controllerName);
    SameForAllSteps(c, f, i);
  }

  lemma SomethingShown(p: Params, filterEmpty: bool, a: Answers, w: Weights, start: int, end: int, views: map<string, View>)
    requires IsComputed(ModeOf(p, filterEmpty), p, a, w, start, end, views)
    requires var mode := ModeOf(p, filterEmpty);
      mode == Apart || a.pods != [] || (mode == ByNode && NodeTotal(a.nodeCosts) != 0.0)
    ensures views.Keys != {}
  {
    hide IdleView, PodView, NodeView, ShowsPod;
    var mode := ModeOf(p, filterEmpty);
    if mode == Apart {
      assert IDLE in IdleEntries(mode, p, a, w, start, end);
    } else if a.pods != [] {
      assert a.pods[|a.pods| - 1].meta in Records(a.pods);
    } else {
      IdleKeys(p, a, start, end, |a.nodeCosts|);
      assert IdleName(a.nodeCosts[0].node) in IdleEntries(mode, p, a, w, start, end);
    }
  }

  /**
   Money is conserved from the metrics to the response: with idle cost shown apart, shared by weight or
   shared evenly, what is returned for a step sums up to the amount due, and its ratios to one.
   */
  lemma ReturnedConserves(c: Cluster, p: Params, f: F.Content, s: Step, result: AllocationSet?)
    requires IsReturned(c, p, f, s, result)
    requires var mode, a := ModeOf(p, OnlyCluster(f)), c.metrics(s.start, s.end, f);
      && AccountsForAll(mode) && NamesDistinct(a)
      && (mode != Apart ==> a.pods != [] && !NoNumberStep(c, p, f, s))
      && (p.aggregate == "node" && p.idleByNode ==> NoIdleNames(a))
    ensures result != null
    ensures TotalOf(result.Views(), Cost) == AmountDue(p, c.metrics(s.start, s.end, f))
    ensures TotalOf(result.Views(), CostRatio) == 1.0
  {
    hide IsComputed, IsAggregate, TotalOf, AmountDue, NamesDistinct, NoIdleNames, DividesByZero;
    var a := c.metrics(s.start, s.end, f);
    var views :| IsStep(c, p, f, s, views) && (if views.Keys == {} then result == null
      else result != null && if p.aggregate == "pod" then result.Views() == views
                             else IsAggregate(p.aggregate, p.idleByNode, views, result.Views()));
    SomethingShown(p, OnlyCluster(f), a, c.weights, s.start, s.end, views);
    if p.aggregate == "pod" {
      ComputedConserves(ModeOf(p, OnlyCluster(f)), p, a, c.weights, s.start, s.end, views);
    } else {
      AggregateConserves(p, OnlyCluster(f), a, c.weights, s.start, s.end, views, result.Views());
    }
  }

  /** With idle cost by node each idle entry is its node's part of the whole less the cost of the pods on it. */
  lemma ReturnedByNode(c: Cluster, p: Params, f: F.Content, s: Step, result: AllocationSet?, g: Field)
    requires IsReturned(c, p, f, s, result) && ModeOf(p, OnlyCluster(f)) == ByNode && (g == Cost || g == CostRatio)
    requires var a := c.metrics(s.start, s.end, f);
      WellNamed(a) && NodeTotal(a.nodeCosts) != 0.0
    ensures result != null
    ensures var a := c.metrics(s.start, s.end, f);
      forall i :: 0 <= i < |a.nodeCosts| ==>
        var k := IdleName(a.nodeCosts[i].node);
        && k in result.Views()
        && result.Views()[k].figures.Get(g) == NodeShare(p, a, a.nodeCosts[i].value, g)
             - SumOver(OnNode(a, a.nodeCosts[i].node), PodFigure(p, a, c.weights, g))
    ensures var a := c.metrics(s.start, s.end, f);
      TotalOf(result.Views(), g) == Whole(p, a, g) + SumOver(Elsewhere(a), PodFigure(p, a, c.weights, g))
  {
    hide IsComputed, IsAggregate, TotalOf, WellNamed, NodeShare, OnNode, PodFigure, NodeTotal, Whole, Elsewhere, SumOver, IdleName;
    var a := c.metrics(s.start, s.end, f);
    var views :| IsStep(c, p, f, s, views) && (if views.Keys == {} then result == null
      else result != null && if p.aggregate == "pod" then result.Views() == views
                             else IsAggregate(p.aggregate, p.idleByNode, views, result.Views()));
    SomethingShown(p, OnlyCluster(f), a, c.weights, s.start, s.end, views);
    forall i | 0 <= i < |a.nodeCosts|
      ensures var k := IdleName(a.nodeCosts[i].node);
        && k in result.Views()
        && result.Views()[k].figures.Get(g) == NodeShare(p, a, a.nodeCosts[i].value, g)
             - SumOver(OnNode(a, a.nodeCosts[i].node), PodFigure(p, a, c.weights, g))
    {
      IdleOfNode(p, a, c.weights, s.start, s.end, views, result.Views(), i, g);
    }
    NodeViewTotal(p, a, c.weights, s.start, s.end, views, result.Views(), g);
  }
}
