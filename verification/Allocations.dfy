/**
 Cost allocations and their regrouping (types/allocation.go). Allocations are heap objects: a set
 refers to them, and what another reference does to one of them shows in the set.

 Figures are real numbers; float rounding is not modelled.
 */
module Allocations {
  import opened Wrappers
  import opened GoStrings
  import opened LastWriter
  import opened Sums

  const IDLE_PREFIX := "idle:"
  const IDLE := "__idle__"
  const UNALLOCATED := "__unallocated__"

  datatype Properties = Properties(
    cluster: string, node: string, controller: string, controllerKind: string,
    namespace: string, pod: string, labels: map<string, string>, providerID: string)

  /** The seven numeric fields of an allocation. */
  datatype Field = CPURequest | CPUUsage | RAMRequest | RAMUsage | Cost | CostRatio | CustomCost

  datatype Figures = Figures(
    cpuRequest: real, cpuUsage: real, ramRequest: real, ramUsage: real, cost: real, costRatio: real, customCost: real)
  {
    function Get(f: Field): real {
      match f
      case CPURequest => cpuRequest
      case CPUUsage => cpuUsage
      case RAMRequest => ramRequest
      case RAMUsage => ramUsage
      case Cost => cost
      case CostRatio => costRatio
      case CustomCost => customCost
    }

    function Plus(that: Figures): Figures {
      Figures(
        cpuRequest + that.cpuRequest, cpuUsage + that.cpuUsage,
        ramRequest + that.ramRequest, ramUsage + that.ramUsage,
        cost + that.cost, costRatio + that.costRatio, customCost + that.customCost)
    }
  }

  /** What an allocation says at one moment. */
  datatype View = Shown(name: string, properties: Option<Properties>, start: int, end: int, figures: Figures)

  class Allocation {
    const name: string
    const properties: Option<Properties>
    const start: int
    const end: int
    var cpuCoreRequestAverage: real
    var cpuCoreUsageAverage: real
    var ramBytesRequestAverage: real
    var ramBytesUsageAverage: real
    var cost: real
    var costRatio: real
    var customCost: real

    constructor (v: View)
      ensures View() == v
    {
      name, properties, start, end := v.name, v.properties, v.start, v.end;
      cpuCoreRequestAverage, cpuCoreUsageAverage := v.figures.cpuRequest, v.figures.cpuUsage;
      ramBytesRequestAverage, ramBytesUsageAverage := v.figures.ramRequest, v.figures.ramUsage;
      cost, costRatio, customCost := v.figures.cost, v.figures.costRatio, v.figures.customCost;
    }

    function View(): View
      reads this
    {
      Shown(name, properties, start, end, Figures(
        cpuCoreRequestAverage, cpuCoreUsageAverage, ramBytesRequestAverage, ramBytesUsageAverage,
        cost, costRatio, customCost))
    }

    /** Adds another allocation's seven figures to this one's. */
    method Add(that: Allocation)
      requires that != this
      modifies this
      ensures View() == old(View()).(figures := old(View().figures.Plus(that.View().figures)))
    {
      cpuCoreRequestAverage := cpuCoreRequestAverage + that.cpuCoreRequestAverage;
      cpuCoreUsageAverage := cpuCoreUsageAverage + that.cpuCoreUsageAverage;
      ramBytesRequestAverage := ramBytesRequestAverage + that.ramBytesRequestAverage;
      ramBytesUsageAverage := ramBytesUsageAverage + that.ramBytesUsageAverage;
      cost := cost + that.cost;
      costRatio := costRatio + that.costRatio;
      customCost := customCost + that.customCost;
    }
  }

  // ---------------------------------------------------------------------------------------
  // Keys and groups
  // ---------------------------------------------------------------------------------------

  predicate Supported(aggregate: string) {
    aggregate in {"namespace", "controller", "controllerKind", "node"} || HasPrefix(aggregate, "label:")
  }

  /** The group an allocation's properties put it in; "" if they do not say. */
  function PropertyKey(aggregate: string, p: Properties): string {
    if aggregate == "namespace" then p.namespace
    else if aggregate == "controller" then
      (if p.controller != "<none>" && p.controllerKind != "<none>" then p.controllerKind + ":" + p.controller else "")
    else if aggregate == "controllerKind" then (if p.controllerKind != "<none>" then p.controllerKind else "")
    else if aggregate == "node" then p.node
    else
      var k := TrimPrefix(aggregate, "label:");
      if k in p.labels then p.labels[k] else ""
  }

  predicate IsIdleName(name: string) {
    name == IDLE || HasPrefix(name, IDLE_PREFIX)
  }

  /** The aggregation key: idle entries keep their names, the rest goes by property. */
  function KeyOf(aggregate: string, v: View): string {
    if IsIdleName(v.name) then v.name
    else
      var key := if v.properties.Some? then PropertyKey(aggregate, v.properties.value) else "";
      if key == "" then UNALLOCATED else key
  }

  function FigureOf(m: map<string, View>, n: string, f: Field): real {
    if n in m then m[n].figures.Get(f) else 0.0
  }

  ghost function SumOf(m: map<string, View>, s: set<string>, f: Field): real {
    SumOver(s, n => FigureOf(m, n, f))
  }

  /** A field summed over a whole set. */
  ghost function TotalOf(m: map<string, View>, f: Field): real {
    SumOf(m, m.Keys, f)
  }

  /** The entries among names that go to a key. */
  ghost function Members(aggregate: string, m: map<string, View>, names: set<string>, key: string): set<string> {
    set n | n in names && n in m && KeyOf(aggregate, m[n]) == key
  }

  /** v sums up the members of its name among names, in every field. */
  ghost predicate SumsUp(aggregate: string, m: map<string, View>, names: set<string>, v: View) {
    && v.properties == None
    && (forall f :: v.figures.Get(f) == SumOf(m, Members(aggregate, m, names, v.name), f))
    && exists n :: n in Members(aggregate, m, names, v.name) && v.start == m[n].start && v.end == m[n].end
  }

  /** g is m regrouped: one entry per key, each the exact sum of its members. */
  ghost predicate IsGrouping(aggregate: string, m: map<string, View>, names: set<string>, g: map<string, View>) {
    && (forall k :: k in g <==> Members(aggregate, m, names, k) != {})
    && (forall k :: k in g ==> g[k].name == k && SumsUp(aggregate, m, names, g[k]))
  }

  // ---------------------------------------------------------------------------------------
  // Idle cost by node
  // ---------------------------------------------------------------------------------------

  predicate HasNode(g: map<string, View>, k: string) {
    k in g && HasPrefix(k, IDLE_PREFIX) && TrimPrefix(k, IDLE_PREFIX) in g
  }

  function Less(v: View, node: View): View {
    v.(figures := v.figures.(
      cost := v.figures.cost - node.figures.cost,
      costRatio := v.figures.costRatio - node.figures.costRatio))
  }

  /** What one turn of the subtracting loop does: an idle entry loses the current figures of its node. */
  function SubtractOne(g: map<string, View>, k: string): map<string, View> {
    if HasNode(g, k) then g[k := Less(g[k], g[TrimPrefix(k, IDLE_PREFIX)])] else g
  }

  /** The loop over the keys in a given order. */
  function SubtractAll(g: map<string, View>, order: seq<string>): (r: map<string, View>)
    ensures r.Keys == g.Keys
  {
    if order == [] then g else SubtractOne(SubtractAll(g, order[..|order| - 1]), order[|order| - 1])
  }

  /** out is a possible result of aggregating m: regrouped, with idle cost by node if asked for. */
  ghost predicate IsAggregate(aggregate: string, idleByNode: bool, m: map<string, View>, out: map<string, View>) {
    if aggregate == "node" && idleByNode
    then exists g, order :: IsGrouping(aggregate, m, m.Keys, g) && Lists(order, g.Keys) && out == SubtractAll(g, order)
    else IsGrouping(aggregate, m, m.Keys, out)
  }

  // ---------------------------------------------------------------------------------------

  ghost function ViewsOf(entries: map<string, Allocation>): map<string, View>
    reads entries.Values
  {
    map n | n in entries :: entries[n].View()
  }

  class AllocationSet {
    var entries: map<string, Allocation>

    constructor ()
      ensures entries == map[]
    {
      entries := map[];
    }

    /** The set with the given entries. */
    constructor Of(entries: map<string, Allocation>)
      ensures this.entries == entries && Views() == old(ViewsOf(entries))
    {
      this.entries := entries;
    }

    ghost function Views(): map<string, View>
      reads this, entries.Values
    {
      ViewsOf(entries)
    }

    predicate IsEmpty()
      reads this
    {
      |entries| == 0
    }

    /** Overwrites the entry under the allocation's name; the set keeps a reference. */
    method Set(alloc: Allocation)
      modifies this
      ensures entries == old(entries)[alloc.name := alloc]
    {
      if IsEmpty() {
        entries := map[];
      }
      entries := entries[alloc.name := alloc];
    }

    /** The grouping loop, over the entries in an arbitrary order. */
    method GroupBy(aggregate: string) returns (aggSet: map<string, Allocation>)
      requires Supported(aggregate)
      ensures forall k :: k in aggSet ==> fresh(aggSet[k]) && aggSet[k].name == k
      ensures IsGrouping(aggregate, Views(), entries.Keys, ViewsOf(aggSet))
    {
      hide IsGrouping, KeyOf, Merged;
      aggSet := map[];
      ghost var m := Views();
      var todo := entries.Keys;
      NothingGrouped(aggregate, m);
      assert m.Keys - todo == {} && ViewsOf(aggSet) == map[];
      while todo != {}
        invariant todo <= entries.Keys == m.Keys
        invariant forall k :: k in aggSet ==> fresh(aggSet[k]) && aggSet[k].name == k
        invariant IsGrouping(aggregate, m, m.Keys - todo, ViewsOf(aggSet))
        decreases |todo|
      {
        var n :| n in todo;
        var alloc := entries[n];
        assert m[n] == alloc.View();
        GroupingStep(aggregate, m, m.Keys - todo, ViewsOf(aggSet), n);
        aggSet := MergeInto(aggSet, KeyOf(aggregate, alloc.View()), alloc);
        assert m.Keys - (todo - {n}) == (m.Keys - todo) + {n};
        todo := todo - {n};
      }
      assert m.Keys - todo == entries.Keys;
    }

    /**
     Regroups the set. The empty set gives no set at all, "pod" this very set, anything else a new
     set of new allocations; this set and its allocations stay as they are.
     */
    method AggregateBy(aggregate: string, idleByNode: bool) returns (r: Result<AllocationSet?, string>)
      ensures r.Failure? <==> entries.Keys != {} && aggregate != "pod" && !Supported(aggregate)
      ensures r.Success? ==> (r.value == null <==> entries.Keys == {})
      ensures r.Success? && r.value != null && aggregate == "pod" ==> r.value == this
      ensures r.Success? && r.value != null && aggregate != "pod" ==>
        && fresh(r.value) && fresh(r.value.entries.Values)
        && IsAggregate(aggregate, idleByNode, Views(), r.value.Views())
    {
      if IsEmpty() {
        return Success(null);
      }
      if aggregate == "pod" {
        return Success(this);
      }
      if !Supported(aggregate) {
        return Failure("invalid 'aggregate' parameter");
      }
      var newSet := Regroup(aggregate, idleByNode);
      return Success(newSet);
    }

    method Regroup(aggregate: string, idleByNode: bool) returns (r: AllocationSet)
      requires Supported(aggregate)
      ensures fresh(r) && fresh(r.entries.Values)
      ensures IsAggregate(aggregate, idleByNode, Views(), r.Views())
    {
      hide IsGrouping, IsAggregate, SubtractAll, Lists, ViewsOf, Allocation.View;
      ghost var m := Views();
      var aggSet := GroupBy(aggregate);
      ghost var g := ViewsOf(aggSet);
      KeysOfViews(entries);
      KeysOfViews(aggSet);
      if aggregate == "node" && idleByNode {
        ghost var order := SubtractNodes(aggSet);
        NodeAggregate(m, g, order);
      } else {
        PlainAggregate(aggregate, idleByNode, m, g);
      }
      r := new AllocationSet.Of(aggSet);
    }
  }

  lemma KeysOfViews(entries: map<string, Allocation>)
    ensures ViewsOf(entries).Keys == entries.Keys
  {
  }

  lemma NodeAggregate(m: map<string, View>, g: map<string, View>, order: seq<string>)
    requires IsGrouping("node", m, m.Keys, g) && Lists(order, g.Keys)
    ensures IsAggregate("node", true, m, SubtractAll(g, order))
  {
  }

  lemma PlainAggregate(aggregate: string, idleByNode: bool, m: map<string, View>, g: map<string, View>)
    requires IsGrouping(aggregate, m, m.Keys, g) && !(aggregate == "node" && idleByNode)
    ensures IsAggregate(aggregate, idleByNode, m, g)
  {
  }

  /** The loop over the groups that takes each node's cost off its idle entry, in an arbitrary order. */
  method SubtractNodes(aggSet: map<string, Allocation>) returns (ghost order: seq<string>)
    requires forall k :: k in aggSet ==> aggSet[k].name == k
    modifies aggSet.Values
    ensures Lists(order, aggSet.Keys)
    ensures ViewsOf(aggSet) == SubtractAll(old(ViewsOf(aggSet)), order)
  {
    ghost var g := ViewsOf(aggSet);
    order := [];
    var todo := aggSet.Keys;
    while todo != {}
      invariant todo <= aggSet.Keys && Lists(order, aggSet.Keys - todo)
      invariant ViewsOf(aggSet) == SubtractAll(g, order)
      decreases |todo|
    {
      hide SubtractAll, SubtractOne;
      var k :| k in todo;
      SubtractStep(g, order, k);
      SubtractNode(aggSet, k);
      order := order + [k];
      todo := todo - {k};
    }
  }

  lemma SubtractStep(g: map<string, View>, order: seq<string>, k: string)
    ensures SubtractAll(g, order + [k]) == SubtractOne(SubtractAll(g, order), k)
  {
    assert (order + [k])[..|order|] == order;
  }

  /** One turn of that loop. */
  method SubtractNode(aggSet: map<string, Allocation>, k: string)
    requires k in aggSet && forall k :: k in aggSet ==> aggSet[k].name == k
    modifies aggSet.Values
    ensures ViewsOf(aggSet) == SubtractOne(old(ViewsOf(aggSet)), k)
  {
    if HasPrefix(k, IDLE_PREFIX) && TrimPrefix(k, IDLE_PREFIX) in aggSet {
      var alloc := aggSet[TrimPrefix(k, IDLE_PREFIX)];
      assert forall j :: j in aggSet && j != k ==> aggSet[j] != aggSet[k];
      aggSet[k].cost := aggSet[k].cost - alloc.cost;
      aggSet[k].costRatio := aggSet[k].costRatio - alloc.costRatio;
    }
  }

  /** Adds an allocation to the group of its key, which it founds if there is none. */
  method MergeInto(aggSet: map<string, Allocation>, aggregateKey: string, alloc: Allocation)
    returns (r: map<string, Allocation>)
    requires forall k :: k in aggSet ==> aggSet[k].name == k && aggSet[k] != alloc
    modifies aggSet.Values
    ensures r.Keys == aggSet.Keys + {aggregateKey}
    ensures forall k :: k in r ==> r[k].name == k && if k in aggSet then r[k] == aggSet[k] else fresh(r[k])
    ensures ViewsOf(r) == Merged(aggregateKey, old(ViewsOf(aggSet)), old(alloc.View()))
  {
    if aggregateKey !in aggSet {
      var sum := new Allocation(alloc.View().(name := aggregateKey, properties := None));
      r := aggSet[aggregateKey := sum];
    } else {
      r := aggSet;
      r[aggregateKey].Add(alloc);
      assert forall k :: k in aggSet && k != aggregateKey ==> aggSet[k] != r[aggregateKey];
    }
  }

  lemma NothingGrouped(aggregate: string, m: map<string, View>)
    ensures IsGrouping(aggregate, m, {}, map[])
  {
  }

  /** The groups after one more entry. */
  function Merged(key: string, g: map<string, View>, v: View): map<string, View> {
    if key in g then g[key := g[key].(figures := g[key].figures.Plus(v.figures))]
    else g[key := v.(name := key, properties := None)]
  }

  lemma GroupingStep(aggregate: string, m: map<string, View>, done: set<string>, g: map<string, View>, n: string)
    requires IsGrouping(aggregate, m, done, g) && n in m && n !in done
    ensures IsGrouping(aggregate, m, done + {n}, Merged(KeyOf(aggregate, m[n]), g, m[n]))
  {
    hide SumsUp;
    var key := KeyOf(aggregate, m[n]);
    var g' := Merged(key, g, m[n]);
    forall k ensures Members(aggregate, m, done + {n}, k) == Members(aggregate, m, done, k) + (if k == key then {n} else {}) {
    }
    forall k | k in g' ensures g'[k].name == k && SumsUp(aggregate, m, done + {n}, g'[k]) {
      if k == key {
        MergedSumsUp(aggregate, m, done, g, n);
      } else {
        SameMembers(aggregate, m, done, done + {n}, g[k]);
      }
    }
  }

  lemma SameMembers(aggregate: string, m: map<string, View>, done: set<string>, more: set<string>, v: View)
    requires SumsUp(aggregate, m, done, v)
    requires Members(aggregate, m, done, v.name) == Members(aggregate, m, more, v.name)
    ensures SumsUp(aggregate, m, more, v)
  {
  }

  lemma MergedSumsUp(aggregate: string, m: map<string, View>, done: set<string>, g: map<string, View>, n: string)
    requires IsGrouping(aggregate, m, done, g) && n in m && n !in done
    ensures
      var key := KeyOf(aggregate, m[n]);
      SumsUp(aggregate, m, done + {n}, Merged(key, g, m[n])[key])
  {
    var key := KeyOf(aggregate, m[n]);
    var before, after := Members(aggregate, m, done, key), Members(aggregate, m, done + {n}, key);
    assert after == before + {n};
    forall f ensures SumOf(m, after, f) == SumOf(m, before, f) + m[n].figures.Get(f) {
      SumAdd(before, x => FigureOf(m, x, f), n);
    }
    if key !in g {
      assert before == {};
      forall f ensures SumOf(m, before, f) == 0.0 {
        SumEmpty(x => FigureOf(m, x, f));
      }
    }
    assert n in after;
    if key in g {
      assert SumsUp(aggregate, m, done, g[key]);
    }
  }

  /** A sequence of allocation sets, one per window. */
  class AllocationSetRange {
    var allocations: seq<AllocationSet?>

    constructor ()
      ensures allocations == []
    {
      allocations := [];
    }

    method Append(that: AllocationSet?)
      modifies this
      ensures allocations == old(allocations) + [that]
    {
      allocations := allocations + [that];
    }

    /** Aggregates every set of the range in place, or none of them when the first failure is met. */
    method AggregateBy(aggregate: string, idleByNode: bool) returns (ok: bool)
      modifies this
      ensures ok <==>
        || aggregate == "pod" || Supported(aggregate)
        || (forall i :: 0 <= i < |old(allocations)| ==> NothingIn(old(allocations)[i]))
      ensures !ok ==> allocations == old(allocations)
      ensures ok ==> |allocations| == |old(allocations)| && forall i :: 0 <= i < |allocations| ==>
        AggregateOf(aggregate, idleByNode, old(allocations)[i], allocations[i])
    {
      var asList: seq<AllocationSet?> := [];
      ghost var was := allocations;
      var i := 0;
      while i < |allocations|
        invariant 0 <= i <= |allocations| && |asList| == i && allocations == was
        invariant forall j :: 0 <= j < i ==> AggregateOf(aggregate, idleByNode, was[j], asList[j])
        invariant aggregate == "pod" || Supported(aggregate) || forall j :: 0 <= j < i ==> NothingIn(was[j])
      {
        if allocations[i] == null {
          asList := asList + [null];
        } else {
          var newAs := allocations[i].AggregateBy(aggregate, idleByNode);
          match newAs {
            case Failure(_) => return false;
            case Success(s) => asList := asList + [s];
          }
        }
        i := i + 1;
      }
      allocations := asList;
      return true;
    }
  }

  /** IsEmpty, which holds of no set at all as well. */
  predicate NothingIn(allocs: AllocationSet?)
    reads allocs
  {
    allocs == null || allocs.entries.Keys == {}
  }

  /** now is what AggregateBy made of was. */
  ghost predicate AggregateOf(aggregate: string, idleByNode: bool, was: AllocationSet?, now: AllocationSet?)
    reads was, if was == null then {} else was.entries.Values
    reads now, if now == null then {} else now.entries.Values
  {
    if NothingIn(was) then now == null
    else if aggregate == "pod" then now == was
    else now != null && IsAggregate(aggregate, idleByNode, was.Views(), now.Views())
  }
}
