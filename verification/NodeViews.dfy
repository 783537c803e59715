/** Idle cost by node: what regrouping by node makes of a window with one idle entry per node. */
module NodeViews {
  import opened GoStrings
  import opened LastWriter
  import opened Sums
  import opened Allocations
  import opened AllocationProofs
  import opened CostComputation
  import opened Conservation

  /** Neither a pod nor its node has a name that looks like an idle entry's. */
  ghost predicate NoIdleNames(a: Answers) {
    forall k :: k in Records(a.pods) ==>
      !HasPrefix(k.Name(), IDLE_PREFIX) && !HasPrefix(Records(a.pods)[k].properties.node, IDLE_PREFIX)
  }

  /** The group of a pod when grouping by node. */
  function NodeKey(a: Answers, k: PodMeta): string {
    var recs := Records(a.pods);
    if k !in recs || recs[k].properties.node == "" then UNALLOCATED else recs[k].properties.node
  }

  function Nodes(nodeCosts: seq<NodeCost>): set<string> {
    set i | 0 <= i < |nodeCosts| :: nodeCosts[i].node
  }

  predicate NodesDistinct(nodeCosts: seq<NodeCost>) {
    forall i, j :: 0 <= i < j < |nodeCosts| ==> nodeCosts[i].node != nodeCosts[j].node
  }

  predicate NoIdleNodes(nodeCosts: seq<NodeCost>) {
    forall i :: 0 <= i < |nodeCosts| ==> !HasPrefix(nodeCosts[i].node, IDLE_PREFIX)
  }

  ghost function OnNode(a: Answers, n: string): set<PodMeta> {
    Group(Records(a.pods).Keys, k => NodeKey(a, k), n)
  }

  /** The pods whose node has no entry in the cost list. */
  ghost function Elsewhere(a: Answers): set<PodMeta> {
    set k | k in Records(a.pods) && NodeKey(a, k) !in Nodes(a.nodeCosts)
  }

  /** A pod's cost or ratio before idle cost is looked at. */
  ghost function PodFigure(p: Params, a: Answers, w: Weights, f: Field): PodMeta -> real {
    if f == Cost then k => PodCost(p, a, w, k) else k => EstimatedRatio(a, w, k)
  }

  /** What all the entries account for. */
  ghost function Whole(p: Params, a: Answers, f: Field): real {
    if f == Cost then AmountDue(p, a) else 1.0
  }

  /** A node's part of the whole. */
  ghost function NodeShare(p: Params, a: Answers, value: real, f: Field): real {
    var ratio := Quotient(value, NodeTotal(a.nodeCosts));
    if f == Cost then ratio * AmountDue(p, a) else ratio
  }

  /** What the hypotheses say about the answers of a window. */
  ghost predicate WellNamed(a: Answers) {
    NamesDistinct(a) && NoIdleNames(a) && NodesDistinct(a.nodeCosts) && NoIdleNodes(a.nodeCosts)
  }

  /** A set of the ByNode mode, regrouped by node. */
  ghost predicate NodeGrouped(p: Params, a: Answers, w: Weights, start: int, end: int, views: map<string, View>, g: map<string, View>)
  {
    && WellNamed(a)
    && IsComputed(ByNode, p, a, w, start, end, views) && IsGrouping("node", views, views.Keys, g)
  }

  // ---------------------------------------------------------------------------------------
  // The idle entries
  // ---------------------------------------------------------------------------------------

  lemma TotalAdd(m: map<string, View>, k: string, v: View, f: Field)
    requires k !in m
    ensures TotalOf(m[k := v], f) == TotalOf(m, f) + v.figures.Get(f)
  {
    hide SumOver;
    var more := m[k := v];
    assert more.Keys == m.Keys + {k};
    SumAdd(m.Keys, n => FigureOf(more, n, f), k);
    SumSame(m.Keys, n => FigureOf(more, n, f), n => FigureOf(m, n, f));
  }

  function IdleName(n: string): string {
    IDLE_PREFIX + n
  }

  lemma IdleNamesAre(n: string)
    ensures HasPrefix(IdleName(n), IDLE_PREFIX) && TrimPrefix(IdleName(n), IDLE_PREFIX) == n
  {
    assert IdleName(n)[|IDLE_PREFIX|..] == n && IdleName(n)[..|IDLE_PREFIX|] == IDLE_PREFIX;
  }

  lemma {:induction false} IdleKeys(p: Params, a: Answers, start: int, end: int, n: nat)
    requires n <= |a.nodeCosts|
    ensures FromEntries(NodeEntries(p, a, start, end, n)).Keys == set i | 0 <= i < n :: IdleName(a.nodeCosts[i].node)
  {
    if n != 0 {
      var es := NodeEntries(p, a, start, end, n - 1);
      var v := NodeView(p, a, start, end, a.nodeCosts[n - 1]);
      FromAppend(es, v.name, v);
      IdleKeys(p, a, start, end, n - 1);
    }
  }

  lemma {:induction false} IdleValues(p: Params, a: Answers, start: int, end: int, n: nat, i: nat)
    requires i < n <= |a.nodeCosts| && NodesDistinct(a.nodeCosts)
    ensures var es := FromEntries(NodeEntries(p, a, start, end, n)); var c := a.nodeCosts[i];
      IdleName(c.node) in es && es[IdleName(c.node)] == NodeView(p, a, start, end, c)
  {
    hide NodeTotal, AmountDue;
    var es := NodeEntries(p, a, start, end, n - 1);
    var v := NodeView(p, a, start, end, a.nodeCosts[n - 1]);
    FromAppend(es, v.name, v);
    if i < n - 1 {
      IdleValues(p, a, start, end, n - 1, i);
      IdleNamesAre(a.nodeCosts[i].node);
      IdleNamesAre(a.nodeCosts[n - 1].node);
    }
  }

  function Scaled(x: real, unit: real): real {
    x * unit
  }

  lemma ScaledIs(x: real, y: real, unit: real)
    ensures Scaled(0.0, unit) == 0.0 && Scaled(x + y, unit) == Scaled(x, unit) + Scaled(y, unit)
  {
    Distribute(x, y, unit);
  }

  ghost function Unit(p: Params, a: Answers, f: Field): real {
    Quotient(Whole(p, a, f), NodeTotal(a.nodeCosts))
  }

  lemma ShareOf(p: Params, a: Answers, start: int, end: int, c: NodeCost, f: Field)
    requires NodeTotal(a.nodeCosts) != 0.0 && (f == Cost || f == CostRatio)
    ensures NodeView(p, a, start, end, c).figures.Get(f) == NodeShare(p, a, c.value, f) == Scaled(c.value, Unit(p, a, f))
  {
    hide NodeTotal, AmountDue;
    var t, due := NodeTotal(a.nodeCosts), AmountDue(p, a);
    assert c.value / t * due == c.value * (due / t);
  }

  lemma NewIdleName(p: Params, a: Answers, start: int, end: int, n: nat)
    requires 0 < n <= |a.nodeCosts| && NodesDistinct(a.nodeCosts)
    ensures IdleName(a.nodeCosts[n - 1].node) !in FromEntries(NodeEntries(p, a, start, end, n - 1))
  {
    IdleKeys(p, a, start, end, n - 1);
    forall i | 0 <= i < n - 1 ensures IdleName(a.nodeCosts[i].node) != IdleName(a.nodeCosts[n - 1].node) {
      IdleNamesAre(a.nodeCosts[i].node);
      IdleNamesAre(a.nodeCosts[n - 1].node);
    }
  }

  lemma {:induction false} SharesSum(p: Params, a: Answers, start: int, end: int, n: nat, f: Field)
    requires n <= |a.nodeCosts| && NodesDistinct(a.nodeCosts) && NodeTotal(a.nodeCosts) != 0.0 && (f == Cost || f == CostRatio)
    ensures TotalOf(FromEntries(NodeEntries(p, a, start, end, n)), f) == Scaled(NodeTotal(a.nodeCosts[..n]), Unit(p, a, f))
  {
    hide SumOver, AmountDue, Unit, Scaled, NodeShare, NodeTotal, FromEntries, NodeEntries, TotalOf, NodeView, Figures.Get,
         NodesDistinct;
    var unit := Unit(p, a, f);
    NodeTotalIs(a.nodeCosts, n);
    if n == 0 {
      NoShares(p, a, start, end, f);
      ScaledIs(0.0, 0.0, unit);
    } else {
      var c := a.nodeCosts[n - 1];
      SharesSum(p, a, start, end, n - 1, f);
      NewIdleName(p, a, start, end, n);
      ShareOf(p, a, start, end, c, f);
      TotalAppend(p, a, start, end, n, f);
      ScaledIs(NodeTotal(a.nodeCosts[..n - 1]), c.value, unit);
    }
  }

  lemma NoShares(p: Params, a: Answers, start: int, end: int, f: Field)
    ensures TotalOf(FromEntries(NodeEntries(p, a, start, end, 0)), f) == 0.0
  {
    var none: map<string, View> := map[];
    assert FromEntries(NodeEntries(p, a, start, end, 0)) == none && none.Keys == {};
    SumEmpty(n => FigureOf(none, n, f));
  }

  lemma NodeTotalIs(nodeCosts: seq<NodeCost>, n: nat)
    requires n <= |nodeCosts|
    ensures NodeTotal(nodeCosts[..n]) == if n == 0 then 0.0 else NodeTotal(nodeCosts[..n - 1]) + nodeCosts[n - 1].value
  {
    if n != 0 {
      assert nodeCosts[..n][..n - 1] == nodeCosts[..n - 1];
    }
  }

  lemma TotalAppend(p: Params, a: Answers, start: int, end: int, n: nat, f: Field)
    requires 0 < n <= |a.nodeCosts|
    requires IdleName(a.nodeCosts[n - 1].node) !in FromEntries(NodeEntries(p, a, start, end, n - 1))
    ensures TotalOf(FromEntries(NodeEntries(p, a, start, end, n)), f) ==
      TotalOf(FromEntries(NodeEntries(p, a, start, end, n - 1)), f) + NodeView(p, a, start, end, a.nodeCosts[n - 1]).figures.Get(f)
  {
    hide SumOver, TotalOf, FromEntries, AmountDue, NodeTotal;
    var es := NodeEntries(p, a, start, end, n - 1);
    var v := NodeView(p, a, start, end, a.nodeCosts[n - 1]);
    FromAppend(es, v.name, v);
    TotalAdd(FromEntries(es), v.name, v, f);
  }

  /** The nodes' prices sum up to the whole. */
  lemma IdleTotal(p: Params, a: Answers, w: Weights, start: int, end: int, f: Field)
    requires NodesDistinct(a.nodeCosts) && NodeTotal(a.nodeCosts) != 0.0 && (f == Cost || f == CostRatio)
    ensures TotalOf(IdleEntries(ByNode, p, a, w, start, end), f) == Whole(p, a, f)
  {
    hide SumOver, AmountDue, Whole, TotalOf, NodeTotal, NodeEntries;
    SharesSum(p, a, start, end, |a.nodeCosts|, f);
    assert a.nodeCosts[..|a.nodeCosts|] == a.nodeCosts;
    var t, x := NodeTotal(a.nodeCosts), Whole(p, a, f);
    assert t * (x / t) == x;
  }

  // ---------------------------------------------------------------------------------------
  // The groups
  // ---------------------------------------------------------------------------------------

  lemma PodKey(mode: IdleMode, p: Params, a: Answers, w: Weights, start: int, end: int, k: PodMeta)
    requires NoIdleNames(a) && k in Records(a.pods)
    ensures KeyOf("node", PodView(mode, p, a, w, start, end, k)) == NodeKey(a, k)
    ensures !HasPrefix(NodeKey(a, k), IDLE_PREFIX)
  {
    hide FinalCost, FinalRatio, Records, PodMeta.Name;
    IdleIsNoPodName(a);
    assert k.Name() in PodNames(a);
    assert UNALLOCATED[0] != IDLE_PREFIX[0];
  }

  lemma IdleApartFromPods(p: Params, a: Answers, w: Weights, start: int, end: int)
    requires NoIdleNames(a)
    ensures PodNames(a) !! IdleEntries(ByNode, p, a, w, start, end).Keys
    ensures forall n :: n in IdleEntries(ByNode, p, a, w, start, end) <==> HasPrefix(n, IDLE_PREFIX) && NodeOf(n) in Nodes(a.nodeCosts)
  {
    hide Records, PodMeta.Name, FromEntries;
    IdleKeys(p, a, start, end, |a.nodeCosts|);
    var keys := IdleEntries(ByNode, p, a, w, start, end).Keys;
    forall i | 0 <= i < |a.nodeCosts|
      ensures HasPrefix(IdleName(a.nodeCosts[i].node), IDLE_PREFIX) && NodeOf(IdleName(a.nodeCosts[i].node)) == a.nodeCosts[i].node
    {
      IdleNamesAre(a.nodeCosts[i].node);
    }
    forall n | HasPrefix(n, IDLE_PREFIX) && NodeOf(n) in Nodes(a.nodeCosts) ensures n in keys {
      var i :| 0 <= i < |a.nodeCosts| && a.nodeCosts[i].node == NodeOf(n);
      assert n == IDLE_PREFIX + n[|IDLE_PREFIX|..] == IdleName(a.nodeCosts[i].node);
    }
  }

  /** An entry is the idle entry of a node, or a pod. */
  lemma EntryIs(p: Params, a: Answers, w: Weights, start: int, end: int, views: map<string, View>, g: map<string, View>, n: string)
    requires NodeGrouped(p, a, w, start, end, views, g) && n in views
    ensures HasPrefix(n, IDLE_PREFIX) <==> n in IdleEntries(ByNode, p, a, w, start, end)
    ensures HasPrefix(n, IDLE_PREFIX) ==> NodeOf(n) in Nodes(a.nodeCosts) && views[n].name == n == KeyOf("node", views[n])
    ensures !HasPrefix(n, IDLE_PREFIX) ==> !HasPrefix(KeyOf("node", views[n]), IDLE_PREFIX) && n in PodNames(a)
    ensures forall k :: k in Records(a.pods) && k.Name() == n ==>
      KeyOf("node", views[n]) == NodeKey(a, k) && views[n] == PodView(ByNode, p, a, w, start, end, k)
  {
    hide Records, IdleEntries, KeyOf, PodView, PodMeta.Name, NodeKey, NodesDistinct, NodeView, NodeTotal;
    IdleApartFromPods(p, a, w, start, end);
    KeysAre(ByNode, p, a, w, start, end, views);
    if HasPrefix(n, IDLE_PREFIX) {
      var i := IdleAt(p, a, w, start, end, n);
      assert views[n] == IdleEntries(ByNode, p, a, w, start, end)[n];
      IdleKey(views[n]);
    }
    forall k | k in Records(a.pods) && k.Name() == n
      ensures KeyOf("node", views[n]) == NodeKey(a, k) && views[n] == PodView(ByNode, p, a, w, start, end, k)
      ensures !HasPrefix(KeyOf("node", views[n]), IDLE_PREFIX)
    {
      assert n in PodNames(a);
      PodEntry(ByNode, p, a, w, start, end, views, k);
      PodKey(ByNode, p, a, w, start, end, k);
    }
  }

  lemma IdleKey(v: View)
    requires HasPrefix(v.name, IDLE_PREFIX)
    ensures KeyOf("node", v) == v.name
  {
  }

  /** Which node an idle entry stands for. */
  lemma IdleAt(p: Params, a: Answers, w: Weights, start: int, end: int, n: string) returns (i: nat)
    requires NodesDistinct(a.nodeCosts) && n in IdleEntries(ByNode, p, a, w, start, end)
    ensures i < |a.nodeCosts| && n == IdleName(a.nodeCosts[i].node)
    ensures IdleEntries(ByNode, p, a, w, start, end)[n] == NodeView(p, a, start, end, a.nodeCosts[i])
    ensures IdleEntries(ByNode, p, a, w, start, end)[n].name == n
  {
    hide NodeTotal, AmountDue, FromEntries, NodesDistinct;
    IdleKeys(p, a, start, end, |a.nodeCosts|);
    i :| 0 <= i < |a.nodeCosts| && n == IdleName(a.nodeCosts[i].node);
    IdleValues(p, a, start, end, |a.nodeCosts|, i);
  }

  lemma PodMembers(p: Params, a: Answers, w: Weights, start: int, end: int, views: map<string, View>, g: map<string, View>, n: string)
    requires NodeGrouped(p, a, w, start, end, views, g) && !HasPrefix(n, IDLE_PREFIX)
    ensures Members("node", views, views.Keys, n) == set k | k in OnNode(a, n) :: k.Name()
  {
    hide Records, IdleEntries, KeyOf, PodView, PodMeta.Name, NodeKey, NodeGrouped;
    var names := set k | k in OnNode(a, n) :: k.Name();
    forall m | m in Members("node", views, views.Keys, n) ensures m in names {
      EntryIs(p, a, w, start, end, views, g, m);
      var k :| k in Records(a.pods) && k.Name() == m;
      assert k in OnNode(a, n);
    }
    forall k | k in OnNode(a, n) ensures k.Name() in Members("node", views, views.Keys, n) {
      Grouped(p, a, w, start, end, views, g);
      EntryIs(p, a, w, start, end, views, g, k.Name());
    }
  }

  lemma Grouped(p: Params, a: Answers, w: Weights, start: int, end: int, views: map<string, View>, g: map<string, View>)
    requires NodeGrouped(p, a, w, start, end, views, g)
    ensures forall k :: k in Records(a.pods) ==> k.Name() in views
    ensures IsGrouping("node", views, views.Keys, g)
    ensures forall n :: n in Nodes(a.nodeCosts) ==> !HasPrefix(n, IDLE_PREFIX)
  {
  }

  /** A node's group has the sum over the pods on it. */
  lemma PodGroup(p: Params, a: Answers, w: Weights, start: int, end: int, views: map<string, View>, g: map<string, View>,
                 n: string, f: Field)
    requires NodeGrouped(p, a, w, start, end, views, g) && !HasPrefix(n, IDLE_PREFIX) && (f == Cost || f == CostRatio)
    ensures FigureOf(g, n, f) == SumOver(OnNode(a, n), PodFigure(p, a, w, f))
  {
    hide Records, IdleEntries, KeyOf, PodMeta.Name, NodeKey, NodeGrouped, SumOver, Members, PodCost, EstimatedRatio;
    var pods, names := OnNode(a, n), Members("node", views, views.Keys, n);
    PodMembers(p, a, w, start, end, views, g, n);
    Grouped(p, a, w, start, end, views, g);
    if n in g {
      assert SumsUp("node", views, views.Keys, g[n]);
    } else {
      assert names == {};
      SumEmpty(m => FigureOf(views, m, f));
    }
    assert FigureOf(g, n, f) == SumOver(names, m => FigureOf(views, m, f));
    forall k | k in pods ensures PodFigure(p, a, w, f)(k) == FigureOf(views, k.Name(), f) {
      EntryIs(p, a, w, start, end, views, g, k.Name());
    }
    forall j, k | j in pods && k in pods && j.Name() == k.Name() ensures j == k {
      NameTells(p, a, w, start, end, views, g, j, k);
    }
    SumImage(pods, (k: PodMeta) => k.Name(), names, m => FigureOf(views, m, f), PodFigure(p, a, w, f));
  }

  lemma NameTells(p: Params, a: Answers, w: Weights, start: int, end: int, views: map<string, View>, g: map<string, View>,
                  j: PodMeta, k: PodMeta)
    requires NodeGrouped(p, a, w, start, end, views, g) && j in Records(a.pods) && k in Records(a.pods) && j.Name() == k.Name()
    ensures j == k
  {
  }

  /** An idle entry is a group of its own. */
  lemma IdleGroup(p: Params, a: Answers, w: Weights, start: int, end: int, views: map<string, View>, g: map<string, View>, n: string)
    requires NodeGrouped(p, a, w, start, end, views, g) && HasPrefix(n, IDLE_PREFIX)
    ensures n in g <==> n in views
    ensures n in g ==> forall f :: g[n].figures.Get(f) == views[n].figures.Get(f)
  {
    hide Records, IdleEntries, KeyOf, PodMeta.Name, NodeKey, NodeGrouped, SumOver, PodView;
    var names := Members("node", views, views.Keys, n);
    Grouped(p, a, w, start, end, views, g);
    forall m | m in views && KeyOf("node", views[m]) == n ensures m == n {
      EntryIs(p, a, w, start, end, views, g, m);
    }
    if n in views {
      EntryIs(p, a, w, start, end, views, g, n);
      assert names == {n};
      assert n in g;
      assert SumsUp("node", views, views.Keys, g[n]);
      forall f ensures g[n].figures.Get(f) == views[n].figures.Get(f) {
        SumOne(n, m => FigureOf(views, m, f));
      }
    } else {
      assert names == {};
    }
  }

  /** Only idle entries of nodes have something taken off. */
  lemma NothingChained(p: Params, a: Answers, w: Weights, start: int, end: int, views: map<string, View>, g: map<string, View>)
    requires NodeGrouped(p, a, w, start, end, views, g)
    ensures forall k :: k in g && HasPrefix(k, IDLE_PREFIX) ==> NodeOf(k) in Nodes(a.nodeCosts) && !HasPrefix(NodeOf(k), IDLE_PREFIX)
    ensures NoCostlyChain(g)
  {
    hide NodeGrouped, Nodes, Free, IsGrouping, IdleEntries;
    Grouped(p, a, w, start, end, views, g);
    forall k | k in g && HasPrefix(k, IDLE_PREFIX)
      ensures NodeOf(k) in Nodes(a.nodeCosts) && !HasPrefix(NodeOf(k), IDLE_PREFIX)
    {
      IdleGroup(p, a, w, start, end, views, g, k);
      EntryIs(p, a, w, start, end, views, g, k);
    }
  }

  /** Whatever the order of the subtracting loop, every idle entry loses its node's original figures. */
  lemma NodeViewOrderFree(p: Params, a: Answers, w: Weights, start: int, end: int, views: map<string, View>, g: map<string, View>)
    requires NodeGrouped(p, a, w, start, end, views, g)
    ensures forall order :: Lists(order, g.Keys) ==> SubtractAll(g, order) == SubtractAtOnce(g)
  {
    hide SubtractAll, SubtractAtOnce, Lists, NoCostlyChain, NodeGrouped;
    NothingChained(p, a, w, start, end, views, g);
    OrderFreeExactly(g);
  }

  // ---------------------------------------------------------------------------------------
  // The node view
  // ---------------------------------------------------------------------------------------

  lemma GroupingOf(p: Params, a: Answers, w: Weights, start: int, end: int, views: map<string, View>, out: map<string, View>)
    returns (g: map<string, View>)
    requires WellNamed(a) && IsComputed(ByNode, p, a, w, start, end, views) && IsAggregate("node", true, views, out)
    ensures NodeGrouped(p, a, w, start, end, views, g) && out == SubtractAtOnce(g)
  {
    hide SubtractAll, SubtractAtOnce, Lists, IsComputed, IsGrouping;
    var order;
    g, order :| IsGrouping("node", views, views.Keys, g) && Lists(order, g.Keys) && out == SubtractAll(g, order);
    NodeViewOrderFree(p, a, w, start, end, views, g);
  }

  /** Each node's idle entry is its part of the whole less what the pods on it cost. */
  lemma IdleOfNode(p: Params, a: Answers, w: Weights, start: int, end: int, views: map<string, View>, out: map<string, View>,
                   i: nat, f: Field)
    requires WellNamed(a) && IsComputed(ByNode, p, a, w, start, end, views) && IsAggregate("node", true, views, out)
    requires i < |a.nodeCosts| && NodeTotal(a.nodeCosts) != 0.0 && (f == Cost || f == CostRatio)
    ensures var c := a.nodeCosts[i];
      && IdleName(c.node) in out
      && out[IdleName(c.node)].figures.Get(f) ==
           NodeShare(p, a, c.value, f) - SumOver(OnNode(a, c.node), PodFigure(p, a, w, f))
  {
    hide IsAggregate, WellNamed, NodeGrouped, SumOver, NodeShare, PodFigure, OnNode, FromEntries, NodeView, NodeTotal;
    var c := a.nodeCosts[i];
    var g := GroupingOf(p, a, w, start, end, views, out);
    var k := IdleName(c.node);
    IdleShown(p, a, w, start, end, views, g, i);
    IdleNamesAre(c.node);
    IdleGroup(p, a, w, start, end, views, g, k);
    ShareOf(p, a, start, end, c, f);
    Grouped(p, a, w, start, end, views, g);
    assert c.node in Nodes(a.nodeCosts);
    PodGroup(p, a, w, start, end, views, g, c.node, f);
    TakenOff(g, k, f);
  }

  lemma IdleShown(p: Params, a: Answers, w: Weights, start: int, end: int, views: map<string, View>, g: map<string, View>, i: nat)
    requires NodeGrouped(p, a, w, start, end, views, g) && i < |a.nodeCosts|
    ensures IdleName(a.nodeCosts[i].node) in views
    ensures views[IdleName(a.nodeCosts[i].node)] == NodeView(p, a, start, end, a.nodeCosts[i])
  {
    hide FromEntries, NodeView, NodeTotal;
    IdleValues(p, a, start, end, |a.nodeCosts|, i);
  }

  /** What the subtraction takes off an entry. */
  function Taken(g: map<string, View>, k: string, f: Field): real {
    if HasPrefix(k, IDLE_PREFIX) then FigureOf(g, NodeOf(k), f) else 0.0
  }

  lemma TakenOff(g: map<string, View>, k: string, f: Field)
    requires k in g && (f == Cost || f == CostRatio)
    ensures FigureOf(SubtractAtOnce(g), k, f) == FigureOf(g, k, f) - Taken(g, k, f)
  {
  }

  lemma {:induction false} SumMinus<K(!new)>(s: set<K>, f: K -> real, g: K -> real, h: K -> real)
    requires forall k :: k in s ==> h(k) == f(k) - g(k)
    ensures SumOver(s, h) == SumOver(s, f) - SumOver(s, g)
    decreases |s|
  {
    hide SumOver;
    if s == {} {
      SumEmpty(f);
      SumEmpty(g);
      SumEmpty(h);
    } else {
      var k :| k in s;
      SumRemove(s, f, k);
      SumRemove(s, g, k);
      SumRemove(s, h, k);
      SumMinus(s - {k}, f, g, h);
    }
  }

  /** All that is taken off: what the pods on the nodes of the cost list cost. */
  lemma TakenTotal(p: Params, a: Answers, w: Weights, start: int, end: int, views: map<string, View>, g: map<string, View>, f: Field)
    requires NodeGrouped(p, a, w, start, end, views, g) && (f == Cost || f == CostRatio)
    ensures SumOver(g.Keys, k => Taken(g, k, f)) == SumOver(Records(a.pods).Keys - Elsewhere(a), PodFigure(p, a, w, f))
  {
    hide Records, NodeGrouped, SumOver, PodFigure, NodeKey, IsGrouping, Nodes;
    var nodes := Nodes(a.nodeCosts);
    var idle := set k | k in g && HasPrefix(k, IDLE_PREFIX);
    var taken := k => Taken(g, k, f);
    assert g.Keys == (g.Keys - idle) + idle;
    SumUnion(g.Keys - idle, idle, taken);
    SumZero(g.Keys - idle, taken);
    IdleOfNodes(p, a, w, start, end, views, g);
    SumImage(nodes, IdleName, idle, taken, n => FigureOf(g, n, f));
    Grouped(p, a, w, start, end, views, g);
    var here := Records(a.pods).Keys - Elsewhere(a);
    var key := k => NodeKey(a, k);
    forall n | n in nodes ensures FigureOf(g, n, f) == SumOver(Group(here, key, n), PodFigure(p, a, w, f)) {
      PodGroup(p, a, w, start, end, views, g, n, f);
      assert OnNode(a, n) == Group(here, key, n);
    }
    SumGroups(here, key, nodes, PodFigure(p, a, w, f), n => FigureOf(g, n, f));
  }

  lemma {:induction false} SumZero<K(!new)>(s: set<K>, f: K -> real)
    requires forall k :: k in s ==> f(k) == 0.0
    ensures SumOver(s, f) == 0.0
    decreases |s|
  {
    if s != {} {
      var k :| k in s;
      SumRemove(s, f, k);
      SumZero(s - {k}, f);
    }
  }

  lemma IdleOfNodes(p: Params, a: Answers, w: Weights, start: int, end: int, views: map<string, View>, g: map<string, View>)
    requires NodeGrouped(p, a, w, start, end, views, g)
    ensures (set k | k in g && HasPrefix(k, IDLE_PREFIX)) == set n | n in Nodes(a.nodeCosts) :: IdleName(n)
    ensures forall m, n :: IdleName(m) == IdleName(n) ==> m == n
    ensures forall n :: HasPrefix(IdleName(n), IDLE_PREFIX) && NodeOf(IdleName(n)) == n
  {
    hide NodeGrouped, FromEntries, NodeView, NodeTotal;
    forall n ensures HasPrefix(IdleName(n), IDLE_PREFIX) && NodeOf(IdleName(n)) == n {
      IdleNamesAre(n);
    }
    NothingChained(p, a, w, start, end, views, g);
    forall k | k in g && HasPrefix(k, IDLE_PREFIX) ensures k == IdleName(NodeOf(k)) {
      assert k == IDLE_PREFIX + k[|IDLE_PREFIX|..];
    }
    forall n | n in Nodes(a.nodeCosts) ensures IdleName(n) in g {
      var i :| 0 <= i < |a.nodeCosts| && a.nodeCosts[i].node == n;
      IdleShown(p, a, w, start, end, views, g, i);
      IdleGroup(p, a, w, start, end, views, g, IdleName(n));
    }
  }

  /**
   The whole node view sums up to the amount due (and its ratios to one) plus what the pods have whose
   node has no entry in the cost list: those are not taken off any idle entry.
   */
  lemma NodeViewTotal(p: Params, a: Answers, w: Weights, start: int, end: int, views: map<string, View>, out: map<string, View>,
                      f: Field)
    requires WellNamed(a) && IsComputed(ByNode, p, a, w, start, end, views) && IsAggregate("node", true, views, out)
    requires NodeTotal(a.nodeCosts) != 0.0 && (f == Cost || f == CostRatio)
    ensures TotalOf(out, f) == Whole(p, a, f) + SumOver(Elsewhere(a), PodFigure(p, a, w, f))
  {
    hide IsAggregate, WellNamed, NodeGrouped, IsComputed, IsGrouping, SumOver, PodFigure, NodeTotal, Records, Whole,
         NodesDistinct, Elsewhere, IdleEntries, Taken, SubtractAtOnce, FigureOf, PodSum;
    var g := GroupingOf(p, a, w, start, end, views, out);
    ViewTotal(p, a, w, start, end, views, g, f);
    Grouped(p, a, w, start, end, views, g);
    GroupingConserves("node", views, g, f);
    OutTotal(g, f);
    TakenTotal(p, a, w, start, end, views, g, f);
    var pods := Records(a.pods).Keys;
    ElsewhereIs(a);
    assert pods == (pods - Elsewhere(a)) + Elsewhere(a);
    SumUnion(pods - Elsewhere(a), Elsewhere(a), PodFigure(p, a, w, f));
  }

  lemma ElsewhereIs(a: Answers)
    ensures Elsewhere(a) <= Records(a.pods).Keys
  {
  }

  lemma OutTotal(g: map<string, View>, f: Field)
    requires f == Cost || f == CostRatio
    ensures TotalOf(SubtractAtOnce(g), f) == TotalOf(g, f) - SumOver(g.Keys, k => Taken(g, k, f))
  {
    hide SumOver, Taken;
    var out := SubtractAtOnce(g);
    assert out.Keys == g.Keys;
    forall k | k in g ensures FigureOf(out, k, f) == FigureOf(g, k, f) - Taken(g, k, f) {
      TakenOff(g, k, f);
    }
    SumMinus(g.Keys, n => FigureOf(g, n, f), k => Taken(g, k, f), n => FigureOf(out, n, f));
  }

  /** The set before it is regrouped: all pods, and the nodes' prices. */
  lemma ViewTotal(p: Params, a: Answers, w: Weights, start: int, end: int, views: map<string, View>, g: map<string, View>, f: Field)
    requires NodeGrouped(p, a, w, start, end, views, g) && NodeTotal(a.nodeCosts) != 0.0 && (f == Cost || f == CostRatio)
    ensures TotalOf(views, f) == SumOver(Records(a.pods).Keys, PodFigure(p, a, w, f)) + Whole(p, a, f)
  {
    hide SumOver, NodeTotal, Records, Whole, IsComputed, IdleEntries, NamesDistinct, NoIdleNames, NodesDistinct, TotalOf;
    IdleApartFromPods(p, a, w, start, end);
    TotalIs(ByNode, p, a, w, start, end, views, f);
    UnsharedSums(ByNode, p, a, w);
    IdleTotal(p, a, w, start, end, f);
  }

  // ---------------------------------------------------------------------------------------
  // The other views
  // ---------------------------------------------------------------------------------------

  /** Without idle entries by node there is nothing to take off. */
  lemma NothingTakenOff(mode: IdleMode, p: Params, a: Answers, w: Weights, start: int, end: int, views: map<string, View>,
                        g: map<string, View>, order: seq<string>)
    requires mode == SharedByWeight || mode == SharedEvenly
    requires NoIdleNames(a) && IsComputed(mode, p, a, w, start, end, views)
    requires IsGrouping("node", views, views.Keys, g) && Lists(order, g.Keys)
    ensures SubtractAll(g, order) == g
  {
    hide Records, KeyOf, PodView, NodeKey, PodMeta.Name, NoIdleNames, SumOf, SubtractAll, Lists;
    forall k | k in g ensures !HasPrefix(k, IDLE_PREFIX) {
      var n :| n in Members("node", views, views.Keys, k);
      assert ShowsPod(mode, p, a, w, start, end, n, views[n]);
      var pod :| pod in Records(a.pods) && pod.Name() == n && views[n] == PodView(mode, p, a, w, start, end, pod);
      PodKey(mode, p, a, w, start, end, pod);
    }
    InOrderIsAtOnce(g, order);
    assert SubtractAtOnce(g) == g;
  }

  /**
   What ComputeAllocation followed by AggregateBy accounts for: with idle cost shown apart, shared by
   weight or shared evenly, the regrouped set still sums up to the amount due, and its ratios to one.
   */
  lemma AggregateConserves(p: Params, filterEmpty: bool, a: Answers, w: Weights, start: int, end: int, views: map<string, View>,
                           out: map<string, View>)
    requires var mode := ModeOf(p, filterEmpty);
      && AccountsForAll(mode) && NamesDistinct(a) && IsComputed(mode, p, a, w, start, end, views)
      && (mode != Apart ==> a.pods != [] && !DividesByZero(mode, p, a, w))
    requires p.aggregate == "node" && p.idleByNode ==> NoIdleNames(a)
    requires IsAggregate(p.aggregate, p.idleByNode, views, out)
    ensures TotalOf(out, Cost) == AmountDue(p, a)
    ensures TotalOf(out, CostRatio) == 1.0
  {
    hide IsGrouping, IsComputed, TotalOf, AmountDue, NamesDistinct, NoIdleNames, Records, SubtractAll, Lists, DividesByZero;
    var mode := ModeOf(p, filterEmpty);
    ComputedConserves(mode, p, a, w, start, end, views);
    var g := out;
    if p.aggregate == "node" && p.idleByNode {
      var order;
      g, order :| IsGrouping("node", views, views.Keys, g) && Lists(order, g.Keys) && out == SubtractAll(g, order);
      NothingTakenOff(mode, p, a, w, start, end, views, g, order);
    }
    GroupingConserves(p.aggregate, views, g, Cost);
    GroupingConserves(p.aggregate, views, g, CostRatio);
  }
}
