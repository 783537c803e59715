/**
 The cost manager (cost_manager.go): it prepares a filter, computes the allocations of one window or
 of a range of windows, and regroups them. What the cluster and Prometheus answer is fixed.
 */
module CostManager {
  import opened Allocations
  import opened CostComputation
  import F = Filters
  import opened Ranges
  import opened Windows

  datatype OwnerRef = OwnerRef(uid: string, controller: bool)

  datatype ReplicaSet = ReplicaSet(name: string, ownerReferences: seq<OwnerRef>)

  /** A deployment and the replica sets its selector finds in its namespace. */
  datatype Deployment = Deployment(uid: string, replicaSets: seq<ReplicaSet>)

  /** What there is to be asked: deployments by name, metrics by window and filter, and the cost weights. */
  datatype Cluster = Cluster(
    deployments: string -> seq<Deployment>, metrics: (int, int, F.Content) -> Answers, weights: Weights)

  // ---------------------------------------------------------------------------------------
  // Preparing a filter
  // ---------------------------------------------------------------------------------------

  /** One copy of the name for every reference to the deployment as the controlling owner. */
  function OwnedOnce(rs: ReplicaSet, uid: string, n: nat): seq<string>
    requires n <= |rs.ownerReferences|
  {
    if n == 0 then []
    else
      var ref := rs.ownerReferences[n - 1];
      OwnedOnce(rs, uid, n - 1) + if ref.controller && ref.uid == uid then [rs.name] else []
  }

  /** The names of the first n replica sets that the deployment owns. */
  function Owned(d: Deployment, n: nat): seq<string>
    requires n <= |d.replicaSets|
  {
    if n == 0 then []
    else
      var rs := d.replicaSets[n - 1];
      Owned(d, n - 1) + OwnedOnce(rs, d.uid, |rs.ownerReferences|)
  }

  function OwnedByAny(ds: seq<Deployment>, n: nat): seq<string>
    requires n <= |ds|
  {
    if n == 0 then [] else OwnedByAny(ds, n - 1) + Owned(ds[n - 1], |ds[n - 1].replicaSets|)
  }

  /** What a controller name stands for: the replica sets of the deployments of that name, or itself. */
  function Expand(c: Cluster, name: string): seq<string> {
    var ds := c.deployments(name);
    if ds == [] then [name] else OwnedByAny(ds, |ds|)
  }

  function ExpandAll(c: Cluster, names: seq<string>): seq<string> {
    if names == [] then []
    else ExpandAll(c, names[..|names| - 1]) + Expand(c, names[|names| - 1])
  }

  function Prepared(c: Cluster, f: F.Content): F.Content {
    f.(controllerName := ExpandAll(c, f.controllerName))
  }

  predicate Controls(ref: OwnerRef, uid: string) {
    ref.controller && ref.uid == uid
  }

  /** The deployment is the controlling owner of a replica set of this name. */
  ghost predicate Owns(d: Deployment, r: string) {
    exists rs, ref :: rs in d.replicaSets && rs.name == r && ref in rs.ownerReferences && Controls(ref, d.uid)
  }

  /** A controller name stands for a name in a prepared filter. */
  ghost predicate StandsFor(c: Cluster, name: string, r: string) {
    if c.deployments(name) == [] then r == name else exists d :: d in c.deployments(name) && Owns(d, r)
  }

  lemma {:induction false} OwnedOnceIs(rs: ReplicaSet, uid: string, n: nat, r: string)
    requires n <= |rs.ownerReferences|
    ensures r in OwnedOnce(rs, uid, n) <==> r == rs.name && exists ref :: ref in rs.ownerReferences[..n] && Controls(ref, uid)
  {
    if n > 0 {
      OwnedOnceIs(rs, uid, n - 1, r);
      var ref := rs.ownerReferences[n - 1];
      assert rs.ownerReferences[..n] == rs.ownerReferences[..n - 1] + [ref];
      assert ref in rs.ownerReferences[..n];
    }
  }

  lemma {:induction false} OwnedIs(d: Deployment, n: nat, r: string)
    requires n <= |d.replicaSets|
    ensures r in Owned(d, n) <==>
      exists rs, ref :: rs in d.replicaSets[..n] && rs.name == r && ref in rs.ownerReferences && Controls(ref, d.uid)
  {
    hide OwnedOnce, Controls;
    if n > 0 {
      var rs := d.replicaSets[n - 1];
      OwnedIs(d, n - 1, r);
      OwnedOnceIs(rs, d.uid, |rs.ownerReferences|, r);
      assert rs.ownerReferences[..|rs.ownerReferences|] == rs.ownerReferences;
      assert d.replicaSets[..n] == d.replicaSets[..n - 1] + [rs];
    }
  }

  lemma {:induction false} OwnedByAnyIs(ds: seq<Deployment>, n: nat, r: string)
    requires n <= |ds|
    ensures r in OwnedByAny(ds, n) <==> exists d :: d in ds[..n] && Owns(d, r)
  {
    hide Owned, Controls;
    if n > 0 {
      var d := ds[n - 1];
      OwnedByAnyIs(ds, n - 1, r);
      OwnedIs(d, |d.replicaSets|, r);
      assert d.replicaSets[..|d.replicaSets|] == d.replicaSets;
      assert ds[..n] == ds[..n - 1] + [d];
      assert d in ds[..n];
      assert r in Owned(d, |d.replicaSets|) <==> Owns(d, r);
    }
  }

  lemma ExpandIs(c: Cluster, name: string, r: string)
    ensures r in Expand(c, name) <==> StandsFor(c, name, r)
  {
    hide OwnedByAny, Owns;
    var ds := c.deployments(name);
    OwnedByAnyIs(ds, |ds|, r);
    assert ds[..|ds|] == ds;
  }

  /** The prepared names: those that name no deployment, and the replica sets that the named deployments control. */
  lemma {:induction false} ExpandedNames(c: Cluster, names: seq<string>, r: string)
    ensures r in ExpandAll(c, names) <==> exists name :: name in names && StandsFor(c, name, r)
  {
    hide Expand, StandsFor;
    if names != [] {
      var n := |names| - 1;
      ExpandedNames(c, names[..n], r);
      ExpandIs(c, names[n], r);
      assert names == names[..n] + [names[n]];
    }
  }

  /** The replica sets of the named deployments do not bear names of deployments. */
  ghost predicate NoNameReused(c: Cluster, names: seq<string>) {
    forall i, r :: 0 <= i < |names| && c.deployments(names[i]) != [] && r in Expand(c, names[i]) ==> c.deployments(r) == []
  }

  /** Each of the names stands for itself alone. */
  ghost predicate StandForThemselves(c: Cluster, names: seq<string>) {
    forall r :: r in names ==> Expand(c, r) == [r]
  }

  /** Each of the names stands for something: none is that of deployments without replica sets. */
  ghost predicate StandForSomething(c: Cluster, names: seq<string>) {
    forall r :: r in names ==> Expand(c, r) != []
  }

  lemma {:induction false} ExpandKept(c: Cluster, names: seq<string>)
    requires StandForThemselves(c, names)
    ensures ExpandAll(c, names) == names
  {
    hide Expand;
    if names != [] {
      var n := |names| - 1;
      ExpandKept(c, names[..n]);
      assert names[n] in names;
      assert names[..n] + [names[n]] == names;
    }
  }

  lemma {:induction false} ExpandGrows(c: Cluster, names: seq<string>)
    requires StandForSomething(c, names)
    ensures |ExpandAll(c, names)| >= |names|
  {
    hide Expand;
    if names != [] {
      var n := |names| - 1;
      ExpandGrows(c, names[..n]);
      assert names[n] in names;
    }
  }

  /** If expanding the names changes nothing, none of them can have changed: there is no room for it. */
  lemma {:induction false} KeptStand(c: Cluster, names: seq<string>)
    requires StandForSomething(c, names) && ExpandAll(c, names) == names
    ensures StandForThemselves(c, names)
  {
    hide Expand;
    if names != [] {
      var n := |names| - 1;
      var front, last := names[..n], Expand(c, names[n]);
      ExpandGrows(c, front);
      assert names[n] in names;
      assert names == ExpandAll(c, front) + last;
      assert |last| == 1;
      assert front == ExpandAll(c, front) && last == [names[n]];
      KeptStand(c, front);
      assert names == front + [names[n]];
    }
  }

  lemma {:induction false} ExpandedAreSets(c: Cluster, names: seq<string>, r: string)
    requires NoNameReused(c, names) && r in ExpandAll(c, names)
    ensures c.deployments(r) == []
  {
    var n := |names| - 1;
    if r in ExpandAll(c, names[..n]) {
      ExpandedAreSets(c, names[..n], r);
    } else {
      assert r in Expand(c, names[n]);
    }
  }

  /**
   Preparing a prepared filter changes nothing exactly if expanding its names again does not; and, as long
   as none of them stands for nothing, exactly if each of them stands for itself.
   */
  lemma PreparedOnce(c: Cluster, f: F.Content)
    ensures var names := ExpandAll(c, f.controllerName);
      && (Prepared(c, Prepared(c, f)) == Prepared(c, f) <==> ExpandAll(c, names) == names)
      && (StandForSomething(c, names) ==>
            (Prepared(c, Prepared(c, f)) == Prepared(c, f) <==> StandForThemselves(c, names)))
  {
    hide ExpandAll;
    var names := ExpandAll(c, f.controllerName);
    if StandForThemselves(c, names) {
      ExpandKept(c, names);
    } else if StandForSomething(c, names) && ExpandAll(c, names) == names {
      KeptStand(c, names);
    }
  }

  /** The filter after n preparations. */
  function PreparedTimes(c: Cluster, f: F.Content, n: nat): F.Content {
    if n == 0 then f else Prepared(c, PreparedTimes(c, f, n - 1))
  }

  /** The filter as the i-th step uses it. */
  function FilterAt(c: Cluster, f: F.Content, i: nat): F.Content {
    Prepared(c, PreparedTimes(c, f, i))
  }

  lemma NotPrepared(c: Cluster, f: F.Content)
    ensures PreparedTimes(c, f, 0) == f
  {
  }

  lemma PreparedNext(c: Cluster, f: F.Content, i: nat)
    ensures PreparedTimes(c, f, i + 1) == FilterAt(c, f, i)
  {
  }

  lemma {:induction false} PreparedStays(c: Cluster, f: F.Content, i: nat)
    requires Prepared(c, Prepared(c, f)) == Prepared(c, f)
    ensures FilterAt(c, f, i) == Prepared(c, f)
  {
    hide Prepared;
    if i == 0 {
      NotPrepared(c, f);
    } else {
      PreparedNext(c, f, i - 1);
      PreparedStays(c, f, i - 1);
    }
  }

  /**
   All steps of a range use the same filter, although each rewrites it, exactly if expanding the prepared
   names once more does not change them; and, as long as none of them stands for nothing, exactly if each
   of them stands for itself.
   */
  lemma SameForAllStepsExactly(c: Cluster, f: F.Content)
    ensures var names := ExpandAll(c, f.controllerName);
      && ((forall i: nat :: FilterAt(c, f, i) == Prepared(c, f)) <==> ExpandAll(c, names) == names)
      && (StandForSomething(c, names) ==>
            ((forall i: nat :: FilterAt(c, f, i) == Prepared(c, f)) <==> StandForThemselves(c, names)))
  {
    hide ExpandAll, FilterAt, StandForSomething, StandForThemselves;
    PreparedOnce(c, f);
    if Prepared(c, Prepared(c, f)) == Prepared(c, f) {
      forall i: nat ensures FilterAt(c, f, i) == Prepared(c, f) {
        PreparedStays(c, f, i);
      }
    } else {
      SecondStep(c, f);
      assert FilterAt(c, f, 1) != Prepared(c, f);
    }
  }

  lemma SecondStep(c: Cluster, f: F.Content)
    ensures FilterAt(c, f, 1) == Prepared(c, Prepared(c, f))
  {
    PreparedNext(c, f, 0);
    NotPrepared(c, f);
  }

  /** So it is if no deployment bears the name of a replica set it produced. */
  lemma SameForAllSteps(c: Cluster, f: F.Content, i: nat)
    requires NoNameReused(c, f.controllerName)
    ensures FilterAt(c, f, i) == Prepared(c, f)
  {
    hide FilterAt, ExpandAll;
    var names := ExpandAll(c, f.controllerName);
    forall r | r in names ensures Expand(c, r) == [r] {
      ExpandedAreSets(c, f.controllerName, r);
    }
    ExpandKept(c, names);
    SameForAllStepsExactly(c, f);
  }

  /**
   If a replica set has the name of another deployment, each step takes the filter one owner further:
   here the deployment "a" owns the replica set "b", and a deployment "b" owns "c".
   */
  lemma StepsCanDiffer() returns (c: Cluster, f: F.Content)
    ensures !NoNameReused(c, f.controllerName)
    ensures FilterAt(c, f, 0).controllerName == ["b"] && FilterAt(c, f, 1).controllerName == ["c"]
  {
    hide Owned, OwnedByAny, OwnedOnce, Expand, ExpandAll;
    var da := Deployment("1", [ReplicaSet("b", [OwnerRef("1", true)])]);
    var db := Deployment("2", [ReplicaSet("c", [OwnerRef("2", true)])]);
    c := Cluster(
      name => if name == "a" then [da] else if name == "b" then [db] else [],
      (s, e, g) => Answers([], [], 0.0, 0.0, 0.0),
      Weights(0.0, 0.0));
    f := F.EMPTY.(controllerName := ["a"]);
    OneOwned(da, "b", "1");
    OneOwned(db, "c", "2");
    assert c.deployments("a") == [da] && c.deployments("b") == [db];
    OneExpanded(c, "a", da);
    OneExpanded(c, "b", db);
    ExpandSingle(c, "a");
    ExpandSingle(c, "b");
    PreparedNext(c, f, 0);
    assert f.controllerName[0] == "a" && "b" in Expand(c, "a");
  }

  lemma OneOwned(d: Deployment, name: string, uid: string)
    requires d == Deployment(uid, [ReplicaSet(name, [OwnerRef(uid, true)])])
    ensures Owned(d, 1) == [name]
  {
    var rs := d.replicaSets[0];
    assert OwnedOnce(rs, uid, 0) == [] && OwnedOnce(rs, uid, 1) == [name];
    assert Owned(d, 0) == [];
  }

  lemma OneExpanded(c: Cluster, name: string, d: Deployment)
    requires c.deployments(name) == [d] && |d.replicaSets| == 1
    ensures Expand(c, name) == Owned(d, 1)
  {
    assert OwnedByAny([d], 0) == [];
    assert OwnedByAny([d], 1) == Owned(d, 1);
  }

  lemma ExpandSingle(c: Cluster, name: string)
    ensures ExpandAll(c, [name]) == Expand(c, name)
  {
    assert [name][..0] == [];
    assert ExpandAll(c, []) == [];
  }

  // ---------------------------------------------------------------------------------------
  // Computing allocations
  // ---------------------------------------------------------------------------------------

  predicate OnlyCluster(f: F.Content) {
    f == F.EMPTY.(cluster := f.cluster)
  }

  /** What a range request ends with. */
  datatype RangeOutcome =
    | Done(asr: AllocationSetRange)
    | BadWindow
    | BadParameter                 // an invalid targetType, shareSplit or aggregate parameter
    | NoNumber                     // some step has NaN or infinite figures

  /** views is what the computation of one step returns, with the filter as prepared for it. */
  ghost predicate IsStep(c: Cluster, p: Params, f: F.Content, s: Step, views: map<string, View>) {
    IsComputed(ModeOf(p, OnlyCluster(f)), p, c.metrics(s.start, s.end, f), c.weights, s.start, s.end, views)
  }

  predicate BadStep(c: Cluster, p: Params, f: F.Content, s: Step) {
    InvalidParameter(ModeOf(p, OnlyCluster(f)), p, c.metrics(s.start, s.end, f))
  }

  ghost predicate NoNumberStep(c: Cluster, p: Params, f: F.Content, s: Step) {
    DividesByZero(ModeOf(p, OnlyCluster(f)), p, c.metrics(s.start, s.end, f), c.weights)
  }

  /** set is what a range request returns for a step: nothing if the step has no entries. */
  ghost predicate IsReturned(c: Cluster, p: Params, f: F.Content, s: Step, result: AllocationSet?)
    reads result, if result == null then {} else result.entries.Values
  {
    exists views ::
      && IsStep(c, p, f, s, views)
      && (if views.Keys == {} then result == null
          else result != null && if p.aggregate == "pod" then result.Views() == views
                               else IsAggregate(p.aggregate, p.idleByNode, views, result.Views()))
  }

  /** The computation of a step has succeeded with this set. */
  ghost predicate StepDone(c: Cluster, p: Params, f: F.Content, s: Step, result: AllocationSet?)
    reads result, if result == null then {} else result.entries.Values
    ensures StepDone(c, p, f, s, result) ==> result != null && !BadStep(c, p, f, s) && !NoNumberStep(c, p, f, s)
  {
    result != null && !BadStep(c, p, f, s) && !NoNumberStep(c, p, f, s) && IsStep(c, p, f, s, result.Views())
  }

  /** The n-th turn of a range's loop fails, for a parameter. */
  predicate BadTurn(c: Cluster, p: Params, f: F.Content, g: Range, n: nat) {
    BadStep(c, p, FilterAt(c, f, n), After(g, n))
  }

  ghost predicate NoNumberTurn(c: Cluster, p: Params, f: F.Content, g: Range, n: nat) {
    NoNumberStep(c, p, FilterAt(c, f, n), After(g, n))
  }

  /** The first n turns are taken, without an error. */
  ghost predicate FineUpTo(c: Cluster, p: Params, f: F.Content, g: Range, n: nat) {
    forall i: nat :: i < n ==> !Finished(g, i) && !BadTurn(c, p, f, g, i) && !NoNumberTurn(c, p, f, g, i)
  }

  /** Turn n is the first one that fails, for a parameter. */
  ghost predicate BadFirst(c: Cluster, p: Params, f: F.Content, g: Range, n: nat) {
    FineUpTo(c, p, f, g, n) && !Finished(g, n) && BadTurn(c, p, f, g, n)
  }

  /** Turn n is the first one that fails, for a figure that is not finite. */
  ghost predicate NoNumberFirst(c: Cluster, p: Params, f: F.Content, g: Range, n: nat) {
    FineUpTo(c, p, f, g, n) && !Finished(g, n) && !BadTurn(c, p, f, g, n) && NoNumberTurn(c, p, f, g, n)
  }

  /** All turns are taken without an error, and the n-th shows something. */
  ghost predicate ShowsInTurn(c: Cluster, p: Params, f: F.Content, g: Range, turns: nat, n: nat) {
    && n < turns && Turns(g, turns) && FineUpTo(c, p, f, g, turns)
    && exists views :: IsStep(c, p, FilterAt(c, f, n), After(g, n), views) && views.Keys != {}
  }

  /** The loop does not go on after n turns: it is finished, or a parameter is bad. */
  predicate Stops(c: Cluster, p: Params, f: F.Content, g: Range, n: nat) {
    Finished(g, n) || BadTurn(c, p, f, g, n)
  }

  /** A request is answered exactly if its step is positive, its window is empty, or a turn meets a bad parameter. */
  lemma RequestEndsExactly(c: Cluster, p: Params, f: F.Content, g: Range)
    ensures (exists n: nat :: Stops(c, p, f, g, n)) <==>
      g.size > 0 || g.end <= g.start || exists n: nat :: BadTurn(c, p, f, g, n)
  {
    hide Finished, BadTurn, Turns;
    LoopEndsExactly(g);
    if n: nat :| Finished(g, n) {
      assert Stops(c, p, f, g, n);
    }
    if n: nat :| BadTurn(c, p, f, g, n) {
      assert Stops(c, p, f, g, n);
    }
  }

  lemma Returned(c: Cluster, p: Params, f: F.Content, s: Step, was: AllocationSet?, now: AllocationSet?)
    requires StepDone(c, p, f, s, was) && AggregateOf(p.aggregate, p.idleByNode, was, now)
    ensures IsReturned(c, p, f, s, now)
  {
    hide IsStep, BadStep, NoNumberStep, IsAggregate;
    assert was.Views().Keys == was.entries.Keys;
  }

  lemma SomethingReturned(c: Cluster, p: Params, f: F.Content, g: Range, turns: nat, n: nat, was: AllocationSet?)
    requires n < turns && Turns(g, turns) && FineUpTo(c, p, f, g, turns)
    requires StepDone(c, p, FilterAt(c, f, n), After(g, n), was) && !NothingIn(was)
    ensures ShowsInTurn(c, p, f, g, turns, n)
  {
    hide IsStep, BadStep, NoNumberStep, FilterAt, After, FineUpTo, Turns;
    assert IsStep(c, p, FilterAt(c, f, n), After(g, n), was.Views()) && was.Views().Keys == was.entries.Keys;
  }

  lemma NothingReturned(aggregate: string, idleByNode: bool, was: AllocationSet?, now: AllocationSet?)
    requires AggregateOf(aggregate, idleByNode, was, now) && NothingIn(was)
    ensures now == null
  {
  }

  lemma NothingDone(c: Cluster, p: Params, f: F.Content, g: Range)
    ensures FineUpTo(c, p, f, g, 0)
  {
  }

  lemma FirstTurn(g: Range)
    ensures After(g, 0) == Step(g.start, g.start + g.size)
  {
  }

  lemma NextTurn(g: Range, n: nat)
    ensures After(g, n + 1) == Step(After(g, n).end, Min(After(g, n).end + g.size, g.end))
    ensures Finished(g, n) <==> g.end <= After(g, n).start
  {
  }

  lemma OneMoreFine(c: Cluster, p: Params, f: F.Content, g: Range, n: nat)
    requires FineUpTo(c, p, f, g, n) && !Finished(g, n) && !BadTurn(c, p, f, g, n) && !NoNumberTurn(c, p, f, g, n)
    ensures FineUpTo(c, p, f, g, n + 1)
  {
  }

  lemma FineToTheEnd(c: Cluster, p: Params, f: F.Content, g: Range, n: nat)
    requires FineUpTo(c, p, f, g, n) && Finished(g, n)
    ensures Turns(g, n)
  {
    hide Finished, BadTurn, NoNumberTurn;
  }

  class CostManager {
    const cluster: Cluster

    constructor (cluster: Cluster)
      ensures this.cluster == cluster
    {
      this.cluster := cluster;
    }

    method OwnedNames(d: Deployment) returns (names: seq<string>)
      ensures names == Owned(d, |d.replicaSets|)
    {
      names := [];
      var i := 0;
      while i < |d.replicaSets|
        invariant 0 <= i <= |d.replicaSets| && names == Owned(d, i)
      {
        var rs := d.replicaSets[i];
        var j := 0;
        while j < |rs.ownerReferences|
          invariant 0 <= j <= |rs.ownerReferences| && names == Owned(d, i) + OwnedOnce(rs, d.uid, j)
        {
          var ref := rs.ownerReferences[j];
          if ref.controller && ref.uid == d.uid {
            names := names + [rs.name];
          }
          j := j + 1;
        }
        i := i + 1;
      }
    }

    method ExpandName(controller: string) returns (names: seq<string>)
      ensures names == Expand(cluster, controller)
    {
      var deployments := cluster.deployments(controller);
      if deployments == [] {
        return [controller];
      }
      names := [];
      var j := 0;
      while j < |deployments|
        invariant 0 <= j <= |deployments| && names == OwnedByAny(deployments, j)
      {
        var owned := OwnedNames(deployments[j]);
        names := names + owned;
        j := j + 1;
      }
    }

    /** Replaces the controller names of the filter it is given, in place. */
    method PreprocessFilter(filter: F.Filter)
      modifies filter
      ensures filter.View() == Prepared(cluster, old(filter.View()))
    {
      hide Expand;
      var names := filter.controllerName;
      var newControllerName: seq<string> := [];
      var i := 0;
      while i < |names|
        invariant 0 <= i <= |names| && newControllerName == ExpandAll(cluster, names[..i])
        modifies {}
      {
        assert names[..i + 1][..i] == names[..i];
        var expanded := ExpandName(names[i]);
        newControllerName := newControllerName + expanded;
        i := i + 1;
      }
      assert names[..i] == names && filter.View() == old(filter.View());
      filter.controllerName := newControllerName;
    }

    method ComputeAllocation(s: Step, p: Params, filter: F.Filter) returns (outcome: Outcome)
      modifies filter
      ensures filter.View() == Prepared(cluster, old(filter.View()))
      ensures var f := filter.View();
        && (outcome.Rejected? <==> BadStep(cluster, p, f, s))
        && (outcome.NotFinite? <==> !BadStep(cluster, p, f, s) && NoNumberStep(cluster, p, f, s))
        && (outcome.Computed? ==>
              && fresh(outcome.allocSet) && fresh(outcome.allocSet.entries.Values)
              && IsStep(cluster, p, f, s, outcome.allocSet.Views()))
    {
      hide IsComputed, DividesByZero, InvalidParameter, ModeOf, Prepared;
      PreprocessFilter(filter);
      var f := filter.View();
      outcome := ComputeWindow(s.start, s.end, p, filter.IsEmptyExceptCluster(), cluster.metrics(s.start, s.end, f), cluster.weights);
      assert filter.IsEmptyExceptCluster() == OnlyCluster(f);
    }
  
    /** One turn of the range loop. */
    method ComputeTurn(asr: AllocationSetRange, s: Step, p: Params, filter: F.Filter, ghost f: F.Content, ghost g: Range,
                       ghost i: nat)
      returns (outcome: Outcome)
      requires filter.View() == PreparedTimes(cluster, f, i) && s == After(g, i)
      modifies filter, asr
      ensures filter.View() == PreparedTimes(cluster, f, i + 1)
      ensures outcome.Rejected? ==> BadTurn(cluster, p, f, g, i)
      ensures outcome.NotFinite? ==> !BadTurn(cluster, p, f, g, i) && NoNumberTurn(cluster, p, f, g, i)
      ensures outcome.Computed? ==>
        && asr.allocations == old(asr.allocations) + [outcome.allocSet]
        && !BadTurn(cluster, p, f, g, i) && !NoNumberTurn(cluster, p, f, g, i)
        && StepDone(cluster, p, FilterAt(cluster, f, i), After(g, i), outcome.allocSet)
    {
      hide BadStep, NoNumberStep, IsStep, Prepared;
      outcome := ComputeAllocation(s, p, filter);
      PreparedNext(cluster, f, i);
      if outcome.Computed? {
        asr.Append(outcome.allocSet);
      }
    }

    /**
     Computes the sets of a range, step by step, and regroups them. All that is required is that the loop
     comes to an end at all, which RequestEndsExactly says of a request.
     */
    method GetRangeAllocation(window: Window, step: int, p: Params, filter: F.Filter) returns (r: RangeOutcome)
      requires !window.IsOpen() && !window.IsNegative() ==>
        exists n: nat :: Stops(cluster, p, filter.View(), Range(window.start.value.ns, window.end.value.ns, step), n)
      modifies filter
      ensures r == BadWindow <==> window.IsOpen() || window.IsNegative()
      ensures r == BadWindow ==> filter.View() == old(filter.View())
      ensures r != BadWindow ==>
        var g, f := Range(window.start.value.ns, window.end.value.ns, step), old(filter.View());
        && (r == BadParameter ==>
              || (exists n: nat :: BadFirst(cluster, p, f, g, n))
              || (p.aggregate != "pod" && !Supported(p.aggregate)
                    && exists turns: nat, n: nat :: ShowsInTurn(cluster, p, f, g, turns, n)))
        && (r == NoNumber ==> exists n: nat :: NoNumberFirst(cluster, p, f, g, n))
        && (r.Done? ==>
              var sets := r.asr.allocations;
              && Turns(g, |sets|) && FineUpTo(cluster, p, f, g, |sets|)
              && (p.aggregate == "pod" || Supported(p.aggregate) || forall i :: 0 <= i < |sets| ==> sets[i] == null)
              && forall i :: 0 <= i < |sets| ==> IsReturned(cluster, p, FilterAt(cluster, f, i), After(g, i), sets[i]))
    {
      hide PreparedTimes, FilterAt, BadTurn, NoNumberTurn, IsStep, StepDone, IsReturned, FineUpTo, ShowsInTurn, After, Finished, Turns;
      if window.IsOpen() || window.IsNegative() {
        return BadWindow;
      }
      var start, end := window.start.value.ns, window.end.value.ns;
      ghost var f := filter.View();
      ghost var g := Range(start, end, step);
      ghost var last: nat :| Stops(cluster, p, f, g, last);
      var asr := new AllocationSetRange();
      var stepStart, stepEnd := start, start + step;
      ghost var i: nat := 0;
      NotPrepared(cluster, f);
      FirstTurn(g);
      NothingDone(cluster, p, f, g);
      while stepStart < end
        invariant Step(stepStart, stepEnd) == After(g, i)
        invariant |asr.allocations| == i <= last
        invariant filter.View() == PreparedTimes(cluster, f, i)
        invariant fresh(asr)
        invariant FineUpTo(cluster, p, f, g, i)
        invariant forall j :: 0 <= j < i ==> StepDone(cluster, p, FilterAt(cluster, f, j), After(g, j), asr.allocations[j])
        decreases last - i
      {
        NextTurn(g, i);
        var outcome := ComputeTurn(asr, Step(stepStart, stepEnd), p, filter, f, g, i);
        match outcome {
          case Rejected =>
            assert BadFirst(cluster, p, f, g, i);
            return BadParameter;
          case NotFinite =>
            assert NoNumberFirst(cluster, p, f, g, i);
            return NoNumber;
          case Computed(_) =>
        }
        OneMoreFine(cluster, p, f, g, i);
        stepStart := stepEnd;
        stepEnd := stepStart + step;
        if end < stepEnd {
          stepEnd := end;
        }
        i := i + 1;
      }
      NextTurn(g, i);
      FineToTheEnd(cluster, p, f, g, i);
      r := RegroupAll(asr, p, f, g);
    }

    /** Regroups the computed sets, unless the aggregate is not supported and there is something to regroup. */
    method RegroupAll(asr: AllocationSetRange, p: Params, ghost f: F.Content, ghost g: Range) returns (r: RangeOutcome)
      requires Turns(g, |asr.allocations|) && FineUpTo(cluster, p, f, g, |asr.allocations|)
      requires forall j :: 0 <= j < |asr.allocations| ==>
        StepDone(cluster, p, FilterAt(cluster, f, j), After(g, j), asr.allocations[j])
      modifies asr
      ensures r == BadParameter || r == Done(asr)
      ensures r == BadParameter ==>
        && p.aggregate != "pod" && !Supported(p.aggregate)
        && exists turns: nat, n: nat :: ShowsInTurn(cluster, p, f, g, turns, n)
      ensures r.Done? ==>
        var sets := asr.allocations;
        && Turns(g, |sets|) && FineUpTo(cluster, p, f, g, |sets|)
        && (p.aggregate == "pod" || Supported(p.aggregate) || forall i :: 0 <= i < |sets| ==> sets[i] == null)
        && forall i :: 0 <= i < |sets| ==> IsReturned(cluster, p, FilterAt(cluster, f, i), After(g, i), sets[i])
    {
      hide FilterAt, StepDone, IsReturned, FineUpTo, ShowsInTurn, After, Turns, NothingIn, AggregateOf, Supported;
      ghost var sets := asr.allocations;
      var ok := asr.AggregateBy(p.aggregate, p.idleByNode);
      if !ok {
        ghost var n :| 0 <= n < |sets| && !NothingIn(sets[n]);
        SomethingReturned(cluster, p, f, g, |sets|, n, sets[n]);
        return BadParameter;
      }
      forall j | 0 <= j < |sets|
        ensures IsReturned(cluster, p, FilterAt(cluster, f, j), After(g, j), asr.allocations[j])
        ensures NothingIn(sets[j]) ==> asr.allocations[j] == null
      {
        Returned(cluster, p, FilterAt(cluster, f, j), After(g, j), sets[j], asr.allocations[j]);
        if NothingIn(sets[j]) {
          NothingReturned(p.aggregate, p.idleByNode, sets[j], asr.allocations[j]);
        }
      }
      return Done(asr);
    }
  }
}
