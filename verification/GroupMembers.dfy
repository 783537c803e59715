/** Which entries make up which group, for each aggregate, in terms of what the entries say. */
module GroupMembers {
  import opened Wrappers
  import opened GoStrings
  import opened LastWriter
  import opened Sums
  import opened Allocations

  /** The aggregates that are supported beside "pod". */
  lemma SupportedAre(aggregate: string)
    ensures Supported(aggregate) <==>
      aggregate in {"namespace", "controller", "controllerKind", "node"} || exists l :: aggregate == "label:" + l
  {
    if HasPrefix(aggregate, "label:") {
      assert aggregate == "label:" + aggregate[|"label:"|..];
    }
  }

  /** The entry stands for idle cost, of the cluster or of a node. */
  ghost predicate StandsForIdle(v: View) {
    v.name == "__idle__" || exists rest :: v.name == "idle:" + rest
  }

  /** What the entry's properties say for an aggregate; the empty string and "<none>" say nothing. */
  ghost predicate Says(aggregate: string, v: View, x: string) {
    && v.properties.Some? && x != ""
    && var p := v.properties.value;
       || (aggregate == "namespace" && p.namespace == x)
       || (aggregate == "controller"
             && p.controllerKind != "<none>" && p.controller != "<none>" && x == p.controllerKind + ":" + p.controller)
       || (aggregate == "controllerKind" && p.controllerKind != "<none>" && p.controllerKind == x)
       || (aggregate == "node" && p.node == x)
       || (exists l :: aggregate == "label:" + l && l in p.labels && p.labels[l] == x)
  }

  /** The group of an entry: an idle entry keeps its name, others go by what they say, or are unallocated. */
  ghost predicate BelongsTo(aggregate: string, v: View, group: string) {
    if StandsForIdle(v) then group == v.name
    else Says(aggregate, v, group) || (group == "__unallocated__" && forall x :: !Says(aggregate, v, x))
  }

  lemma IdleIs(v: View)
    ensures StandsForIdle(v) <==> IsIdleName(v.name)
  {
    if HasPrefix(v.name, IDLE_PREFIX) {
      assert v.name == "idle:" + v.name[|IDLE_PREFIX|..];
    }
  }

  lemma LabelIs(aggregate: string, l: string)
    ensures aggregate == "label:" + l <==> HasPrefix(aggregate, "label:") && TrimPrefix(aggregate, "label:") == l
  {
    if HasPrefix(aggregate, "label:") {
      assert aggregate == "label:" + aggregate[|"label:"|..];
    }
    assert ("label:" + l)[..6] == "label:" && ("label:" + l)[6..] == l;
  }

  lemma NotALabel(aggregate: string)
    requires HasPrefix(aggregate, "label:")
    ensures aggregate !in {"namespace", "controller", "controllerKind", "node"}
  {
    assert aggregate[5] == ':';
    assert "namespace"[5] == 'p' && "controller"[5] == 'o' && "controllerKind"[5] == 'o' && |"node"| == 4;
  }

  lemma SaysIs(aggregate: string, v: View, x: string)
    requires Supported(aggregate)
    ensures Says(aggregate, v, x) <==> v.properties.Some? && x != "" && PropertyKey(aggregate, v.properties.value) == x
  {
    hide HasPrefix, TrimPrefix;
    forall l ensures aggregate == "label:" + l <==> HasPrefix(aggregate, "label:") && TrimPrefix(aggregate, "label:") == l {
      LabelIs(aggregate, l);
    }
    if HasPrefix(aggregate, "label:") {
      NotALabel(aggregate);
      assert aggregate == "label:" + TrimPrefix(aggregate, "label:");
    }
  }

  lemma KeyIsGroup(aggregate: string, v: View, group: string)
    requires Supported(aggregate)
    ensures BelongsTo(aggregate, v, group) <==> KeyOf(aggregate, v) == group
  {
    hide Says, StandsForIdle, IsIdleName, PropertyKey, Supported;
    IdleIs(v);
    forall x ensures Says(aggregate, v, x) <==> v.properties.Some? && x != "" && PropertyKey(aggregate, v.properties.value) == x {
      SaysIs(aggregate, v, x);
    }
    if v.properties.Some? && PropertyKey(aggregate, v.properties.value) != "" {
      assert Says(aggregate, v, PropertyKey(aggregate, v.properties.value));
    }
  }

  /** The entries of a set that belong to a group. */
  ghost function MembersOf(aggregate: string, m: map<string, View>, group: string): set<string> {
    set n | n in m && BelongsTo(aggregate, m[n], group)
  }

  lemma MembersAre(aggregate: string, m: map<string, View>, group: string)
    requires Supported(aggregate)
    ensures Members(aggregate, m, m.Keys, group) == MembersOf(aggregate, m, group)
  {
    hide BelongsTo, KeyOf, Supported;
    forall n | n in m ensures BelongsTo(aggregate, m[n], group) <==> KeyOf(aggregate, m[n]) == group {
      KeyIsGroup(aggregate, m[n], group);
    }
  }

  /** What the subtraction leaves as it is: all but cost and ratio of idle entries. */
  lemma {:induction false} SubtractLeaves(g: map<string, View>, order: seq<string>, k: string, f: Field)
    requires k in g && (!HasPrefix(k, IDLE_PREFIX) || (f != Cost && f != CostRatio))
    ensures SubtractAll(g, order)[k].figures.Get(f) == g[k].figures.Get(f)
    ensures SubtractAll(g, order)[k].name == g[k].name
  {
    hide TrimPrefix;
    if order != [] {
      SubtractLeaves(g, order[..|order| - 1], k, f);
    }
  }

  /**
   AggregateBy as an exact group-by: there is a group for exactly the keys some entry belongs to, under
   that name, and each figure is the sum over the entries that belong to it; only the cost and ratio of
   idle entries can be less, in the node view with idle cost by node.
   */
  lemma GroupsAre(aggregate: string, idleByNode: bool, m: map<string, View>, out: map<string, View>, k: string, f: Field)
    requires Supported(aggregate) && IsAggregate(aggregate, idleByNode, m, out)
    ensures k in out <==> exists n :: n in m && BelongsTo(aggregate, m[n], k)
    ensures k in out ==> out[k].name == k
    ensures k in out && !(aggregate == "node" && idleByNode && HasPrefix(k, "idle:") && (f == Cost || f == CostRatio)) ==>
      out[k].figures.Get(f) == SumOf(m, MembersOf(aggregate, m, k), f)
  {
    hide BelongsTo, KeyOf, Supported, SubtractAll, Lists, SumOf, Figures.Get;
    MembersAre(aggregate, m, k);
    var g := out;
    if aggregate == "node" && idleByNode {
      var order;
      g, order :| IsGrouping(aggregate, m, m.Keys, g) && Lists(order, g.Keys) && out == SubtractAll(g, order);
      if k in g && !(HasPrefix(k, "idle:") && (f == Cost || f == CostRatio)) {
        SubtractLeaves(g, order, k, f);
      }
      if k in g {
        SubtractLeaves(g, order, k, CPUUsage);
      }
    }
    assert k in g <==> MembersOf(aggregate, m, k) != {};
    if k in g {
      assert SumsUp(aggregate, m, m.Keys, g[k]);
    }
    if n :| n in m && BelongsTo(aggregate, m[n], k) {
      assert n in MembersOf(aggregate, m, k);
    }
  }

  /** Every entry belongs to exactly one group. */
  lemma OneGroup(aggregate: string, v: View) returns (group: string)
    requires Supported(aggregate)
    ensures forall k :: BelongsTo(aggregate, v, k) <==> k == group
  {
    hide BelongsTo, KeyOf, Supported;
    group := KeyOf(aggregate, v);
    forall k ensures BelongsTo(aggregate, v, k) <==> k == group {
      KeyIsGroup(aggregate, v, k);
    }
  }
}
