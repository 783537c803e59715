/** What regrouping keeps, and when the order of its loops matters. */
module AllocationProofs {
  import opened GoStrings
  import opened LastWriter
  import opened Sums
  import opened Allocations

  /** Regrouping conserves every figure. */
  lemma GroupingConserves(aggregate: string, m: map<string, View>, g: map<string, View>, f: Field)
    requires IsGrouping(aggregate, m, m.Keys, g)
    ensures TotalOf(g, f) == TotalOf(m, f)
  {
    hide KeyOf, SumOver;
    var key := n => if n in m then KeyOf(aggregate, m[n]) else "";
    var term, sums := n => FigureOf(m, n, f), k => FigureOf(g, k, f);
    forall n | n in m ensures key(n) in g {
      assert n in Members(aggregate, m, m.Keys, key(n));
    }
    forall k | k in g ensures sums(k) == SumOver(Group(m.Keys, key, k), term) {
      assert Members(aggregate, m, m.Keys, k) == Group(m.Keys, key, k);
      assert SumsUp(aggregate, m, m.Keys, g[k]);
    }
    SumGroups(m.Keys, key, g.Keys, term, sums);
  }

  /** The grouping loop's order does not matter: any two groupings have the same keys and figures. */
  lemma GroupingsAgree(aggregate: string, m: map<string, View>, g: map<string, View>, h: map<string, View>)
    requires IsGrouping(aggregate, m, m.Keys, g) && IsGrouping(aggregate, m, m.Keys, h)
    ensures g.Keys == h.Keys
    ensures forall k :: k in g ==> g[k].figures == h[k].figures
  {
    hide KeyOf, SumOf, Members;
    forall k ensures k in g <==> k in h {
    }
    forall k | k in g ensures g[k].figures == h[k].figures {
      assert SumsUp(aggregate, m, m.Keys, g[k]) && SumsUp(aggregate, m, m.Keys, h[k]);
      SameFigures(g[k].figures, h[k].figures);
    }
  }

  lemma SameFigures(a: Figures, b: Figures)
    requires forall f :: a.Get(f) == b.Get(f)
    ensures a == b
  {
    assert a.Get(CPURequest) == b.Get(CPURequest) && a.Get(CPUUsage) == b.Get(CPUUsage);
    assert a.Get(RAMRequest) == b.Get(RAMRequest) && a.Get(RAMUsage) == b.Get(RAMUsage);
    assert a.Get(Cost) == b.Get(Cost) && a.Get(CostRatio) == b.Get(CostRatio);
    assert a.Get(CustomCost) == b.Get(CustomCost);
  }

  // ---------------------------------------------------------------------------------------
  // The in-place subtraction and its order
  // ---------------------------------------------------------------------------------------

  function NodeOf(k: string): string {
    TrimPrefix(k, IDLE_PREFIX)
  }

  predicate Free(v: View) {
    v.figures.cost == 0.0 && v.figures.costRatio == 0.0
  }

  /**
   No idle entry of an idle entry of something that has cost: the only constellation in which one
   turn of the loop reads what another turn changes.
   */
  predicate NoCostlyChain(g: map<string, View>) {
    forall k :: k in g && HasNode(g, k) && HasNode(g, NodeOf(k)) ==> Free(g[NodeOf(NodeOf(k))])
  }

  /** Each idle entry less the figures its node had before the loop. */
  function SubtractAtOnce(g: map<string, View>): map<string, View> {
    map k | k in g :: if HasNode(g, k) then Less(g[k], g[NodeOf(k)]) else g[k]
  }

  predicate NoRepeats(order: seq<string>) {
    forall i, j :: 0 <= i < j < |order| ==> order[i] != order[j]
  }

  lemma {:induction false} SubtractPrefix(g: map<string, View>, order: seq<string>, k: string)
    requires NoCostlyChain(g) && NoRepeats(order) && k in g
    ensures SubtractAll(g, order)[k] == if k in order then SubtractAtOnce(g)[k] else g[k]
  {
    if order != [] {
      var front, last := order[..|order| - 1], order[|order| - 1];
      SubtractPrefix(g, front, k);
      assert k in order <==> k in front || k == last;
      if k == last && HasNode(g, k) {
        var j := NodeOf(k);
        SubtractPrefix(g, front, j);
        assert HasNode(g, j) ==> Free(g[NodeOf(j)]);
      }
    }
  }

  lemma InOrderIsAtOnce(g: map<string, View>, order: seq<string>)
    requires NoCostlyChain(g) && Lists(order, g.Keys)
    ensures SubtractAll(g, order) == SubtractAtOnce(g)
  {
    forall k | k in g ensures SubtractAll(g, order)[k] == SubtractAtOnce(g)[k] {
      SubtractPrefix(g, order, k);
    }
  }

  lemma {:induction false} Untouched(g: map<string, View>, order: seq<string>, k: string)
    requires k !in order && k in g
    ensures SubtractAll(g, order)[k] == g[k]
  {
    if order != [] {
      Untouched(g, order[..|order| - 1], k);
    }
  }

  lemma {:induction false} SubtractConcat(g: map<string, View>, a: seq<string>, b: seq<string>)
    ensures SubtractAll(g, a + b) == SubtractAll(SubtractAll(g, a), b)
  {
    if b == [] {
      assert a + b == a;
    } else {
      assert (a + b)[..|a + b| - 1] == a + b[..|b| - 1];
      SubtractConcat(g, a, b[..|b| - 1]);
    }
  }

  lemma {:induction false} SomeListing(s: set<string>) returns (order: seq<string>)
    ensures Lists(order, s)
  {
    if s == {} {
      order := [];
    } else {
      var k :| k in s;
      var rest := SomeListing(s - {k});
      order := [k] + rest;
    }
  }

  /** Two orders of the keys of g that end with different figures for k. */
  lemma OrdersDiffer(g: map<string, View>, k: string) returns (first: seq<string>, second: seq<string>)
    requires k in g && HasNode(g, k) && HasNode(g, NodeOf(k)) && !Free(g[NodeOf(NodeOf(k))])
    ensures Lists(first, g.Keys) && Lists(second, g.Keys)
    ensures SubtractAll(g, first) != SubtractAll(g, second)
  {
    var j := NodeOf(k);
    assert |j| < |k|;
    var rest := SomeListing(g.Keys - {j, k});
    first, second := [k, j] + rest, [j, k] + rest;
    ListsBoth(k, j, rest, g.Keys);
    ListsBoth(j, k, rest, g.Keys);
    ChainValue(g, k, rest);
  }

  lemma ListsBoth(a: string, b: string, rest: seq<string>, keys: set<string>)
    requires a != b && a in keys && b in keys && Lists(rest, keys - {a, b})
    ensures Lists([a, b] + rest, keys)
  {
  }

  lemma ChainValue(g: map<string, View>, k: string, rest: seq<string>)
    requires k in g && HasNode(g, k) && HasNode(g, NodeOf(k)) && !Free(g[NodeOf(NodeOf(k))])
    requires k !in rest && NodeOf(k) !in rest
    ensures SubtractAll(g, [k, NodeOf(k)] + rest)[k] != SubtractAll(g, [NodeOf(k), k] + rest)[k]
  {
    var j := NodeOf(k);
    var i := NodeOf(j);
    assert |i| < |j| < |k|;
    SubtractConcat(g, [k, j], rest);
    SubtractConcat(g, [j, k], rest);
    Untouched(SubtractAll(g, [k, j]), rest, k);
    Untouched(SubtractAll(g, [j, k]), rest, k);
    TwoSteps(g, k, j);
    TwoSteps(g, j, k);
  }

  lemma TwoSteps(g: map<string, View>, a: string, b: string)
    ensures SubtractAll(g, [a, b]) == SubtractOne(SubtractOne(g, a), b)
  {
    assert [a, b][..1] == [a] && [a][..0] == [];
    assert SubtractAll(g, [a]) == SubtractOne(g, a);
  }

  /**
   The subtraction gives one result for all iteration orders exactly when there is no costly chain,
   and then it is the subtraction of the original figures.
   */
  lemma OrderFreeExactly(g: map<string, View>)
    ensures NoCostlyChain(g) <==>
      forall order :: Lists(order, g.Keys) ==> SubtractAll(g, order) == SubtractAtOnce(g)
    ensures NoCostlyChain(g) <==>
      forall a, b :: Lists(a, g.Keys) && Lists(b, g.Keys) ==> SubtractAll(g, a) == SubtractAll(g, b)
  {
    hide SubtractAll, SubtractAtOnce, Lists;
    if NoCostlyChain(g) {
      forall order | Lists(order, g.Keys) ensures SubtractAll(g, order) == SubtractAtOnce(g) {
        InOrderIsAtOnce(g, order);
      }
    } else {
      var k :| k in g && HasNode(g, k) && HasNode(g, NodeOf(k)) && !Free(g[NodeOf(NodeOf(k))]);
      var a, b := OrdersDiffer(g, k);
    }
  }
}
