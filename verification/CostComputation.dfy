/**
 Pricing the pods of one window and distributing what is left over (ComputeAllocation in
 cost_manager.go). The answers of Prometheus for the window are given; money is a real number.
 */
module CostComputation {
  import opened Wrappers
  import opened LastWriter
  import opened Sums
  import opened Allocations

  datatype PodMeta = PodMeta(namespace: string, pod: string) {
    function Name(): string {
      namespace + "/" + pod
    }
  }

  /** What the metrics say about a pod: its properties, its usage, its cost by requests. */
  datatype PodRecord = PodRecord(meta: PodMeta, properties: Properties, usage: Figures, costCPU: real, costRAM: real)

  datatype NodeCost = NodeCost(node: string, value: real)

  datatype Answers = Answers(
    pods: seq<PodRecord>, nodeCosts: seq<NodeCost>,
    pretaxTotal: real, pretaxGrossTotal: real, pretaxNode: real)

  datatype Weights = Weights(cpu: real, ram: real)

  datatype APIType = TypeCost | TypeAllocation

  datatype CostType = PretaxAmount | PretaxGrossAmount | CostEstimated

  datatype Params = Params(
    apiType: APIType, costType: CostType, targetType: string, aggregate: string,
    idle: bool, shareIdle: bool, shareSplit: string, idleByNode: bool)

  /** A pod while it is priced; its allocation is shared with the set that is returned. */
  datatype Pod = Pod(allocations: Allocation, costCPU: real, costRAM: real)

  datatype Outcome =
    | Computed(allocSet: AllocationSet)
    | Rejected          // an invalid targetType or shareSplit parameter
    | NotFinite         // the code goes on with NaN or infinite figures, which real numbers cannot show

  // ---------------------------------------------------------------------------------------
  // The figures of a window
  // ---------------------------------------------------------------------------------------

  /** math.Round(x * 1000) / 1000: half away from zero. */
  function RoundThousandths(x: real): real {
    var y := x * 1000.0;
    if y >= 0.0 then (y + 0.5).Floor as real / 1000.0 else -((0.5 - y).Floor as real) / 1000.0
  }

  function Weighted(w: Weights, costCPU: real, costRAM: real): real {
    costCPU * w.cpu + costRAM * w.ram
  }

  function Estimate(w: Weights, costCPU: real, costRAM: real): real {
    RoundThousandths(Weighted(w, costCPU, costRAM))
  }

  /** Division as the code guards it for ratios; where it does not, the results below exclude zero divisors. */
  function Quotient(x: real, y: real): real {
    if y == 0.0 then 0.0 else x / y
  }

  function NodeTotal(nodeCosts: seq<NodeCost>): real {
    if nodeCosts == [] then 0.0
    else NodeTotal(nodeCosts[..|nodeCosts| - 1]) + nodeCosts[|nodeCosts| - 1].value
  }

  /** The pods of a window: of several records of a pod the first counts. */
  function Records(pods: seq<PodRecord>): map<PodMeta, PodRecord> {
    if pods == [] then map[]
    else
      var before, last := Records(pods[..|pods| - 1]), pods[|pods| - 1];
      if last.meta in before then before else before[last.meta := last]
  }

  /** The billed amount for a target and cost type; None is an invalid target type. */
  function Billing(p: Params, a: Answers): Option<real> {
    if p.targetType == "cluster" then
      Some(match p.costType
           case PretaxAmount => a.pretaxTotal
           case PretaxGrossAmount => a.pretaxGrossTotal
           case CostEstimated => 0.0)
    else if p.targetType == "node" then Some(if p.costType == PretaxAmount then a.pretaxNode else 0.0)
    else None
  }

  /** The amount that is to be accounted for: the nodes' cost, or the bill. */
  function AmountDue(p: Params, a: Answers): real {
    if p.apiType == TypeCost then NodeTotal(a.nodeCosts)
    else match Billing(p, a) case Some(x) => x case None => 0.0
  }

  function EstimatedCost(a: Answers, w: Weights, k: PodMeta): real {
    var recs := Records(a.pods);
    if k in recs then Estimate(w, recs[k].costCPU, recs[k].costRAM) else 0.0
  }

  function EstimatedRatio(a: Answers, w: Weights, k: PodMeta): real {
    Quotient(EstimatedCost(a, w, k), NodeTotal(a.nodeCosts))
  }

  /** A pod's cost before idle cost is shared: estimated, or its ratio of the bill. */
  function PodCost(p: Params, a: Answers, w: Weights, k: PodMeta): real {
    if p.apiType == TypeCost then EstimatedCost(a, w, k) else EstimatedRatio(a, w, k) * AmountDue(p, a)
  }

  ghost function PodTotal(p: Params, a: Answers, w: Weights): real {
    SumOver(Records(a.pods).Keys, k => PodCost(p, a, w, k))
  }

  ghost function RatioTotal(a: Answers, w: Weights): real {
    SumOver(Records(a.pods).Keys, k => EstimatedRatio(a, w, k))
  }

  ghost function IdleCost(p: Params, a: Answers, w: Weights): real {
    AmountDue(p, a) - PodTotal(p, a, w)
  }

  /** What happens to idle cost. */
  datatype IdleMode = NoIdle | SharedByWeight | SharedEvenly | SharedWrongly | ByNode | Apart

  function ModeOf(p: Params, filterEmpty: bool): IdleMode {
    if !p.idle || !filterEmpty then NoIdle
    else if p.shareIdle then
      (if p.shareSplit == "weighted" then SharedByWeight
       else if p.shareSplit == "even" then SharedEvenly
       else SharedWrongly)
    else if p.aggregate == "node" && p.idleByNode then ByNode
    else Apart
  }

  /** The part of an amount that one cost of a total stands for. */
  function Proportion(amount: real, cost: real, total: real): real {
    Quotient(amount * cost, total)
  }

  ghost function FinalCost(mode: IdleMode, p: Params, a: Answers, w: Weights, k: PodMeta): real {
    var base := PodCost(p, a, w, k);
    match mode
    case SharedByWeight => base + Proportion(IdleCost(p, a, w), base, PodTotal(p, a, w))
    case SharedEvenly => base + Quotient(IdleCost(p, a, w), |Records(a.pods)| as real)
    case _ => base
  }

  ghost function FinalRatio(mode: IdleMode, p: Params, a: Answers, w: Weights, k: PodMeta): real {
    if mode.SharedByWeight? || mode.SharedEvenly? then Quotient(FinalCost(mode, p, a, w, k), AmountDue(p, a))
    else EstimatedRatio(a, w, k)
  }

  ghost function PodView(mode: IdleMode, p: Params, a: Answers, w: Weights, start: int, end: int, k: PodMeta): View
    requires k in Records(a.pods)
  {
    var rec := Records(a.pods)[k];
    Shown(k.Name(), Some(rec.properties), start, end,
          rec.usage.(cost := FinalCost(mode, p, a, w, k), costRatio := FinalRatio(mode, p, a, w, k)))
  }

  const NO_FIGURES := Figures(0.0, 0.0, 0.0, 0.0, 0.0, 0.0, 0.0)

  function IdleView(name: string, start: int, end: int, cost: real, ratio: real): View {
    Shown(name, None, start, end, NO_FIGURES.(cost := cost, costRatio := ratio))
  }

  /** A node's price as a part of the amount due, recorded under its idle name. */
  function NodeView(p: Params, a: Answers, start: int, end: int, n: NodeCost): View {
    var ratio := Quotient(n.value, NodeTotal(a.nodeCosts));
    IdleView(IDLE_PREFIX + n.node, start, end, ratio * AmountDue(p, a), ratio)
  }

  function NodeEntries(p: Params, a: Answers, start: int, end: int, n: nat): seq<(string, View)>
    requires n <= |a.nodeCosts|
  {
    if n == 0 then []
    else
      var v := NodeView(p, a, start, end, a.nodeCosts[n - 1]);
      NodeEntries(p, a, start, end, n - 1) + [(v.name, v)]
  }

  /** The entries that are not pods. */
  ghost function IdleEntries(mode: IdleMode, p: Params, a: Answers, w: Weights, start: int, end: int): map<string, View> {
    match mode
    case Apart => map[IDLE := IdleView(IDLE, start, end, IdleCost(p, a, w), 1.0 - RatioTotal(a, w))]
    case ByNode => FromEntries(NodeEntries(p, a, start, end, |a.nodeCosts|))
    case _ => map[]
  }

  /** Some pod with this name has this view. */
  ghost predicate ShowsPod(
    mode: IdleMode, p: Params, a: Answers, w: Weights, start: int, end: int, name: string, v: View)
  {
    exists k :: k in Records(a.pods) && k.Name() == name && v == PodView(mode, p, a, w, start, end, k)
  }

  /** views is what a window's computation returns: every pod under its name, and the idle entries. */
  ghost predicate IsComputed(
    mode: IdleMode, p: Params, a: Answers, w: Weights, start: int, end: int, views: map<string, View>)
  {
    var idle := IdleEntries(mode, p, a, w, start, end);
    && (forall k :: k in Records(a.pods) ==> k.Name() in views)
    && (forall n :: n in idle ==> n in views && views[n] == idle[n])
    && (forall n :: n in views && n !in idle ==> ShowsPod(mode, p, a, w, start, end, n, views[n]))
  }

  /** A division by zero occurs: sharing with nothing to share by, or nodes without cost. */
  ghost predicate DividesByZero(mode: IdleMode, p: Params, a: Answers, w: Weights) {
    match mode
    case SharedByWeight => a.pods != [] && (AmountDue(p, a) == 0.0 || PodTotal(p, a, w) == 0.0)
    case SharedEvenly => a.pods != [] && AmountDue(p, a) == 0.0
    case ByNode => a.nodeCosts != [] && NodeTotal(a.nodeCosts) == 0.0
    case _ => false
  }

  predicate InvalidParameter(mode: IdleMode, p: Params, a: Answers) {
    || (p.apiType == TypeAllocation && Billing(p, a).None?)
    || (mode == SharedWrongly && a.pods != [])
  }

  // ---------------------------------------------------------------------------------------
  // The computation
  // ---------------------------------------------------------------------------------------

  ghost function Objects(podMap: map<PodMeta, Pod>): set<Allocation> {
    set k | k in podMap :: podMap[k].allocations
  }

  ghost predicate Separate(podMap: map<PodMeta, Pod>) {
    forall j, k :: j in podMap && k in podMap && j != k ==> podMap[j].allocations != podMap[k].allocations
  }

  /** The two figures that the computation assigns. */
  datatype Price = Price(cost: real, ratio: real)

  function Repriced(v: View, price: Price): View {
    v.(figures := v.figures.(cost := price.cost, costRatio := price.ratio))
  }

  /** Every pod's allocation is its initial one with the given price. */
  ghost predicate AllPriced(podMap: map<PodMeta, Pod>, initial: map<PodMeta, View>, prices: map<PodMeta, Price>)
    reads Objects(podMap)
    ensures AllPriced(podMap, initial, prices) ==> prices.Keys == podMap.Keys
  {
    && initial.Keys == podMap.Keys == prices.Keys
    && forall k :: k in podMap ==> podMap[k].allocations.View() == Repriced(initial[k], prices[k])
  }

  function InitialView(rec: PodRecord, start: int, end: int): View {
    Shown(rec.meta.Name(), Some(rec.properties), start, end, rec.usage.(cost := 0.0, costRatio := 0.0))
  }

  /** initPodMap: one pod per key, with an allocation of its own and no cost yet. */
  method InitPodMap(pods: seq<PodRecord>, start: int, end: int) returns (podMap: map<PodMeta, Pod>)
    ensures podMap.Keys == Records(pods).Keys && Separate(podMap) && fresh(Objects(podMap))
    ensures forall k :: k in podMap ==>
      && podMap[k].allocations.View() == InitialView(Records(pods)[k], start, end)
      && podMap[k].costCPU == Records(pods)[k].costCPU && podMap[k].costRAM == Records(pods)[k].costRAM
  {
    podMap := map[];
    var i := 0;
    while i < |pods|
      invariant 0 <= i <= |pods|
      invariant podMap.Keys == Records(pods[..i]).Keys && Separate(podMap)
      invariant forall k :: k in podMap ==> fresh(podMap[k].allocations)
      invariant forall k :: k in podMap ==>
        && podMap[k].allocations.View() == InitialView(Records(pods[..i])[k], start, end)
        && podMap[k].costCPU == Records(pods[..i])[k].costCPU && podMap[k].costRAM == Records(pods[..i])[k].costRAM
    {
      var rec := pods[i];
      assert pods[..i + 1][..i] == pods[..i];
      if rec.meta !in podMap {
        var alloc := new Allocation(InitialView(rec, start, end));
        podMap := podMap[rec.meta := Pod(alloc, rec.costCPU, rec.costRAM)];
      }
      i := i + 1;
    }
    assert pods[..i] == pods;
  }

  lemma {:induction false} RecordsAreNamed(pods: seq<PodRecord>, k: PodMeta)
    requires k in Records(pods)
    ensures Records(pods)[k].meta == k
  {
    var n := |pods| - 1;
    if k in Records(pods[..n]) {
      RecordsAreNamed(pods[..n], k);
    }
  }

  /** Assigns a pod's price, through its allocation. */
  method SetPrice(podMap: map<PodMeta, Pod>, k: PodMeta, price: Price,
                  ghost initial: map<PodMeta, View>, ghost prices: map<PodMeta, Price>)
    requires k in podMap && Separate(podMap) && AllPriced(podMap, initial, prices)
    modifies podMap[k].allocations
    ensures AllPriced(podMap, initial, prices[k := price])
  {
    podMap[k].allocations.cost := price.cost;
    podMap[k].allocations.costRatio := price.ratio;
  }

  lemma PriceRead(podMap: map<PodMeta, Pod>, initial: map<PodMeta, View>, prices: map<PodMeta, Price>, k: PodMeta)
    requires k in podMap && AllPriced(podMap, initial, prices)
    ensures prices.Keys == podMap.Keys
    ensures podMap[k].allocations.cost == prices[k].cost && podMap[k].allocations.costRatio == prices[k].ratio
    ensures podMap[k].allocations.name == initial[k].name
  {
    assert podMap[k].allocations.View().figures.Get(Cost) == prices[k].cost;
    assert podMap[k].allocations.View().figures.Get(CostRatio) == prices[k].ratio;
  }

  /** Prices while a loop has pods left to do: the old price for those, the new one for the rest. */
  ghost predicate PricedSoFar(
    prices: map<PodMeta, Price>, todo: set<PodMeta>, before: PodMeta -> Price, after: PodMeta -> Price)
  {
    forall k :: k in prices ==> prices[k] == if k in todo then before(k) else after(k)
  }

  ghost predicate PricedBy(prices: map<PodMeta, Price>, price: PodMeta -> Price) {
    forall k :: k in prices ==> prices[k] == price(k)
  }

  lemma PricedOneMore(
    prices: map<PodMeta, Price>, todo: set<PodMeta>, before: PodMeta -> Price, after: PodMeta -> Price, k: PodMeta)
    requires PricedSoFar(prices, todo, before, after) && k in todo && k in prices
    ensures prices[k] == before(k)
    ensures PricedSoFar(prices[k := after(k)], todo - {k}, before, after)
  {
  }

  ghost function Costs(price: PodMeta -> Price): (f: PodMeta -> real)
    ensures forall k :: f(k) == price(k).cost
  {
    k => price(k).cost
  }

  ghost function Ratios(price: PodMeta -> Price): (f: PodMeta -> real)
    ensures forall k :: f(k) == price(k).ratio
  {
    k => price(k).ratio
  }

  /** The pricing step: estimated cost, and its ratio of the total unless that is zero. */
  function EstimatedPrice(w: Weights, totalCost: real, pod: Pod, price: Price): Price {
    var cost := Estimate(w, pod.costCPU, pod.costRAM);
    Price(cost, if totalCost != 0.0 then cost / totalCost else price.ratio)
  }

  /** The billing step: the pod's ratio of the bill. */
  function BilledPrice(totalCost: real, price: Price): Price {
    Price(price.ratio * totalCost, price.ratio)
  }

  /** The sharing step: a part of the idle cost by weight, or an equal part. */
  function SharedPrice(weighted: bool, idle: real, pods: real, podTotal: real, totalCost: real, price: Price): Price {
    var cost := price.cost + if weighted then Proportion(idle, price.cost, podTotal) else Quotient(idle, pods);
    Price(cost, Quotient(cost, totalCost))
  }

  /** What one loop over the pods has done when it has todo left: prices, and the totals of the new ones. */
  ghost predicate LoopState(
    podMap: map<PodMeta, Pod>, initial: map<PodMeta, View>, prices: map<PodMeta, Price>, todo: set<PodMeta>,
    before: PodMeta -> Price, after: PodMeta -> Price, totalCost: real, totalRatio: real)
    reads Objects(podMap)
  {
    && todo <= podMap.Keys
    && AllPriced(podMap, initial, prices) && PricedSoFar(prices, todo, before, after)
    && totalCost == SumOver(podMap.Keys - todo, Costs(after))
    && totalRatio == SumOver(podMap.Keys - todo, Ratios(after))
  }

  lemma LoopStart(podMap: map<PodMeta, Pod>, initial: map<PodMeta, View>, prices: map<PodMeta, Price>,
                  before: PodMeta -> Price, after: PodMeta -> Price)
    requires AllPriced(podMap, initial, prices) && PricedBy(prices, before)
    ensures LoopState(podMap, initial, prices, podMap.Keys, before, after, 0.0, 0.0)
  {
    assert podMap.Keys - podMap.Keys == {};
    SumEmpty(Costs(after));
    SumEmpty(Ratios(after));
  }

  lemma LoopEnd(podMap: map<PodMeta, Pod>, initial: map<PodMeta, View>, prices: map<PodMeta, Price>,
                before: PodMeta -> Price, after: PodMeta -> Price, totalCost: real, totalRatio: real)
    requires LoopState(podMap, initial, prices, {}, before, after, totalCost, totalRatio)
    ensures AllPriced(podMap, initial, prices) && PricedBy(prices, after)
    ensures totalCost == SumOver(podMap.Keys, Costs(after)) && totalRatio == SumOver(podMap.Keys, Ratios(after))
  {
    assert podMap.Keys - {} == podMap.Keys;
  }

  /** One turn of a loop: the chosen pod gets its new price. */
  method Reprice(podMap: map<PodMeta, Pod>, k: PodMeta, price: Price, ghost initial: map<PodMeta, View>,
                 ghost prices: map<PodMeta, Price>, ghost todo: set<PodMeta>,
                 ghost before: PodMeta -> Price, ghost after: PodMeta -> Price, ghost cost: real, ghost ratio: real)
    requires Separate(podMap) && k in todo && price == after(k)
    requires LoopState(podMap, initial, prices, todo, before, after, cost, ratio)
    modifies podMap[k].allocations
    ensures LoopState(podMap, initial, prices[k := price], todo - {k}, before, after, cost + price.cost, ratio + price.ratio)
  {
    hide Separate, AllPriced, PricedSoFar, SumOver;
    PricedOneMore(prices, todo, before, after, k);
    SumAdd(podMap.Keys - todo, Costs(after), k);
    SumAdd(podMap.Keys - todo, Ratios(after), k);
    assert podMap.Keys - (todo - {k}) == podMap.Keys - todo + {k};
    SetPrice(podMap, k, price, initial, prices);
  }

  lemma CurrentPrice(podMap: map<PodMeta, Pod>, initial: map<PodMeta, View>, prices: map<PodMeta, Price>,
                     todo: set<PodMeta>, before: PodMeta -> Price, after: PodMeta -> Price, c: real, r: real, k: PodMeta)
    requires LoopState(podMap, initial, prices, todo, before, after, c, r) && k in todo
    ensures k in podMap && Price(podMap[k].allocations.cost, podMap[k].allocations.costRatio) == before(k)
  {
    hide AllPriced, SumOver;
    PriceRead(podMap, initial, prices, k);
  }

  /** One turn of the pricing loop. */
  method PricePod(podMap: map<PodMeta, Pod>, k: PodMeta, w: Weights, totalCost: real, allocSet: AllocationSet,
                  ghost initial: map<PodMeta, View>, ghost prices: map<PodMeta, Price>, ghost todo: set<PodMeta>,
                  ghost before: PodMeta -> Price, ghost after: PodMeta -> Price, ghost cost: real, ghost ratio: real)
    returns (price: Price)
    requires Separate(podMap) && LoopState(podMap, initial, prices, todo, before, after, cost, ratio)
    requires k in todo && todo <= podMap.Keys && after(k) == EstimatedPrice(w, totalCost, podMap[k], before(k))
    requires HoldsPods(allocSet.entries, podMap, podMap.Keys - todo)
    modifies podMap[k].allocations, allocSet
    ensures LoopState(podMap, initial, prices[k := price], todo - {k}, before, after, cost + price.cost, ratio + price.ratio)
    ensures HoldsPods(allocSet.entries, podMap, podMap.Keys - (todo - {k}))
  {
    hide HoldsPods, SumOver, EstimatedPrice, Separate, LoopState;
    var alloc := podMap[k].allocations;
    CurrentPrice(podMap, initial, prices, todo, before, after, cost, ratio, k);
    price := EstimatedPrice(w, totalCost, podMap[k], Price(alloc.cost, alloc.costRatio));
    Reprice(podMap, k, price, initial, prices, todo, before, after, cost, ratio);
    ghost var now := prices[k := price];
    assert LoopState(podMap, initial, now, todo - {k}, before, after, cost + price.cost, ratio + price.ratio);
    SetPod(allocSet, podMap, todo, k);
    assert forall o: object :: o in Objects(podMap) ==> o != allocSet;
  }

  /** The pricing loop: estimated cost and ratio of each pod, their totals, and the set of all pods. */
  method PricePods(podMap: map<PodMeta, Pod>, w: Weights, totalCost: real, allocSet: AllocationSet,
                   ghost initial: map<PodMeta, View>, ghost was: map<PodMeta, Price>,
                   ghost before: PodMeta -> Price, ghost after: PodMeta -> Price)
    returns (totalPodCost: real, totalPodCostRatio: real, ghost prices: map<PodMeta, Price>)
    requires Separate(podMap) && AllPriced(podMap, initial, was) && PricedBy(was, before)
    requires forall k :: k in podMap ==> after(k) == EstimatedPrice(w, totalCost, podMap[k], before(k))
    requires allocSet.entries == map[]
    modifies Objects(podMap), allocSet
    ensures AllPriced(podMap, initial, prices) && PricedBy(prices, after)
    ensures totalPodCost == SumOver(podMap.Keys, Costs(after))
    ensures totalPodCostRatio == SumOver(podMap.Keys, Ratios(after))
    ensures HoldsPods(allocSet.entries, podMap, podMap.Keys)
  {
    hide HoldsPods, SumOver, EstimatedPrice, Separate, AllPriced, PricedBy, LoopState;
    totalPodCost, totalPodCostRatio := 0.0, 0.0;
    prices := was;
    var todo := podMap.Keys;
    LoopStart(podMap, initial, prices, before, after);
    HoldsNone(podMap);
    while todo != {}
      invariant todo <= podMap.Keys
      invariant LoopState(podMap, initial, prices, todo, before, after, totalPodCost, totalPodCostRatio)
      invariant HoldsPods(allocSet.entries, podMap, podMap.Keys - todo)
      decreases |todo|
    {
      var k :| k in todo;
      var price := PricePod(podMap, k, w, totalCost, allocSet, initial, prices, todo, before, after,
                            totalPodCost, totalPodCostRatio);
      prices := prices[k := price];
      totalPodCost := totalPodCost + price.cost;
      totalPodCostRatio := totalPodCostRatio + price.ratio;
      todo := todo - {k};
    }
    LoopEnd(podMap, initial, prices, before, after, totalPodCost, totalPodCostRatio);
    AllDone(podMap);
  }

  lemma AllDone(podMap: map<PodMeta, Pod>)
    ensures podMap.Keys - {} == podMap.Keys
  {
  }

  method SetPod(allocSet: AllocationSet, podMap: map<PodMeta, Pod>, ghost todo: set<PodMeta>, k: PodMeta)
    requires k in todo && todo <= podMap.Keys && HoldsPods(allocSet.entries, podMap, podMap.Keys - todo)
    modifies allocSet
    ensures HoldsPods(allocSet.entries, podMap, podMap.Keys - (todo - {k}))
  {
    hide HoldsPods;
    HoldsOneMore(allocSet.entries, podMap, podMap.Keys - todo, k);
    assert podMap.Keys - (todo - {k}) == podMap.Keys - todo + {k};
    allocSet.Set(podMap[k].allocations);
  }

  /** The billing loop and the sharing loops: each pod's price changes by the given step. */
  method RepricePods(podMap: map<PodMeta, Pod>, step: Price -> Price, ghost initial: map<PodMeta, View>,
                     ghost was: map<PodMeta, Price>, ghost before: PodMeta -> Price, ghost after: PodMeta -> Price)
    returns (totalPodCost: real, ghost prices: map<PodMeta, Price>)
    requires Separate(podMap) && AllPriced(podMap, initial, was) && PricedBy(was, before)
    requires forall k :: k in podMap ==> after(k) == step(before(k))
    modifies Objects(podMap)
    ensures AllPriced(podMap, initial, prices) && PricedBy(prices, after)
    ensures totalPodCost == SumOver(podMap.Keys, Costs(after))
  {
    hide SumOver, Separate, AllPriced, PricedBy, LoopState;
    totalPodCost := 0.0;
    ghost var totalRatio := 0.0;
    prices := was;
    var todo := podMap.Keys;
    LoopStart(podMap, initial, prices, before, after);
    while todo != {}
      invariant todo <= podMap.Keys
      invariant LoopState(podMap, initial, prices, todo, before, after, totalPodCost, totalRatio)
      decreases |todo|
    {
      var k :| k in todo;
      var alloc := podMap[k].allocations;
      CurrentPrice(podMap, initial, prices, todo, before, after, totalPodCost, totalRatio, k);
      var price := step(Price(alloc.cost, alloc.costRatio));
      Reprice(podMap, k, price, initial, prices, todo, before, after, totalPodCost, totalRatio);
      prices := prices[k := price];
      totalPodCost := totalPodCost + price.cost;
      totalRatio := totalRatio + price.ratio;
      todo := todo - {k};
    }
    LoopEnd(podMap, initial, prices, before, after, totalPodCost, totalRatio);
  }

  /** The entries are exactly the given pods' own allocations, under their names. */
  ghost predicate HoldsPods(entries: map<string, Allocation>, podMap: map<PodMeta, Pod>, keys: set<PodMeta>) {
    && (forall k :: k in keys && k in podMap ==> podMap[k].allocations.name in entries)
    && (forall n :: n in entries ==>
          exists k :: k in keys && k in podMap && podMap[k].allocations == entries[n] && entries[n].name == n)
  }

  lemma HoldsNone(podMap: map<PodMeta, Pod>)
    ensures HoldsPods(map[], podMap, podMap.Keys - podMap.Keys)
  {
  }

  lemma HoldsOneMore(entries: map<string, Allocation>, podMap: map<PodMeta, Pod>, keys: set<PodMeta>, k: PodMeta)
    requires HoldsPods(entries, podMap, keys) && k in podMap
    ensures HoldsPods(entries[podMap[k].allocations.name := podMap[k].allocations], podMap, keys + {k})
  {
  }

  // ---------------------------------------------------------------------------------------
  // The whole window
  // ---------------------------------------------------------------------------------------

  /** The pods to be priced are those of the answers. */
  ghost predicate Priceable(podMap: map<PodMeta, Pod>, a: Answers) {
    && podMap.Keys == Records(a.pods).Keys
    && forall k :: k in podMap ==>
         podMap[k].costCPU == Records(a.pods)[k].costCPU && podMap[k].costRAM == Records(a.pods)[k].costRAM
  }

  ghost function NoPrices(): PodMeta -> Price {
    k => Price(0.0, 0.0)
  }

  ghost function EstimatedPrices(a: Answers, w: Weights): PodMeta -> Price {
    k => Price(EstimatedCost(a, w, k), EstimatedRatio(a, w, k))
  }

  ghost function FinalPrices(mode: IdleMode, p: Params, a: Answers, w: Weights): PodMeta -> Price {
    k => Price(FinalCost(mode, p, a, w, k), FinalRatio(mode, p, a, w, k))
  }

  lemma EstimatesAre(podMap: map<PodMeta, Pod>, a: Answers, w: Weights)
    requires Priceable(podMap, a)
    ensures forall k :: k in podMap ==>
      EstimatedPrices(a, w)(k) == EstimatedPrice(w, NodeTotal(a.nodeCosts), podMap[k], NoPrices()(k))
  {
  }

  lemma BilledIs(p: Params, a: Answers, w: Weights)
    requires p.apiType == TypeAllocation
    ensures forall k :: FinalPrices(NoIdle, p, a, w)(k) == BilledPrice(AmountDue(p, a), EstimatedPrices(a, w)(k))
  {
    hide AmountDue, EstimatedCost, EstimatedRatio;
  }

  lemma UnbilledIs(p: Params, a: Answers, w: Weights, prices: map<PodMeta, Price>)
    requires p.apiType == TypeCost && PricedBy(prices, EstimatedPrices(a, w))
    ensures PricedBy(prices, FinalPrices(NoIdle, p, a, w))
  {
    hide AmountDue, EstimatedCost, EstimatedRatio;
  }

  lemma SharedIs(mode: IdleMode, p: Params, a: Answers, w: Weights)
    requires mode.SharedByWeight? || mode.SharedEvenly?
    ensures forall k :: FinalPrices(mode, p, a, w)(k) == SharedPrice(
      mode.SharedByWeight?, IdleCost(p, a, w), |Records(a.pods)| as real, PodTotal(p, a, w), AmountDue(p, a),
      FinalPrices(NoIdle, p, a, w)(k))
  {
    hide AmountDue, EstimatedCost, EstimatedRatio, IdleCost, PodTotal, Quotient, Proportion, PodCost;
  }

  lemma UnsharedIs(mode: IdleMode, p: Params, a: Answers, w: Weights, prices: map<PodMeta, Price>)
    requires !mode.SharedByWeight? && !mode.SharedEvenly? && PricedBy(prices, FinalPrices(NoIdle, p, a, w))
    ensures PricedBy(prices, FinalPrices(mode, p, a, w))
  {
    hide EstimatedRatio, PodCost;
  }

  lemma PodTotalIs(p: Params, a: Answers, w: Weights, estimated: bool)
    requires estimated ==> p.apiType == TypeCost
    ensures SumOver(Records(a.pods).Keys, Costs(FinalPrices(NoIdle, p, a, w))) == PodTotal(p, a, w)
    ensures estimated ==> SumOver(Records(a.pods).Keys, Costs(EstimatedPrices(a, w))) == PodTotal(p, a, w)
    ensures SumOver(Records(a.pods).Keys, Ratios(EstimatedPrices(a, w))) == RatioTotal(a, w)
  {
    hide SumOver, EstimatedCost, EstimatedRatio, AmountDue;
    var keys := Records(a.pods).Keys;
    SumSame(keys, Costs(FinalPrices(NoIdle, p, a, w)), k => PodCost(p, a, w, k));
    SumSame(keys, Ratios(EstimatedPrices(a, w)), k => EstimatedRatio(a, w, k));
    if estimated {
      SumSame(keys, Costs(EstimatedPrices(a, w)), k => PodCost(p, a, w, k));
    }
  }

  method SumNodes(nodeCosts: seq<NodeCost>) returns (total: real)
    ensures total == NodeTotal(nodeCosts)
  {
    total := 0.0;
    var i := 0;
    while i < |nodeCosts|
      invariant 0 <= i <= |nodeCosts| && total == NodeTotal(nodeCosts[..i])
    {
      assert nodeCosts[..i + 1][..i] == nodeCosts[..i];
      total := total + nodeCosts[i].value;
      i := i + 1;
    }
    assert nodeCosts[..i] == nodeCosts;
  }

  /** The entries' views. */
  ghost predicate Shows(entries: map<string, Allocation>, views: map<string, View>)
    reads entries.Values
  {
    entries.Keys == views.Keys && forall n :: n in entries ==> entries[n].View() == views[n]
  }

  /** Puts a new allocation with the given view into the set. */
  method AddView(allocSet: AllocationSet, view: View, ghost pods: map<string, Allocation>,
                 ghost added: map<string, Allocation>, ghost views: map<string, View>)
    returns (ghost now: map<string, Allocation>)
    requires allocSet.entries == pods + added && Shows(added, views)
    modifies allocSet
    ensures allocSet.entries == pods + now && Shows(now, views[view.name := view])
    ensures forall n :: n in now ==> fresh(now[n]) || (n in added && now[n] == added[n])
  {
    hide Shows, Allocation.View;
    var alloc := new Allocation(view);
    NameShown(alloc);
    now := added[alloc.name := alloc];
    ShowsMore(added, views, alloc);
    allocSet.Set(alloc);
    assert forall o: object :: o in now.Values ==> o != allocSet;
  }

  lemma NameShown(alloc: Allocation)
    ensures alloc.View().name == alloc.name
  {
  }

  lemma ShowsMore(added: map<string, Allocation>, views: map<string, View>, alloc: Allocation)
    requires Shows(added, views)
    ensures Shows(added[alloc.name := alloc], views[alloc.name := alloc.View()])
  {
    hide Allocation.View;
  }

  /** Records every node's price under its idle name. */
  method AddNodes(allocSet: AllocationSet, p: Params, a: Answers, start: int, end: int, totalNodeCost: real, totalCost: real)
    returns (ghost added: map<string, Allocation>)
    requires totalNodeCost == NodeTotal(a.nodeCosts) && totalCost == AmountDue(p, a)
    requires a.nodeCosts != [] ==> totalNodeCost != 0.0
    modifies allocSet
    ensures forall n :: n in added ==> fresh(added[n])
    ensures allocSet.entries == old(allocSet.entries) + added
    ensures Shows(added, FromEntries(NodeEntries(p, a, start, end, |a.nodeCosts|)))
  {
    hide AmountDue, NodeTotal, FromEntries, NodeView, Shows;
    added := map[];
    var i := 0;
    NoEntries(p, a, start, end);
    while i < |a.nodeCosts|
      invariant 0 <= i <= |a.nodeCosts|
      invariant forall n :: n in added ==> fresh(added[n])
      invariant allocSet.entries == old(allocSet.entries) + added
      invariant Shows(added, FromEntries(NodeEntries(p, a, start, end, i)))
    {
      var n := a.nodeCosts[i];
      var ratio := n.value / totalNodeCost;
      var view := IdleView(IDLE_PREFIX + n.node, start, end, ratio * totalCost, ratio);
      NodeViewIs(p, a, start, end, n, totalNodeCost, totalCost, view);
      FromAppend(NodeEntries(p, a, start, end, i), view.name, view);
      added := AddView(allocSet, view, old(allocSet.entries), added, FromEntries(NodeEntries(p, a, start, end, i)));
      i := i + 1;
    }
  }

  lemma NodeViewIs(p: Params, a: Answers, start: int, end: int, n: NodeCost, nodeTotal: real, total: real, view: View)
    requires nodeTotal == NodeTotal(a.nodeCosts) && nodeTotal != 0.0 && total == AmountDue(p, a)
    requires view == IdleView(IDLE_PREFIX + n.node, start, end, n.value / nodeTotal * total, n.value / nodeTotal)
    ensures view == NodeView(p, a, start, end, n)
  {
  }

  lemma NoEntries(p: Params, a: Answers, start: int, end: int)
    ensures Shows(map[], FromEntries(NodeEntries(p, a, start, end, 0)))
  {
  }

  /** Prices the pods and, for the allocation API, rescales them to the bill; false is an invalid target. */
  method PriceWindow(p: Params, a: Answers, w: Weights, podMap: map<PodMeta, Pod>, allocSet: AllocationSet,
                     ghost initial: map<PodMeta, View>, ghost zeros: map<PodMeta, Price>)
    returns (ok: bool, totalNodeCost: real, totalCost: real, totalPodCost: real, totalPodCostRatio: real,
             ghost prices: map<PodMeta, Price>)
    requires Separate(podMap) && AllPriced(podMap, initial, zeros) && PricedBy(zeros, NoPrices())
    requires Priceable(podMap, a) && allocSet.entries == map[]
    modifies Objects(podMap), allocSet
    ensures totalNodeCost == NodeTotal(a.nodeCosts)
    ensures ok <==> p.apiType == TypeCost || Billing(p, a).Some?
    ensures ok ==>
      && AllPriced(podMap, initial, prices) && PricedBy(prices, FinalPrices(NoIdle, p, a, w))
      && totalCost == AmountDue(p, a) && totalPodCost == PodTotal(p, a, w) && totalPodCostRatio == RatioTotal(a, w)
      && HoldsPods(allocSet.entries, podMap, podMap.Keys)
  {
    hide SumOver, Separate, AllPriced, PricedBy, HoldsPods, NodeTotal, PodTotal, RatioTotal, BilledPrice, EstimatedPrice;
    totalNodeCost := SumNodes(a.nodeCosts);
    totalCost := totalNodeCost;
    EstimatesAre(podMap, a, w);
    PodTotalIs(p, a, w, p.apiType == TypeCost);
    totalPodCost, totalPodCostRatio, prices :=
      PricePods(podMap, w, totalCost, allocSet, initial, zeros, NoPrices(), EstimatedPrices(a, w));
    if p.apiType == TypeCost {
      UnbilledIs(p, a, w, prices);
      return true, totalNodeCost, totalCost, totalPodCost, totalPodCostRatio, prices;
    }
    match Billing(p, a) {
      case None => ok := false;
      case Some(totalBilling) =>
        BilledIs(p, a, w);
        ok, totalCost := true, totalBilling;
        assert forall o: object :: o in Objects(podMap) ==> o != allocSet;
        totalPodCost, prices := RepricePods(
          podMap, price => BilledPrice(totalBilling, price), initial, prices,
          EstimatedPrices(a, w), FinalPrices(NoIdle, p, a, w));
    }
  }

  lemma {:induction false} RecordsEmpty(pods: seq<PodRecord>)
    ensures |Records(pods)| == 0 <==> pods == []
  {
    if pods != [] {
      assert pods[|pods| - 1].meta in Records(pods);
    }
  }

  lemma SameSize(podMap: map<PodMeta, Pod>, records: map<PodMeta, PodRecord>)
    requires podMap.Keys == records.Keys
    ensures |podMap| == |records|
  {
    assert |podMap.Keys| == |podMap| && |records.Keys| == |records|;
  }

  ghost function InitialViews(a: Answers, start: int, end: int): map<PodMeta, View> {
    map k | k in Records(a.pods) :: InitialView(Records(a.pods)[k], start, end)
  }

  lemma Initially(podMap: map<PodMeta, Pod>, a: Answers, start: int, end: int) returns (zeros: map<PodMeta, Price>)
    requires podMap.Keys == Records(a.pods).Keys
    requires forall k :: k in podMap ==> podMap[k].allocations.View() == InitialView(Records(a.pods)[k], start, end)
    ensures AllPriced(podMap, InitialViews(a, start, end), zeros) && PricedBy(zeros, NoPrices())
  {
    zeros := map k | k in podMap :: Price(0.0, 0.0);
  }

  lemma PodViewIs(mode: IdleMode, p: Params, a: Answers, w: Weights, start: int, end: int, k: PodMeta)
    requires k in Records(a.pods)
    ensures Repriced(InitialViews(a, start, end)[k], FinalPrices(mode, p, a, w)(k)) == PodView(mode, p, a, w, start, end, k)
  {
    hide FinalCost, FinalRatio;
    RecordsAreNamed(a.pods, k);
  }

  lemma PodShown(mode: IdleMode, p: Params, a: Answers, w: Weights, start: int, end: int, podMap: map<PodMeta, Pod>,
                 prices: map<PodMeta, Price>, k: PodMeta)
    requires AllPriced(podMap, InitialViews(a, start, end), prices) && PricedBy(prices, FinalPrices(mode, p, a, w))
    requires k in podMap
    ensures k in Records(a.pods)
    ensures podMap[k].allocations.View() == PodView(mode, p, a, w, start, end, k)
    ensures podMap[k].allocations.name == k.Name()
  {
    hide PodView, FinalPrices, InitialView, Allocation.View, Repriced, Records;
    PodViewIs(mode, p, a, w, start, end, k);
    PodName(mode, p, a, w, start, end, k);
    NameShown(podMap[k].allocations);
  }

  lemma FinalViews(mode: IdleMode, p: Params, a: Answers, w: Weights, start: int, end: int, podMap: map<PodMeta, Pod>,
                   prices: map<PodMeta, Price>, pods: map<string, Allocation>, added: map<string, Allocation>)
    requires AllPriced(podMap, InitialViews(a, start, end), prices) && PricedBy(prices, FinalPrices(mode, p, a, w))
    requires HoldsPods(pods, podMap, podMap.Keys) && Shows(added, IdleEntries(mode, p, a, w, start, end))
    ensures IsComputed(mode, p, a, w, start, end, ViewsOf(pods + added))
  {
    hide AllPriced, PricedBy, PodView, FinalPrices, IdleEntries, InitialView, Allocation.View, Records, HoldsPods, PodMeta.Name;
    var views := ViewsOf(pods + added);
    assert podMap.Keys == Records(a.pods).Keys by {
      hide *;
      KeysOfPriced(podMap, a, start, end, prices);
    }
    forall k | k in Records(a.pods) ensures k.Name() in views {
      PodShown(mode, p, a, w, start, end, podMap, prices, k);
      PodHeld(pods, podMap, k);
    }
    forall n | n in views && n !in added ensures ShowsPod(mode, p, a, w, start, end, n, views[n]) {
      var k := HolderOf(pods, podMap, n);
      PodShown(mode, p, a, w, start, end, podMap, prices, k);
    }
  }

  lemma KeysOfPriced(podMap: map<PodMeta, Pod>, a: Answers, start: int, end: int, prices: map<PodMeta, Price>)
    requires AllPriced(podMap, InitialViews(a, start, end), prices)
    ensures podMap.Keys == Records(a.pods).Keys
  {
  }

  lemma PodHeld(pods: map<string, Allocation>, podMap: map<PodMeta, Pod>, k: PodMeta)
    requires HoldsPods(pods, podMap, podMap.Keys) && k in podMap
    ensures podMap[k].allocations.name in pods
  {
  }

  lemma HolderOf(pods: map<string, Allocation>, podMap: map<PodMeta, Pod>, n: string) returns (k: PodMeta)
    requires HoldsPods(pods, podMap, podMap.Keys) && n in pods
    ensures k in podMap && podMap[k].allocations == pods[n] && pods[n].name == n
  {
    k :| k in podMap && podMap[k].allocations == pods[n] && pods[n].name == n;
  }

  lemma PodName(mode: IdleMode, p: Params, a: Answers, w: Weights, start: int, end: int, k: PodMeta)
    requires k in Records(a.pods)
    ensures PodView(mode, p, a, w, start, end, k).name == k.Name()
  {
  }

  /** Gives each pod its part of the idle cost. The outcome is None if the loops ran, or the reason they did not. */
  method ShareIdle(p: Params, a: Answers, w: Weights, podMap: map<PodMeta, Pod>, totalCost: real, totalPodCost: real,
                   ghost mode: IdleMode, ghost initial: map<PodMeta, View>, ghost was: map<PodMeta, Price>)
    returns (stopped: Option<Outcome>, ghost prices: map<PodMeta, Price>)
    requires p.idle && p.shareIdle && mode == ModeOf(p, true) && podMap.Keys == Records(a.pods).Keys
    requires totalCost == AmountDue(p, a) && totalPodCost == PodTotal(p, a, w)
    requires Separate(podMap) && AllPriced(podMap, initial, was) && PricedBy(was, FinalPrices(NoIdle, p, a, w))
    modifies Objects(podMap)
    ensures stopped == Some(Rejected) <==> mode == SharedWrongly && a.pods != []
    ensures stopped == Some(NotFinite) <==> DividesByZero(mode, p, a, w)
    ensures stopped in {None, Some(Rejected), Some(NotFinite)}
    ensures stopped == None ==> AllPriced(podMap, initial, prices) && PricedBy(prices, FinalPrices(mode, p, a, w))
  {
    hide SumOver, Separate, AllPriced, PricedBy, PodTotal, RatioTotal, SharedPrice, Records, AmountDue;
    stopped, prices := None, was;
    var pods := |podMap|;
    SameSize(podMap, Records(a.pods));
    RecordsEmpty(a.pods);
    if pods == 0 {
      NoPodsPriced(podMap, initial, was, FinalPrices(mode, p, a, w));
    } else if p.shareSplit != "weighted" && p.shareSplit != "even" {
      stopped := Some(Rejected);
    } else {
      var weighted := p.shareSplit == "weighted";
      if totalCost == 0.0 || (weighted && totalPodCost == 0.0) {
        stopped := Some(NotFinite);
      } else {
        var totalIdleCost := totalCost - totalPodCost;
        SharedIs(mode, p, a, w);
        var _, now := RepricePods(
          podMap, price => SharedPrice(weighted, totalIdleCost, pods as real, totalPodCost, totalCost, price),
          initial, was, FinalPrices(NoIdle, p, a, w), FinalPrices(mode, p, a, w));
        prices := now;
      }
    }
  }

  lemma NoPodsPriced(podMap: map<PodMeta, Pod>, initial: map<PodMeta, View>, prices: map<PodMeta, Price>, price: PodMeta -> Price)
    requires AllPriced(podMap, initial, prices) && |podMap| == 0
    ensures PricedBy(prices, price)
  {
    assert podMap.Keys == {};
  }

  /** Puts the idle cost that is not shared into the set; false if a node's price is not a number. */
  method PlaceIdle(allocSet: AllocationSet, p: Params, filterEmpty: bool, a: Answers, ghost w: Weights, start: int, end: int,
                   totalNodeCost: real, totalCost: real, totalPodCost: real, totalPodCostRatio: real, ghost mode: IdleMode)
    returns (finite: bool, ghost added: map<string, Allocation>)
    requires !(p.idle && filterEmpty && p.shareIdle) && mode == ModeOf(p, filterEmpty)
    requires totalNodeCost == NodeTotal(a.nodeCosts) && totalCost == AmountDue(p, a)
    requires totalPodCost == PodTotal(p, a, w) && totalPodCostRatio == RatioTotal(a, w)
    modifies allocSet
    ensures finite <==> !DividesByZero(mode, p, a, w)
    ensures finite ==>
      && allocSet.entries == old(allocSet.entries) + added && (forall n :: n in added ==> fresh(added[n]))
      && Shows(added, IdleEntries(mode, p, a, w, start, end))
  {
    hide NodeTotal, AmountDue, PodTotal, RatioTotal, Shows, FromEntries;
    finite, added := true, map[];
    NothingShown();
    if p.idle && filterEmpty {
      if p.aggregate == "node" && p.idleByNode {
        finite := a.nodeCosts == [] || totalNodeCost != 0.0;
        if finite {
          added := AddNodes(allocSet, p, a, start, end, totalNodeCost, totalCost);
        }
      } else {
        var view := IdleView(IDLE, start, end, totalCost - totalPodCost, 1.0 - totalPodCostRatio);
        added := AddView(allocSet, view, allocSet.entries, map[], map[]);
      }
    }
  }

  lemma NothingShown()
    ensures Shows(map[], map[])
  {
  }

  lemma ValuesHeld(pods: map<string, Allocation>, podMap: map<PodMeta, Pod>, added: map<string, Allocation>)
    requires HoldsPods(pods, podMap, podMap.Keys)
    ensures (pods + added).Values <= Objects(podMap) + added.Values
  {
    forall n | n in pods ensures pods[n] in Objects(podMap) {
      var k := HolderOf(pods, podMap, n);
    }
  }

  lemma AllOf(entries: map<string, Allocation>)
    ensures entries + map[] == entries
  {
  }

  /** The idle branch of the computation, once the pods are priced. */
  method DistributeIdle(
    allocSet: AllocationSet, podMap: map<PodMeta, Pod>, p: Params, filterEmpty: bool, a: Answers, w: Weights, start: int, end: int,
    totalNodeCost: real, totalCost: real, totalPodCost: real, totalPodCostRatio: real,
    ghost mode: IdleMode, ghost was: map<PodMeta, Price>)
    returns (outcome: Outcome, ghost added: map<string, Allocation>)
    requires mode == ModeOf(p, filterEmpty) && (p.apiType == TypeCost || Billing(p, a).Some?)
    requires totalNodeCost == NodeTotal(a.nodeCosts) && totalCost == AmountDue(p, a)
    requires totalPodCost == PodTotal(p, a, w) && totalPodCostRatio == RatioTotal(a, w)
    requires Separate(podMap) && podMap.Keys == Records(a.pods).Keys && HoldsPods(allocSet.entries, podMap, podMap.Keys)
    requires AllPriced(podMap, InitialViews(a, start, end), was) && PricedBy(was, FinalPrices(NoIdle, p, a, w))
    modifies allocSet, Objects(podMap)
    ensures outcome.Rejected? <==> InvalidParameter(mode, p, a)
    ensures outcome.NotFinite? <==> !InvalidParameter(mode, p, a) && DividesByZero(mode, p, a, w)
    ensures outcome.Computed? ==>
      && outcome.allocSet == allocSet && (forall n :: n in added ==> fresh(added[n]))
      && allocSet.entries.Values <= Objects(podMap) + added.Values
      && IsComputed(mode, p, a, w, start, end, allocSet.Views())
  {
    hide SumOver, Separate, AllPriced, PricedBy, PodTotal, RatioTotal, NodeTotal, AmountDue, HoldsPods, IsComputed,
         InitialView, Records, FromEntries, Shows, IdleEntries, Allocation.View, ViewsOf, IdleView, FinalPrices;
    ghost var pods := allocSet.entries;
    assert forall o: object :: o in Objects(podMap) ==> o != allocSet;
    added := map[];
    AllOf(pods);
    if p.idle && filterEmpty && p.shareIdle {
      var stopped, prices := ShareIdle(p, a, w, podMap, totalCost, totalPodCost, mode, InitialViews(a, start, end), was);
      if stopped.Some? {
        return stopped.value, added;
      }
      SharingAddsNothing(mode, p, a, w, start, end);
      FinalViews(mode, p, a, w, start, end, podMap, prices, pods, added);
    } else {
      UnsharedIs(mode, p, a, w, was);
      var finite, entries := PlaceIdle(allocSet, p, filterEmpty, a, w, start, end, totalNodeCost, totalCost,
                                       totalPodCost, totalPodCostRatio, mode);
      added := entries;
      if !finite {
        return NotFinite, added;
      }
      FinalViews(mode, p, a, w, start, end, podMap, was, pods, added);
    }
    ValuesHeld(pods, podMap, added);
    outcome := Computed(allocSet);
  }

  lemma SharingAddsNothing(mode: IdleMode, p: Params, a: Answers, w: Weights, start: int, end: int)
    requires mode.SharedByWeight? || mode.SharedEvenly? || mode.SharedWrongly?
    ensures Shows(map[], IdleEntries(mode, p, a, w, start, end))
  {
  }

  /**
   ComputeAllocation, once its filter is prepared and the metrics are read. filterEmpty says that there
   is no filter, or that it is empty except for the cluster.
   */
  method ComputeWindow(start: int, end: int, p: Params, filterEmpty: bool, a: Answers, w: Weights) returns (outcome: Outcome)
    ensures outcome.Rejected? <==> InvalidParameter(ModeOf(p, filterEmpty), p, a)
    ensures outcome.NotFinite? <==>
      !InvalidParameter(ModeOf(p, filterEmpty), p, a) && DividesByZero(ModeOf(p, filterEmpty), p, a, w)
    ensures outcome.Computed? ==>
      && fresh(outcome.allocSet) && fresh(outcome.allocSet.entries.Values)
      && IsComputed(ModeOf(p, filterEmpty), p, a, w, start, end, outcome.allocSet.Views())
  {
    hide SumOver, Separate, AllPriced, PricedBy, PodTotal, RatioTotal, NodeTotal, AmountDue, HoldsPods, IsComputed,
         InitialView, InitialViews, Records, Allocation.View, ModeOf, DividesByZero;
    var allocSet := new AllocationSet();
    var podMap := InitPodMap(a.pods, start, end);
    ghost var initial := InitialViews(a, start, end);
    ghost var zeros := Initially(podMap, a, start, end);
    var ok, totalNodeCost, totalCost, totalPodCost, totalPodCostRatio;
    ghost var prices;
    ok, totalNodeCost, totalCost, totalPodCost, totalPodCostRatio, prices :=
      PriceWindow(p, a, w, podMap, allocSet, initial, zeros);
    if !ok {
      return Rejected;
    }
    ghost var added;
    outcome, added := DistributeIdle(allocSet, podMap, p, filterEmpty, a, w, start, end, totalNodeCost, totalCost,
                              totalPodCost, totalPodCostRatio, ModeOf(p, filterEmpty), prices);
  }
}
