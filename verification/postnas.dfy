/**
 * The post-NAS layer search (triune/search/postnas.py): layers sorted by
 * latency cost, each taken while both the memory and the latency totals
 * stay within the budget.
 */
module Postnas {
  import opened StableSort
  import opened Greedy

  datatype LayerSpec = LayerSpec(layerIndex: int, kind: string, memoryCost: real, latencyCost: real)

  datatype SearchBudget = SearchBudget(maxMemory: real, maxLatency: real)

  datatype SearchResult = SearchResult(layers: seq<LayerSpec>, totalMemory: real, totalLatency: real)

  function LatencyOf(s: LayerSpec): real {
    s.latencyCost
  }

  function Cost(s: LayerSpec): Totals {
    Totals(s.memoryCost, s.latencyCost)
  }

  function Limit(b: SearchBudget): Totals {
    Totals(b.maxMemory, b.maxLatency)
  }

  /** `sorted(layers, key=lambda s: s.latency_cost)`. */
  function Order(layers: seq<LayerSpec>): (order: seq<LayerSpec>)
    ensures forall i, j :: 0 <= i < j < |order| ==> order[i].latencyCost <= order[j].latencyCost
    ensures multiset(order) == multiset(layers) && |order| == |layers|
  {
    SortBy(layers, LatencyOf)
  }

  /** `search`: the layers taken, and their summed memory and latency. */
  function Search(layers: seq<LayerSpec>, budget: SearchBudget): (r: SearchResult)
    ensures r.totalMemory == Sum(r.layers, Cost).first && r.totalLatency == Sum(r.layers, Cost).second
    ensures budget.maxMemory >= 0.0 && budget.maxLatency >= 0.0 ==>
      r.totalMemory <= budget.maxMemory && r.totalLatency <= budget.maxLatency
    ensures |r.layers| <= |layers|
  {
    var run := Run(Order(layers), Cost, Limit(budget));
    SearchResult(run.items, run.totals.first, run.totals.second)
  }

  /** Layers with equal latency cost are considered in their input order. */
  lemma OrderIsStable(layers: seq<LayerSpec>, latency: real)
    ensures WithKey(Order(layers), LatencyOf, latency) == WithKey(layers, LatencyOf, latency)
  {
    SortByIsStable(layers, LatencyOf, latency);
  }

  /** The layers taken are a subsequence of the latency order: no layer twice, order kept. */
  lemma SearchIsSubsequence(layers: seq<LayerSpec>, budget: SearchBudget)
    ensures SubsequenceOf(Search(layers, budget).layers, Order(layers))
  {
    RunIsSubsequence(Order(layers), Cost, Limit(budget));
  }

  /**
   * The `i`-th layer in latency order is taken exactly when adding its
   * memory and its latency to the totals of the layers taken before it
   * exceeds neither budget.
   */
  lemma TakenIffFits(layers: seq<LayerSpec>, budget: SearchBudget, i: nat)
    requires i < |layers|
    ensures var order := Order(layers);
      var before := Run(order[..i], Cost, Limit(budget)).totals;
      i in Run(order, Cost, Limit(budget)).positions <==>
        (before.first + order[i].memoryCost <= budget.maxMemory
         && before.second + order[i].latencyCost <= budget.maxLatency)
  {
    TakenAtItsTurn(Order(layers), Cost, Limit(budget), i);
  }
}
