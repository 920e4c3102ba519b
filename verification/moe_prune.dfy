/**
 * Expert pruning (triune/moe/prune.py): experts by descending usage, each
 * kept while the running parameter count stays within the limit.
 */
module MoePrune {
  import opened StableSort
  import opened Greedy

  datatype ExpertStats = ExpertStats(name: string, usage: real, temperature: real)

  /** `expert_params.get(name, 0.0)`. */
  function ParamsOf(expertParams: map<string, real>, name: string): (p: real)
    ensures name !in expertParams ==> p == 0.0
    ensures name in expertParams ==> p == expertParams[name]
  {
    if name in expertParams then expertParams[name] else 0.0
  }

  /** Ascending order of the negated usage is descending order of usage, ties untouched. */
  function Priority(e: ExpertStats): real {
    -e.usage
  }

  /** The parameter cost as a greedy cost; the second resource is unused. */
  function CostIn(expertParams: map<string, real>): ExpertStats -> Totals {
    (e: ExpertStats) => Totals(ParamsOf(expertParams, e.name), 0.0)
  }

  function Limit(maxParameters: real): Totals {
    Totals(maxParameters, 0.0)
  }

  /** `sorted(stats, key=lambda s: s.usage, reverse=True)`. */
  function Order(stats: seq<ExpertStats>): (order: seq<ExpertStats>)
    ensures forall i, j :: 0 <= i < j < |order| ==> order[i].usage >= order[j].usage
    ensures multiset(order) == multiset(stats) && |order| == |stats|
  {
    var order := SortBy(stats, Priority);
    assert forall i, j :: 0 <= i < j < |order| ==> Priority(order[i]) <= Priority(order[j]);
    order
  }

  /** `prune_experts`: the experts kept. */
  function PruneExperts(stats: seq<ExpertStats>, maxParameters: real, expertParams: map<string, real>): (kept: seq<ExpertStats>)
    ensures maxParameters >= 0.0 ==> Sum(kept, CostIn(expertParams)).first <= maxParameters
    ensures |kept| <= |stats|
  {
    Run(Order(stats), CostIn(expertParams), Limit(maxParameters)).items
  }

  /** The parameters counted so far before the `i`-th expert in usage order. */
  function TotalBefore(stats: seq<ExpertStats>, maxParameters: real, expertParams: map<string, real>, i: nat): real
    requires i <= |stats|
  {
    Run(Order(stats)[..i], CostIn(expertParams), Limit(maxParameters)).totals.first
  }

  /** Experts with equal usage are considered in their input order, as Python's reversed sort keeps ties stable. */
  lemma OrderIsStable(stats: seq<ExpertStats>, usage: real)
    ensures WithKey(Order(stats), Priority, -usage) == WithKey(stats, Priority, -usage)
  {
    var sorted := SortBy(stats, Priority);
    assert Order(stats) == sorted;
    assert WithKey(sorted, Priority, -usage) == WithKey(stats, Priority, -usage) by {
      SortByIsStable(stats, Priority, -usage);
    }
  }

  /** The kept experts are a subsequence of the usage order. */
  lemma KeptIsSubsequence(stats: seq<ExpertStats>, maxParameters: real, expertParams: map<string, real>)
    ensures SubsequenceOf(PruneExperts(stats, maxParameters, expertParams), Order(stats))
  {
    RunIsSubsequence(Order(stats), CostIn(expertParams), Limit(maxParameters));
  }

  /** The `i`-th expert in usage order is kept exactly when `total + params <= max_parameters` at its turn. */
  lemma KeptIffFits(stats: seq<ExpertStats>, maxParameters: real, expertParams: map<string, real>, i: nat)
    requires i < |stats|
    ensures var order := Order(stats);
      i in Run(order, CostIn(expertParams), Limit(maxParameters)).positions <==>
        TotalBefore(stats, maxParameters, expertParams, i) + ParamsOf(expertParams, order[i].name) <= maxParameters
  {
    var order := Order(stats);
    var cost := CostIn(expertParams);
    TakenAtItsTurn(order, cost, Limit(maxParameters), i);
    SecondStaysZero(order[..i], cost, maxParameters);
  }

  /** The unused second resource stays at zero, so its test never fires. */
  lemma {:induction false} SecondStaysZero(order: seq<ExpertStats>, cost: ExpertStats -> Totals, maxParameters: real)
    requires forall e :: cost(e).second == 0.0
    ensures Run(order, cost, Limit(maxParameters)).totals.second == 0.0
    decreases |order|
  {
    if order != [] {
      SecondStaysZero(order[..|order| - 1], cost, maxParameters);
    }
  }

  /** With a nonnegative limit, an expert missing from the parameter table, or listed at 0, is always kept. */
  lemma ZeroCostKept(stats: seq<ExpertStats>, maxParameters: real, expertParams: map<string, real>, i: nat)
    requires i < |stats| && maxParameters >= 0.0
    requires var name := Order(stats)[i].name; name !in expertParams || expertParams[name] == 0.0
    ensures i in Run(Order(stats), CostIn(expertParams), Limit(maxParameters)).positions
  {
    ZeroCostTaken(Order(stats), CostIn(expertParams), Limit(maxParameters), i);
  }
}
