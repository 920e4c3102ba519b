/**
 * The greedy budget loop shared by the layer search
 * (triune/search/postnas.py) and the expert pruner (triune/moe/prune.py):
 * walk the items in a given order and take each one whose costs, added to
 * the running totals, stay within the limits; skip the others.
 *
 * Costs are pairs of reals. The pruner has one resource and uses the
 * second component as a zero cost under a zero limit. Python floats are
 * modelled as exact reals.
 */
module Greedy {

  datatype Totals = Totals(first: real, second: real)

  const Zero: Totals := Totals(0.0, 0.0)

  function Add(t: Totals, c: Totals): Totals {
    Totals(t.first + c.first, t.second + c.second)
  }

  /** Neither `total + cost > limit` test fires. */
  predicate Fits(t: Totals, c: Totals, limit: Totals) {
    !(t.first + c.first > limit.first) && !(t.second + c.second > limit.second)
  }

  predicate Within(t: Totals, limit: Totals) {
    t.first <= limit.first && t.second <= limit.second
  }

  /** The summed costs of `s`, added in order from zero. */
  function Sum<T>(s: seq<T>, cost: T -> Totals): Totals {
    if s == [] then Zero else Add(Sum(s[..|s| - 1], cost), cost(s[|s| - 1]))
  }

  predicate Increasing(p: seq<nat>) {
    forall i, j :: 0 <= i < j < |p| ==> p[i] < p[j]
  }

  /** `a` is `b` at the strictly increasing positions `p`. */
  ghost predicate PicksAt<T>(a: seq<T>, p: seq<nat>, b: seq<T>) {
    |p| == |a| && Increasing(p) && forall k :: 0 <= k < |p| ==> p[k] < |b| && a[k] == b[p[k]]
  }

  /** `a` is a subsequence of `b`: each element of `b` used at most once, order kept. */
  ghost predicate SubsequenceOf<T>(a: seq<T>, b: seq<T>) {
    exists p: seq<nat> :: PicksAt(a, p, b)
  }

  /** The items taken, the positions in the order they were taken at, and the final totals. */
  datatype Selection<T> = Selection(items: seq<T>, positions: seq<nat>, totals: Totals)

  /** The loop over `order`, written as a fold over its prefixes. */
  function Run<T>(order: seq<T>, cost: T -> Totals, limit: Totals): (r: Selection<T>)
    ensures PicksAt(r.items, r.positions, order) && |r.items| <= |order|
    ensures r.totals == Sum(r.items, cost)
    ensures limit.first >= 0.0 && limit.second >= 0.0 ==> Within(r.totals, limit)
    decreases |order|
  {
    if order == [] then Selection([], [], Zero)
    else
      var n := |order| - 1;
      var prev := Run(order[..n], cost, limit);
      var c := cost(order[n]);
      if Fits(prev.totals, c, limit) then
        var items := prev.items + [order[n]];
        assert items[..|items| - 1] == prev.items;
        PicksAppend(prev.items, prev.positions, order, n);
        Selection(items, prev.positions + [n], Add(prev.totals, c))
      else
        PicksInLonger(prev.items, prev.positions, order, n);
        prev
  }

  lemma PicksInLonger<T>(a: seq<T>, p: seq<nat>, b: seq<T>, n: nat)
    requires n <= |b| && PicksAt(a, p, b[..n])
    ensures PicksAt(a, p, b)
  {
    forall k | 0 <= k < |p| ensures p[k] < |b| && a[k] == b[p[k]] {
      assert b[..n][p[k]] == b[p[k]];
    }
  }

  lemma PicksAppend<T>(a: seq<T>, p: seq<nat>, b: seq<T>, n: nat)
    requires n < |b| && PicksAt(a, p, b[..n])
    ensures PicksAt(a + [b[n]], p + [n], b)
  {
    PicksInLonger(a, p, b, n);
    var p' := p + [n];
    forall i, j | 0 <= i < j < |p'| ensures p'[i] < p'[j] {
      if j == |p| {
        assert p[i] < |b[..n]|;
      }
    }
  }

  /** The selection is a subsequence of the order. */
  lemma RunIsSubsequence<T>(order: seq<T>, cost: T -> Totals, limit: Totals)
    ensures SubsequenceOf(Run(order, cost, limit).items, order)
  {
    var r := Run(order, cost, limit);
    assert PicksAt(r.items, r.positions, order);
  }

  /** Running on a longer order only appends positions past the shorter one's end. */
  lemma {:induction false} PrefixRun<T>(order: seq<T>, cost: T -> Totals, limit: Totals, j: nat)
    requires j <= |order|
    ensures var p := Run(order, cost, limit).positions;
      var q := Run(order[..j], cost, limit).positions;
      |q| <= |p| && p[..|q|] == q && forall k :: |q| <= k < |p| ==> p[k] >= j
    decreases |order|
  {
    if j < |order| {
      var n := |order| - 1;
      var init := order[..n];
      assert init[..j] == order[..j];
      PrefixRun(init, cost, limit, j);
      var pi := Run(init, cost, limit).positions;
      var p := Run(order, cost, limit).positions;
      assert p == pi || p == pi + [n];
      ExtendedPrefix(pi, p, Run(order[..j], cost, limit).positions, j, n);
    } else {
      assert order[..j] == order;
    }
  }

  /** The run over the first `i + 1` items takes position `i` exactly when it fits, and keeps the earlier positions. */
  lemma LastStep<T>(order: seq<T>, cost: T -> Totals, limit: Totals, i: nat)
    requires i < |order|
    ensures var before := Run(order[..i], cost, limit);
      Run(order[..i + 1], cost, limit).positions
        == if Fits(before.totals, cost(order[i]), limit) then before.positions + [i] else before.positions
  {
    var upto := order[..i + 1];
    assert upto[..i] == order[..i];
    assert upto[i] == order[i];
  }

  /** Appending a position at or past `j` keeps `q` a prefix followed only by positions at or past `j`. */
  lemma ExtendedPrefix(pi: seq<nat>, p: seq<nat>, q: seq<nat>, j: nat, n: nat)
    requires |q| <= |pi| && pi[..|q|] == q && forall k :: |q| <= k < |pi| ==> pi[k] >= j
    requires n >= j && (p == pi || p == pi + [n])
    ensures |q| <= |p| && p[..|q|] == q && forall k :: |q| <= k < |p| ==> p[k] >= j
  {
    if p == pi + [n] {
      assert p[..|q|] == pi[..|q|];
    }
  }

  /** The item at position `i` is taken exactly when it fits on top of what the earlier positions took. */
  lemma TakenAtItsTurn<T>(order: seq<T>, cost: T -> Totals, limit: Totals, i: nat)
    requires i < |order|
    ensures i in Run(order, cost, limit).positions <==> Fits(Run(order[..i], cost, limit).totals, cost(order[i]), limit)
  {
    var p := Run(order, cost, limit).positions;
    var q := Run(order[..i + 1], cost, limit).positions;
    var before := Run(order[..i], cost, limit).positions;
    var fits := Fits(Run(order[..i], cost, limit).totals, cost(order[i]), limit);
    LastStep(order, cost, limit, i);
    PrefixRun(order, cost, limit, i + 1);
    assert i in q <==> fits by {
      assert forall k :: 0 <= k < |before| ==> before[k] < i;
    }
    PrefixKeepsMembership(p, q, i);
  }

  /** A value below the bound is in an extension of `q` by values at or above it exactly when it is in `q`. */
  lemma PrefixKeepsMembership(p: seq<nat>, q: seq<nat>, i: nat)
    requires |q| <= |p| && p[..|q|] == q && forall k :: |q| <= k < |p| ==> p[k] >= i + 1
    ensures i in p <==> i in q
  {
    if i in p {
      var k :| 0 <= k < |p| && p[k] == i;
      assert p[..|q|][k] == i;
    }
    if i in q {
      var k :| 0 <= k < |q| && q[k] == i;
      assert p[..|q|][k] == p[k];
    }
  }

  /** With nonnegative limits, an item of zero cost is always taken. */
  lemma ZeroCostTaken<T>(order: seq<T>, cost: T -> Totals, limit: Totals, i: nat)
    requires i < |order| && cost(order[i]) == Zero
    requires limit.first >= 0.0 && limit.second >= 0.0
    ensures i in Run(order, cost, limit).positions
  {
    TakenAtItsTurn(order, cost, limit, i);
  }
}
