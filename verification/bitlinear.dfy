/**
 * `ternarize` (triune/models/bitlinear.py): each weight becomes its sign
 * where its magnitude reaches the threshold and 0 elsewhere, together with
 * the mask of the entries that reached it.
 *
 * A weight tensor is a rectangular matrix of reals (rows are output
 * features). The threshold is a column of shape (k, 1), broadcast along
 * each row. Row counts broadcast as in torch: equal counts pair up, a
 * single threshold row serves every weight row, and a single weight row is
 * repeated against every threshold row; any other pair is the broadcasting
 * error.
 */
module BitLinear {
  import opened Wrappers

  type Matrix = seq<seq<real>>

  predicate Rectangular(w: Matrix) {
    forall i :: 0 <= i < |w| ==> |w[i]| == |w[0]|
  }

  /** `torch.sign` on a real. */
  function Sign(x: real): (s: int)
    ensures s == 1 <==> x > 0.0
    ensures s == -1 <==> x < 0.0
    ensures s == 0 <==> x == 0.0
  {
    if x > 0.0 then 1 else if x < 0.0 then -1 else 0
  }

  function Abs(x: real): (a: real)
    ensures a >= 0.0 && (a == x || a == -x)
  {
    if x < 0.0 then -x else x
  }

  /**
   * `(|w|, in)` and `(|t|, 1)` broadcast when the row counts agree or one
   * of them is 1; any other pair is the broadcasting error.
   */
  predicate Broadcasts(w: Matrix, t: seq<real>) {
    |t| == |w| || |t| == 1 || |w| == 1
  }

  /** The row count after broadcasting: the larger count, since the other one is 1 or equal. */
  function Rows(w: Matrix, t: seq<real>): (n: nat)
    requires Broadcasts(w, t)
    ensures |t| == 1 ==> n == |w|
    ensures |w| == 1 ==> n == |t|
    ensures |t| == |w| ==> n == |w|
  {
    if |t| == 1 then |w| else |t|
  }

  /** The weight row that output row `i` reads: a single row is repeated. */
  function WeightRow(w: Matrix, t: seq<real>, i: nat): seq<real>
    requires Broadcasts(w, t) && i < Rows(w, t)
  {
    if |w| == 1 then w[0] else w[i]
  }

  /** The threshold that applies to output row `i`: a single threshold is repeated. */
  function RowThreshold(t: seq<real>, i: nat): real
    requires |t| >= 1
  {
    if |t| == 1 then t[0] else if i < |t| then t[i] else t[0]
  }

  datatype Ternarized = Ternarized(ternary: seq<seq<int>>, mask: seq<seq<bool>>)

  /** One entry: the sign where the magnitude reaches the threshold, otherwise 0. */
  function Entry(x: real, threshold: real): (v: int)
    ensures -1 <= v <= 1
    ensures v != 0 ==> Abs(x) >= threshold && v == Sign(x)
    ensures Abs(x) >= threshold ==> v == Sign(x)
  {
    if Abs(x) >= threshold then Sign(x) else 0
  }

  /** `ternarize(weights, threshold)`; `None` when the threshold does not broadcast. */
  function Ternarize(w: Matrix, t: seq<real>): (r: Option<Ternarized>)
    requires Rectangular(w)
    ensures r.None? <==> !Broadcasts(w, t)
    ensures r.Some? ==> var tern := r.value.ternary; var mask := r.value.mask;
      |tern| == Rows(w, t) && |mask| == Rows(w, t)
      && (|t| == |w| || |t| == 1 ==> |tern| == |w|)
      && (forall i :: 0 <= i < Rows(w, t) ==> |tern[i]| == |WeightRow(w, t, i)| && |mask[i]| == |WeightRow(w, t, i)|)
      && (forall i, j :: 0 <= i < Rows(w, t) && 0 <= j < |WeightRow(w, t, i)| ==>
            (mask[i][j] <==> Abs(WeightRow(w, t, i)[j]) >= RowThreshold(t, i))
            && -1 <= tern[i][j] <= 1
            && tern[i][j] == (if mask[i][j] then Sign(WeightRow(w, t, i)[j]) else 0))
  {
    if !Broadcasts(w, t) then None
    else
      var n := Rows(w, t);
      var mask := seq(n, i requires 0 <= i < n => Mask(WeightRow(w, t, i), RowThreshold(t, i)));
      var tern := seq(n, i requires 0 <= i < n => TernaryRow(WeightRow(w, t, i), RowThreshold(t, i)));
      Some(Ternarized(tern, mask))
  }

  function Mask(row: seq<real>, threshold: real): (m: seq<bool>)
    ensures |m| == |row| && forall j :: 0 <= j < |row| ==> (m[j] <==> Abs(row[j]) >= threshold)
  {
    seq(|row|, j requires 0 <= j < |row| => Abs(row[j]) >= threshold)
  }

  function TernaryRow(row: seq<real>, threshold: real): (v: seq<int>)
    ensures |v| == |row| && forall j :: 0 <= j < |row| ==> v[j] == Entry(row[j], threshold)
  {
    seq(|row|, j requires 0 <= j < |row| => Entry(row[j], threshold))
  }

  /** The ternary output read back as reals. */
  function AsReals(m: seq<seq<int>>): (r: Matrix)
    ensures |r| == |m| && forall i :: 0 <= i < |m| ==> |r[i]| == |m[i]| && forall j :: 0 <= j < |m[i]| ==> r[i][j] == m[i][j] as real
  {
    seq(|m|, i requires 0 <= i < |m| => seq(|m[i]|, j requires 0 <= j < |m[i]| => m[i][j] as real))
  }

  /** Ternarizing an already ternary matrix with a threshold in (0, 1] changes nothing. */
  lemma TernaryIsFixedPoint(w: Matrix, t: seq<real>)
    requires Rectangular(w) && Broadcasts(w, t)
    requires forall i :: 0 <= i < Rows(w, t) ==> 0.0 < RowThreshold(t, i) <= 1.0
    ensures var first := Ternarize(w, t).value.ternary;
      Rectangular(AsReals(first)) && Broadcasts(AsReals(first), t)
      && Ternarize(AsReals(first), t).value.ternary == first
  {
    var first := Ternarize(w, t).value.ternary;
    var again := AsReals(first);
    assert Rectangular(again) by {
      forall i | 0 <= i < |again| ensures |again[i]| == |again[0]| {
        if |w| != 1 {
          assert |WeightRow(w, t, i)| == |w[i]| && |WeightRow(w, t, 0)| == |w[0]|;
        }
      }
    }
    assert |again| == Rows(w, t);
    var second := Ternarize(again, t).value.ternary;
    assert |second| == |first|;
    forall i | 0 <= i < |first| ensures second[i] == first[i] {
      assert WeightRow(again, t, i) == again[i];
      forall j | 0 <= j < |first[i]| ensures second[i][j] == first[i][j] {
        assert again[i][j] == first[i][j] as real;
      }
    }
  }

  /** Raising the threshold can only turn entries to 0: the surviving set shrinks. */
  lemma HigherThresholdKeepsFewer(w: Matrix, t1: seq<real>, t2: seq<real>)
    requires Rectangular(w) && Broadcasts(w, t1) && Broadcasts(w, t2) && Rows(w, t1) == Rows(w, t2)
    requires forall i :: 0 <= i < Rows(w, t1) ==> RowThreshold(t1, i) <= RowThreshold(t2, i)
    ensures var a := Ternarize(w, t1).value; var b := Ternarize(w, t2).value;
      forall i, j :: 0 <= i < Rows(w, t1) && 0 <= j < |WeightRow(w, t1, i)| ==>
        (b.mask[i][j] ==> a.mask[i][j]) && (b.ternary[i][j] != 0 ==> a.ternary[i][j] == b.ternary[i][j])
  {
  }

  /** A surviving entry has the weight's direction: their product is positive. */
  lemma SurvivorsKeepDirection(w: Matrix, t: seq<real>, i: nat, j: nat)
    requires Rectangular(w) && Broadcasts(w, t) && i < Rows(w, t) && j < |WeightRow(w, t, i)|
    requires Ternarize(w, t).value.ternary[i][j] != 0
    ensures Ternarize(w, t).value.ternary[i][j] as real * WeightRow(w, t, i)[j] > 0.0
  {
  }

  /** A single weight row against a k-row threshold gives k rows, each ternarizing that row against its own threshold. */
  lemma OneRowBroadcasts(row: seq<real>, t: seq<real>)
    requires |t| >= 1
    ensures var r := Ternarize([row], t);
      r.Some? && |r.value.ternary| == |t|
      && forall i :: 0 <= i < |t| ==> r.value.ternary[i] == TernaryRow(row, RowThreshold(t, i))
  {
    var r := Ternarize([row], t);
    forall i | 0 <= i < |t| ensures r.value.ternary[i] == TernaryRow(row, RowThreshold(t, i)) {
      assert WeightRow([row], t, i) == row;
    }
  }
}
