/**
 * The text helpers of the agent's web-search tool
 * (server/utils/agents/aibitat/plugins/web-browsing.js): credential
 * redaction for error messages, the 100-character query narration and the
 * thousands separators of the narrated token count.
 */
module WebSearchText {
  import opened Strings

  /**
   * `middleTruncate(str, length)`: a value no longer than `n` is kept;
   * a longer one keeps its first and last `n` characters around "...".
   * JavaScript's `str.slice(-0)` is the whole string, hence the `n == 0` case.
   */
  function MiddleTruncate(s: string, n: nat): (r: string)
    ensures |s| <= n ==> r == s
    ensures |s| > n && n > 0 ==>
      && |r| == 2 * n + 3
      && r[..n] == s[..n]
      && r[n..n + 3] == "..."
      && r[n + 3..] == s[|s| - n..]
    ensures |s| > n && n == 0 ==> r == "..." + s
  {
    if |s| <= n then s
    else s[..n] + "..." + (if n == 0 then s else s[|s| - n..])
  }

  /**
   * What the redaction reveals: two secrets longer than `n` that share their
   * first and last `n` characters are logged identically, whatever their
   * middles and their lengths.
   */
  lemma RedactionHidesMiddle(s: string, t: string, n: nat)
    requires 0 < n < |s| && n < |t|
    requires s[..n] == t[..n] && s[|s| - n..] == t[|t| - n..]
    ensures MiddleTruncate(s, n) == MiddleTruncate(t, n)
    ensures |MiddleTruncate(s, n)| == 2 * n + 3
  {
  }

  /** The query as shown in the "Searching ..." narration: at most 100 characters, then "...". */
  function NarratedQuery(q: string): (r: string)
    ensures |q| <= 100 ==> r == q
    ensures |q| > 100 ==> |r| == 103 && r[..100] == q[..100] && r[100..] == "..."
  {
    if |q| > 100 then q[..100] + "..." else q
  }

  /** The narration never exceeds 103 characters and always starts like the query. */
  lemma NarrationBounded(q: string)
    ensures |NarratedQuery(q)| <= 103
    ensures var k := if |q| < 100 then |q| else 100; NarratedQuery(q)[..k] == q[..k]
  {
  }

  /**
   * `.replace(/\B(?=(\d{3})+(?!\d))/g, ",")` on a string of digits, scanned
   * from position `p`: a comma goes before position `p` when `p` is not a
   * word boundary (`0 < p`) and exactly a multiple of three digits follow.
   */
  function InsertCommasFrom(d: string, p: nat): string
    decreases |d| - p
  {
    if p >= |d| then ""
    else (if 0 < p && (|d| - p) % 3 == 0 then "," else "") + [d[p]] + InsertCommasFrom(d, p + 1)
  }

  function RemoveCommas(s: string): (r: string)
    ensures ',' !in r
  {
    if s == [] then "" else (if s[0] == ',' then "" else [s[0]]) + RemoveCommas(s[1..])
  }

  /** `countTokens`: the decimal token count with thousands separators. */
  function FormatCount(n: nat): string {
    InsertCommasFrom(NatToDecimal(n), 0)
  }

  lemma {:induction false} RemoveCommasAppend(a: string, b: string)
    ensures RemoveCommas(a + b) == RemoveCommas(a) + RemoveCommas(b)
  {
    if a != [] {
      var h := if a[0] == ',' then "" else [a[0]];
      assert (a + b)[0] == a[0] && (a + b)[1..] == a[1..] + b;
      assert RemoveCommas(a + b) == h + RemoveCommas(a[1..] + b);
      assert RemoveCommas(a) == h + RemoveCommas(a[1..]);
      RemoveCommasAppend(a[1..], b);
    } else {
      assert a + b == b;
    }
  }

  lemma {:induction false} RemoveInsertedCommas(d: string, p: nat)
    requires p <= |d| && ',' !in d
    ensures RemoveCommas(InsertCommasFrom(d, p)) == d[p..]
    decreases |d| - p
  {
    if p < |d| {
      var c := if 0 < p && (|d| - p) % 3 == 0 then "," else "";
      RemoveInsertedCommas(d, p + 1);
      RemoveCommasAppend(c + [d[p]], InsertCommasFrom(d, p + 1));
      RemoveCommasAppend(c, [d[p]]);
      assert RemoveCommas([d[p]]) == [d[p]];
      assert d[p..] == [d[p]] + d[p + 1..];
    }
  }

  /** Deleting the separators from the formatted count gives back the plain decimal count. */
  lemma FormatCountDigits(n: nat)
    ensures RemoveCommas(FormatCount(n)) == NatToDecimal(n)
  {
    var d := NatToDecimal(n);
    assert ',' !in d by {
      forall k | 0 <= k < |d| ensures d[k] != ',' {
        assert IsDigit(d[k]);
      }
    }
    RemoveInsertedCommas(d, 0);
  }

  /**
   * The independent reading of the same format: digits grouped in threes
   * counted from the right, the leftmost group holding what remains.
   */
  function Groups(d: string): (g: seq<string>)
    ensures |g| >= 1
    ensures d != [] ==> 1 <= |g[0]| <= 3
    ensures forall k :: 1 <= k < |g| ==> |g[k]| == 3
    decreases |d|
  {
    if |d| <= 3 then [d] else Groups(d[..|d| - 3]) + [d[|d| - 3..]]
  }

  lemma {:induction false} ShortTailHasNoComma(d: string, p: nat)
    requires p <= |d|
    requires |d| - p <= 2 || (p == 0 && |d| <= 3)
    ensures InsertCommasFrom(d, p) == d[p..]
    decreases |d| - p
  {
    if p < |d| {
      ShortTailHasNoComma(d, p + 1);
      assert d[p..] == [d[p]] + d[p + 1..];
    }
  }

  /** The separator written before digit `p`, if any. */
  function CommaBefore(d: string, p: nat): string {
    if 0 < p && (|d| - p) % 3 == 0 then "," else ""
  }

  /** Digit `p` gets the same separator in `d` and in `d` without its last three digits. */
  lemma CommaStepAgrees(d: string, p: nat)
    requires |d| > 3 && p < |d| - 3
    ensures var e := d[..|d| - 3];
      InsertCommasFrom(d, p) == CommaBefore(d, p) + [d[p]] + InsertCommasFrom(d, p + 1)
      && InsertCommasFrom(e, p) == CommaBefore(d, p) + [d[p]] + InsertCommasFrom(e, p + 1)
  {
    var e := d[..|d| - 3];
    assert (|e| - p) % 3 == (|d| - p) % 3;
    assert e[p] == d[p];
  }

  /** The last three digits of a longer count follow a comma. */
  lemma LastGroupComma(d: string)
    requires |d| > 3
    ensures InsertCommasFrom(d, |d| - 3) == "," + d[|d| - 3..]
  {
    ShortTailHasNoComma(d, |d| - 2);
    assert d[|d| - 3..] == [d[|d| - 3]] + d[|d| - 2..];
  }

  lemma {:induction false} CommasSplitLastGroup(d: string, p: nat)
    requires |d| > 3 && p < |d| - 3
    ensures InsertCommasFrom(d, p) == InsertCommasFrom(d[..|d| - 3], p) + ("," + d[|d| - 3..])
    decreases |d| - p
  {
    var e := d[..|d| - 3];
    var t := "," + d[|d| - 3..];
    var x := CommaBefore(d, p) + [d[p]];
    var b := InsertCommasFrom(d, p + 1);
    var a := InsertCommasFrom(e, p + 1);
    CommaStepAgrees(d, p);
    if p + 1 < |e| {
      CommasSplitLastGroup(d, p + 1);
    } else {
      LastGroupComma(d);
      assert a == [];
    }
    Reassociate(InsertCommasFrom(d, p), InsertCommasFrom(e, p), x, a, b, t);
  }

  lemma Reassociate(whole: string, front: string, x: string, a: string, b: string, t: string)
    requires whole == x + b && front == x + a && b == a + t
    ensures whole == front + t
  {
    assert x + (a + t) == (x + a) + t;
  }

  /** The regular expression inserts exactly the separators of the right-to-left grouping. */
  lemma {:induction false} CommasAreGroups(d: string)
    ensures InsertCommasFrom(d, 0) == Join(Groups(d), ",")
    decreases |d|
  {
    if |d| <= 3 {
      ShortTailHasNoComma(d, 0);
    } else {
      var e := d[..|d| - 3];
      CommasSplitLastGroup(d, 0);
      CommasAreGroups(e);
      JoinSnoc(Groups(e), d[|d| - 3..], ",");
    }
  }

  /**
   * The formatted count splits at its commas into the right-to-left groups of
   * three digits: the first group has one to three digits, every other group three.
   */
  lemma FormatCountGroups(n: nat)
    ensures Split(FormatCount(n), ",") == Groups(NatToDecimal(n))
  {
    var d := NatToDecimal(n);
    CommasAreGroups(d);
    var g := Groups(d);
    forall k | 0 <= k < |g| ensures ',' !in g[k] {
      GroupsAreSlices(d, k);
    }
    SplitJoin(g, ',');
  }

  lemma {:induction false} GroupsAreSlices(d: string, k: nat)
    requires ',' !in d
    requires k < |Groups(d)|
    ensures ',' !in Groups(d)[k]
    decreases |d|
  {
    if |d| > 3 {
      var e := d[..|d| - 3];
      assert forall c :: c in e ==> c in d;
      assert forall c :: c in d[|d| - 3..] ==> c in d;
      if k < |Groups(e)| {
        GroupsAreSlices(e, k);
      }
    }
  }

  lemma FormatCountExample()
    ensures FormatCount(1234) == "1,234"
    ensures FormatCount(999) == "999"
  {
  }
}
