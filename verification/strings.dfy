/**
 * String helpers with JavaScript's meaning: `indexOf`, `split` on a literal
 * separator, `join`, `trim`, `/\s+/g` collapsing, ASCII case folding and
 * the decimal rendering of integers.
 */
module Strings {
  import opened Wrappers

  /** `pat` occurs in `s` starting at index `i`. */
  predicate OccursAt(s: string, pat: string, i: nat) {
    i + |pat| <= |s| && s[i..i + |pat|] == pat
  }

  /** `s.indexOf(pat, from)`, with `None` for -1. */
  function FindFrom(s: string, pat: string, from: nat): (r: Option<nat>)
    ensures r.Some? ==> from <= r.value && OccursAt(s, pat, r.value)
    ensures r.Some? ==> forall j :: from <= j < r.value ==> !OccursAt(s, pat, j)
    ensures r.None? ==> forall j :: from <= j ==> !OccursAt(s, pat, j)
    decreases |s| - from
  {
    if from + |pat| > |s| then None
    else if s[from..from + |pat|] == pat then Some(from)
    else FindFrom(s, pat, from + 1)
  }

  /** `s.includes(pat)`. */
  predicate Contains(s: string, pat: string) {
    FindFrom(s, pat, 0).Some?
  }

  /** The first occurrence is determined by the occurrences alone. */
  lemma FirstOccurrence(s: string, pat: string, from: nat, i: nat)
    requires from <= i && OccursAt(s, pat, i)
    requires forall j :: from <= j < i ==> !OccursAt(s, pat, j)
    ensures FindFrom(s, pat, from) == Some(i)
  {
  }

  /** The middle part of a concatenation occurs where the first part ends. */
  lemma OccursInJoin(a: string, b: string, c: string)
    ensures OccursAt(a + b + c, b, |a|)
  {
    var s := a + b + c;
    forall k | 0 <= k < |b| ensures s[|a|..|a| + |b|][k] == b[k] {
      assert s[|a| + k] == (a + b)[|a| + k];
    }
  }

  lemma OccursInPrefix(s: string, pat: string, n: nat)
    requires n <= |s|
    ensures forall j: nat :: OccursAt(s[..n], pat, j) ==> OccursAt(s, pat, j) && j + |pat| <= n
  {
    forall j: nat | OccursAt(s[..n], pat, j)
      ensures OccursAt(s, pat, j)
    {
      assert s[..n][j..j + |pat|] == s[j..j + |pat|];
    }
  }

  lemma NoCharNoOccurrence(s: string, c: char)
    requires c !in s
    ensures FindFrom(s, [c], 0).None?
  {
    forall j: nat | j + 1 <= |s|
      ensures !OccursAt(s, [c], j)
    {
      assert s[j..j + 1] == [s[j]];
    }
  }

  /** A slice holds no occurrence when no occurrence starts in it in the whole string. */
  lemma NoOccurrenceInSlice(s: string, pat: string, a: nat, b: nat)
    requires |pat| > 0 && a <= b <= |s|
    requires forall j :: a <= j < b ==> !OccursAt(s, pat, j)
    ensures !Contains(s[a..b], pat)
  {
    forall m: nat | m + |pat| <= b - a
      ensures !OccursAt(s[a..b], pat, m)
    {
      var t := s[a..b];
      assert a + m + |pat| <= b;
      var u := t[m..m + |pat|];
      var w := s[a + m..a + m + |pat|];
      assert forall x :: 0 <= x < |u| ==> u[x] == w[x];
      assert u == w;
      assert !OccursAt(s, pat, a + m);
    }
  }

  lemma PrefixBeforeFirst(s: string, sep: string, i: nat)
    requires |sep| > 0 && FindFrom(s, sep, 0) == Some(i)
    ensures !Contains(s[..i], sep)
  {
    OccursInPrefix(s, sep, i);
  }

  /** `s.split(sep)` for a non-empty literal separator. */
  function Split(s: string, sep: string): (parts: seq<string>)
    requires |sep| > 0
    ensures |parts| >= 1
    ensures forall k :: 0 <= k < |parts| ==> !Contains(parts[k], sep)
    decreases |s|
  {
    match FindFrom(s, sep, 0)
    case None => [s]
    case Some(i) =>
      PrefixBeforeFirst(s, sep, i);
      [s[..i]] + Split(s[i + |sep|..], sep)
  }

  /** `parts.join(sep)`. */
  function Join(parts: seq<string>, sep: string): string {
    if |parts| == 0 then ""
    else if |parts| == 1 then parts[0]
    else parts[0] + sep + Join(parts[1..], sep)
  }

  lemma JoinCons(head: string, tail: seq<string>, sep: string)
    requires |tail| >= 1
    ensures Join([head] + tail, sep) == head + sep + Join(tail, sep)
  {
    assert ([head] + tail)[1..] == tail;
  }

  /** Appending a piece appends the separator and the piece. */
  lemma {:induction false} JoinSnoc(parts: seq<string>, last: string, sep: string)
    requires |parts| >= 1
    ensures Join(parts + [last], sep) == Join(parts, sep) + sep + last
    decreases |parts|
  {
    if |parts| == 1 {
      JoinCons(parts[0], [last], sep);
      assert parts + [last] == [parts[0]] + [last];
    } else {
      var tail := parts[1..];
      assert parts + [last] == [parts[0]] + (tail + [last]);
      JoinCons(parts[0], tail + [last], sep);
      JoinSnoc(tail, last, sep);
      JoinCons(parts[0], tail, sep);
      assert parts == [parts[0]] + tail;
    }
  }

  /** Joining the pieces of a split with the same separator gives the input back. */
  lemma {:induction false} JoinSplit(s: string, sep: string)
    requires |sep| > 0
    ensures Join(Split(s, sep), sep) == s
    decreases |s|
  {
    var f := FindFrom(s, sep, 0);
    if f.Some? {
      var i := f.value;
      var rest := s[i + |sep|..];
      var tail := Split(rest, sep);
      assert Split(s, sep) == [s[..i]] + tail;
      JoinSplit(rest, sep);
      JoinCons(s[..i], tail, sep);
      assert s[i..i + |sep|] == sep;
      assert s == s[..i] + s[i..i + |sep|] + rest;
    }
  }

  /** Splitting on a one-character separator that no piece contains recovers the pieces. */
  lemma SplitJoin(parts: seq<string>, c: char)
    requires |parts| >= 1
    requires forall k :: 0 <= k < |parts| ==> c !in parts[k]
    ensures Split(Join(parts, [c]), [c]) == parts
  {
    forall k | 0 <= k < |parts| ensures !Contains(parts[k], [c]) {
      NoCharNoOccurrence(parts[k], c);
    }
    SplitJoinSeparator(parts, [c]);
  }

  /**
   * A separator whose first character occurs nowhere else in it cannot
   * straddle a piece and the separator after it: the first occurrence in
   * `piece + sep + rest` is the one after the piece.
   */
  lemma SeparatorAfterPiece(piece: string, sep: string, rest: string)
    requires |sep| > 0 && sep[0] !in sep[1..]
    requires !Contains(piece, sep)
    ensures FindFrom(piece + sep + rest, sep, 0) == Some(|piece|)
  {
    var j := piece + sep + rest;
    assert j[|piece|..|piece| + |sep|] == sep;
    forall i: nat | i < |piece| ensures !OccursAt(j, sep, i) {
      if i + |sep| <= |piece| {
        assert piece[i..i + |sep|] == j[i..i + |sep|];
        assert !OccursAt(piece, sep, i);
      } else {
        var d := |piece| - i;
        assert j[|piece|] == sep[0];
        assert sep[d] == sep[1..][d - 1];
      }
    }
    FirstOccurrence(j, sep, 0, |piece|);
  }

  /** Splitting a join recovers the pieces when no piece holds the separator and its first character is unique in it. */
  lemma {:induction false} SplitJoinSeparator(parts: seq<string>, sep: string)
    requires |parts| >= 1 && |sep| > 0 && sep[0] !in sep[1..]
    requires forall k :: 0 <= k < |parts| ==> !Contains(parts[k], sep)
    ensures Split(Join(parts, sep), sep) == parts
    decreases |parts|
  {
    if |parts| > 1 {
      var p0 := parts[0];
      var rest := Join(parts[1..], sep);
      assert Join(parts, sep) == p0 + sep + rest;
      SplitAtPiece(p0, sep, rest);
      SplitJoinSeparator(parts[1..], sep);
      assert parts == [p0] + parts[1..];
    }
  }

  /** The first piece of `piece + sep + rest` is `piece`, and the others are the pieces of `rest`. */
  lemma SplitAtPiece(piece: string, sep: string, rest: string)
    requires |sep| > 0 && sep[0] !in sep[1..]
    requires !Contains(piece, sep)
    ensures Split(piece + sep + rest, sep) == [piece] + Split(rest, sep)
  {
    var j := piece + sep + rest;
    SeparatorAfterPiece(piece, sep, rest);
    assert j[..|piece|] == piece;
    assert j[|piece| + |sep|..] == rest;
  }

  /** JavaScript's `\s` and the characters `trim()` removes: WhiteSpace and LineTerminator. */
  predicate IsSpace(c: char) {
    || c == ' ' || c == '\t' || c == '\n' || c == '\r'
    || c == '\U{000B}' || c == '\U{000C}' || c == '\U{00A0}' || c == '\U{1680}'
    || ('\U{2000}' <= c <= '\U{200A}')
    || c == '\U{2028}' || c == '\U{2029}' || c == '\U{202F}' || c == '\U{205F}'
    || c == '\U{3000}' || c == '\U{FEFF}'
  }

  predicate AllSpace(s: string) {
    forall k :: 0 <= k < |s| ==> IsSpace(s[k])
  }

  /** `s.trimStart()`. */
  function TrimStart(s: string): (r: string)
    ensures |r| <= |s| && r == s[|s| - |r|..]
    ensures AllSpace(s[..|s| - |r|])
    ensures r != [] ==> !IsSpace(r[0])
    decreases |s|
  {
    if |s| > 0 && IsSpace(s[0]) then
      var r := TrimStart(s[1..]);
      SpaceHeadGrows(s, |s| - |r|);
      r
    else s
  }

  lemma SpaceHeadGrows(s: string, n: nat)
    requires 0 < n <= |s| && IsSpace(s[0]) && AllSpace(s[1..][..n - 1])
    ensures AllSpace(s[..n])
  {
    forall k | 0 <= k < n ensures IsSpace(s[..n][k]) {
      if k > 0 {
        assert s[..n][k] == s[1..][..n - 1][k - 1];
      }
    }
  }

  /** `s.trimEnd()`. */
  function TrimEnd(s: string): (r: string)
    ensures |r| <= |s| && r == s[..|r|]
    ensures AllSpace(s[|r|..])
    ensures r != [] ==> !IsSpace(r[|r| - 1])
    decreases |s|
  {
    if |s| > 0 && IsSpace(s[|s| - 1]) then
      var r := TrimEnd(s[..|s| - 1]);
      SpaceTailGrows(s, |r|);
      r
    else s
  }

  lemma SpaceTailGrows(s: string, n: nat)
    requires n < |s| && IsSpace(s[|s| - 1]) && AllSpace(s[..|s| - 1][n..])
    ensures AllSpace(s[n..])
  {
    forall k | 0 <= k < |s| - n ensures IsSpace(s[n..][k]) {
      if k < |s| - 1 - n {
        assert s[n..][k] == s[..|s| - 1][n..][k];
      }
    }
  }

  /** No white space at either end. */
  predicate Trimmed(s: string) {
    s != [] ==> !IsSpace(s[0]) && !IsSpace(s[|s| - 1])
  }

  /** `s.trim()`: the longest slice of `s` that neither starts nor ends with white space. */
  function Trim(s: string): (r: string)
    ensures |r| <= |s|
    ensures r != [] ==> !IsSpace(r[0]) && !IsSpace(r[|r| - 1])
    ensures r == [] <==> AllSpace(s)
    ensures (forall k :: 0 <= k < |s| ==> !IsSpace(s[k])) ==> r == s
  {
    TrimBlank(s);
    TrimEnd(TrimStart(s))
  }

  /** The trimmed text starts and ends with something other than white space. */
  lemma TrimTrimmed(s: string)
    ensures Trimmed(Trim(s))
  {
  }

  lemma TrimBlank(s: string)
    ensures TrimEnd(TrimStart(s)) == [] <==> AllSpace(s)
  {
    var t := TrimStart(s);
    var a := |s| - |t|;
    if TrimEnd(t) == [] {
      assert t[0..] == t;
      assert |t| == 0;
      assert s[..a] == s;
    }
    if AllSpace(s) {
      assert t == s[a..];
      assert AllSpace(s[a..]);
    }
  }

  /** `s.replace(/\s+/g, " ")`: every maximal run of white space becomes one blank. */
  function CollapseSpaces(s: string): (r: string)
    ensures r == [] <==> s == []
    ensures r != [] ==> (IsSpace(r[0]) <==> IsSpace(s[0]))
    ensures forall k :: 0 <= k < |r| && IsSpace(r[k]) ==> r[k] == ' '
    ensures forall k :: 0 <= k < |r| - 1 ==> !(IsSpace(r[k]) && IsSpace(r[k + 1]))
    decreases |s|
  {
    if s == [] then []
    else if IsSpace(s[0]) then [' '] + CollapseSpaces(TrimStart(s[1..]))
    else [s[0]] + CollapseSpaces(s[1..])
  }

  /** Collapsing keeps every other character, in order. */
  lemma {:induction false} CollapseKeepsText(s: string)
    ensures NonSpace(CollapseSpaces(s)) == NonSpace(s)
    decreases |s|
  {
    if s != [] {
      assert s == [s[0]] + s[1..];
      NonSpaceAppend([s[0]], s[1..]);
      if IsSpace(s[0]) {
        var t := TrimStart(s[1..]);
        CollapseKeepsText(t);
        TrimStartKeepsNonSpace(s[1..]);
        NonSpaceAppend([' '], CollapseSpaces(t));
      } else {
        CollapseKeepsText(s[1..]);
        NonSpaceAppend([s[0]], CollapseSpaces(s[1..]));
      }
    }
  }

  /** Collapsing leaves blank text blank and other text not blank. */
  lemma CollapseBlank(s: string)
    ensures AllSpace(CollapseSpaces(s)) <==> AllSpace(s)
  {
    CollapseKeepsText(s);
  }

  /** Text without white space is unchanged. */
  lemma {:induction false} CollapseNoSpace(s: string)
    ensures (forall k :: 0 <= k < |s| ==> !IsSpace(s[k])) ==> CollapseSpaces(s) == s
    decreases |s|
  {
    if s != [] && forall k :: 0 <= k < |s| ==> !IsSpace(s[k]) {
      assert forall k :: 0 <= k < |s[1..]| ==> !IsSpace(s[1..][k]);
      CollapseNoSpace(s[1..]);
    }
  }

  /** The only white space is a blank, and no two blanks are adjacent. */
  predicate SingleBlanks(s: string) {
    && (forall k :: 0 <= k < |s| && IsSpace(s[k]) ==> s[k] == ' ')
    && (forall k :: 0 <= k < |s| - 1 ==> !(IsSpace(s[k]) && IsSpace(s[k + 1])))
  }

  lemma SingleBlanksSlice(s: string, a: nat, b: nat, t: string)
    requires a <= b <= |s| && SingleBlanks(s) && t == s[a..b]
    ensures SingleBlanks(t)
  {
    forall k | 0 <= k < |t| ensures IsSpace(t[k]) ==> t[k] == ' ' {
      assert t[k] == s[a + k];
    }
    forall k | 0 <= k < |t| - 1 ensures !(IsSpace(t[k]) && IsSpace(t[k + 1])) {
      assert t[k] == s[a + k] && t[k + 1] == s[a + k + 1];
    }
  }

  /** Trimming keeps blanks single. */
  lemma TrimKeepsSingleBlanks(s: string)
    requires SingleBlanks(s)
    ensures SingleBlanks(Trim(s))
  {
    TrimIsSlice(s);
    var a := |s| - |TrimStart(s)|;
    SingleBlanksSlice(s, a, a + |Trim(s)|, Trim(s));
  }

  /** Trimming takes a slice: what `TrimStart` skipped, then a prefix of the rest. */
  lemma TrimIsSlice(s: string)
    ensures var a := |s| - |TrimStart(s)|; a + |Trim(s)| <= |s| && Trim(s) == s[a..a + |Trim(s)|]
  {
    var t := TrimStart(s);
    var r := TrimEnd(t);
    assert Trim(s) == r;
    PrefixOfSuffix(s, t, r, |s| - |t|);
  }

  lemma PrefixOfSuffix(s: string, t: string, r: string, a: nat)
    requires a <= |s| && t == s[a..] && |r| <= |t| && r == t[..|r|]
    ensures a + |r| <= |s| && r == s[a..a + |r|]
  {
  }

  lemma TrimEndKeepsNonSpace(s: string)
    ensures NonSpace(TrimEnd(s)) == NonSpace(s)
  {
    var r := TrimEnd(s);
    assert s == r + s[|r|..];
    NonSpaceAppend(r, s[|r|..]);
  }

  /** Trimming keeps every character that is not white space, in order. */
  lemma TrimKeepsNonSpace(s: string)
    ensures NonSpace(Trim(s)) == NonSpace(s)
  {
    TrimStartKeepsNonSpace(s);
    TrimEndKeepsNonSpace(TrimStart(s));
  }

  lemma {:induction false} NonSpaceAppend(a: string, b: string)
    ensures NonSpace(a + b) == NonSpace(a) + NonSpace(b)
  {
    if a != [] {
      assert (a + b)[1..] == a[1..] + b;
      NonSpaceAppend(a[1..], b);
    } else {
      assert a + b == b;
    }
  }

  /** The characters of `s` that are not white space, in order. */
  function NonSpace(s: string): (r: string)
    ensures AllSpace(s) <==> r == []
  {
    if s == [] then []
    else (if IsSpace(s[0]) then [] else [s[0]]) + NonSpace(s[1..])
  }

  lemma {:induction false} TrimStartKeepsNonSpace(s: string)
    ensures NonSpace(TrimStart(s)) == NonSpace(s)
    decreases |s|
  {
    if |s| > 0 && IsSpace(s[0]) {
      TrimStartKeepsNonSpace(s[1..]);
    }
  }

  /** The length of the run of non-white-space characters that `s` starts with. */
  function WordLen(s: string): (n: nat)
    ensures n <= |s|
    ensures forall k :: 0 <= k < n ==> !IsSpace(s[k])
    ensures n < |s| ==> IsSpace(s[n])
  {
    if s == [] || IsSpace(s[0]) then 0 else 1 + WordLen(s[1..])
  }

  /** The maximal runs of non-white-space characters of `s`, in order. */
  function Words(s: string): (ws: seq<string>)
    decreases |s|
  {
    if s == [] then []
    else if IsSpace(s[0]) then Words(s[1..])
    else
      var n := WordLen(s);
      [s[..n]] + Words(s[n..])
  }

  /** A character that is not white space joins the first word, or starts a word of its own. */
  lemma WordsConsChar(c: char, x: string)
    requires !IsSpace(c)
    ensures x == [] || IsSpace(x[0]) ==> Words([c] + x) == [[c]] + Words(x)
    ensures x != [] && !IsSpace(x[0]) ==> Words(x) != [] && Words([c] + x) == [[c] + Words(x)[0]] + Words(x)[1..]
  {
    WordsOfCons(c, x);
    var m := WordLen(x);
    if m == 0 {
      assert x[..m] == [] && x[m..] == x;
    }
  }

  lemma WordsOfCons(c: char, x: string)
    requires !IsSpace(c)
    ensures var m := WordLen(x); Words([c] + x) == [[c] + x[..m]] + Words(x[m..])
  {
    var s := [c] + x;
    var m := WordLen(x);
    assert s[1..] == x;
    assert WordLen(s) == 1 + m;
    assert s[..1 + m] == [c] + x[..m];
    assert s[1 + m..] == x[m..];
  }

  /** Leading white space has no words. */
  lemma {:induction false} WordsSkipSpace(s: string, a: nat)
    requires a <= |s| && AllSpace(s[..a])
    ensures Words(s[a..]) == Words(s)
    decreases a
  {
    if a > 0 {
      assert IsSpace(s[..a][0]);
      var t := s[1..];
      assert t[a - 1..] == s[a..];
      var u := t[..a - 1];
      assert AllSpace(u) by {
        forall k | 0 <= k < |u| ensures IsSpace(u[k]) {
          assert u[k] == s[..a][k + 1];
        }
      }
      WordsSkipSpace(t, a - 1);
    }
  }

  /** Trailing white space has no words. */
  lemma {:induction false} WordsAppendSpace(s: string, sp: string)
    requires AllSpace(sp)
    ensures Words(s + sp) == Words(s)
    decreases |s|
  {
    if s == [] {
      assert s + sp == sp[..|sp|][0..];
      WordsSkipSpace(sp, |sp|);
      assert sp[|sp|..] == [];
    } else {
      assert (s + sp)[1..] == s[1..] + sp;
      WordsAppendSpace(s[1..], sp);
      if !IsSpace(s[0]) {
        assert s + sp == [s[0]] + (s[1..] + sp);
        assert s == [s[0]] + s[1..];
        WordsConsChar(s[0], s[1..] + sp);
        WordsConsChar(s[0], s[1..]);
      }
    }
  }

  /** Trimming keeps the words. */
  lemma WordsTrim(s: string)
    ensures Words(Trim(s)) == Words(s)
  {
    WordsTrimStart(s);
    WordsTrimEnd(TrimStart(s));
  }

  lemma WordsTrimStart(s: string)
    ensures Words(TrimStart(s)) == Words(s)
  {
    WordsSkipSpace(s, |s| - |TrimStart(s)|);
  }

  lemma WordsTrimEnd(s: string)
    ensures Words(TrimEnd(s)) == Words(s)
  {
    var r := TrimEnd(s);
    var sp := s[|r|..];
    assert s == r + sp;
    WordsAppendSpace(r, sp);
  }

  /** Collapsing white space keeps the words. */
  lemma {:induction false} WordsCollapse(s: string)
    ensures Words(CollapseSpaces(s)) == Words(s)
    decreases |s|
  {
    if s != [] {
      if IsSpace(s[0]) {
        var t := TrimStart(s[1..]);
        WordsCollapse(t);
        WordsSkipSpace(s[1..], |s[1..]| - |t|);
        assert CollapseSpaces(s)[1..] == CollapseSpaces(t);
      } else {
        var c := CollapseSpaces(s[1..]);
        WordsCollapse(s[1..]);
        assert CollapseSpaces(s) == [s[0]] + c;
        assert s == [s[0]] + s[1..];
        WordsConsChar(s[0], c);
        WordsConsChar(s[0], s[1..]);
      }
    }
  }

  /** Text with single blanks and no white space at either end is its words joined by blanks. */
  lemma {:induction false} SingleBlanksAreJoin(n: string)
    requires SingleBlanks(n) && Trimmed(n)
    ensures n == Join(Words(n), " ")
    decreases |n|
  {
    if n != [] {
      var m := WordLen(n);
      if m == |n| {
        assert Words(n) == [n] by {
          assert n[..m] == n && n[m..] == [];
        }
      } else {
        var rest := n[m + 1..];
        assert m < |n| - 1 && n[m] == ' ' && !IsSpace(n[m + 1]);
        assert SingleBlanks(rest) && Trimmed(rest) && rest != [] by {
          SingleBlanksSlice(n, m + 1, |n|, rest);
          assert rest[0] == n[m + 1] && rest[|rest| - 1] == n[|n| - 1];
        }
        SingleBlanksAreJoin(rest);
        WordsAtBlank(n, m, rest);
        WordsNonEmpty(rest);
        JoinCons(n[..m], Words(rest), " ");
        CutAt(n, m);
        assert [n[m]] == " ";
      }
    }
  }

  lemma CutAt(s: string, m: nat)
    requires m < |s|
    ensures s == s[..m] + [s[m]] + s[m + 1..]
  {
  }

  /** A word ended by a single blank is followed by the words after the blank. */
  lemma WordsAtBlank(n: string, m: nat, rest: string)
    requires 0 < m < |n| && m == WordLen(n) && rest == n[m + 1..]
    ensures Words(n) == [n[..m]] + Words(rest)
  {
    assert !IsSpace(n[0]) && IsSpace(n[m]);
    assert n[m..][1..] == rest;
  }

  /** Text starting with a non-white-space character has a word. */
  lemma WordsNonEmpty(s: string)
    requires s != [] && !IsSpace(s[0])
    ensures Words(s) != []
  {
  }

  /** `s.replace(/\s+/g, " ").trim()` is the words of `s` joined by single blanks. */
  lemma CollapsedTrimIsJoin(s: string)
    ensures Trim(CollapseSpaces(s)) == Join(Words(s), " ")
  {
    var c := CollapseSpaces(s);
    var n := Trim(c);
    assert SingleBlanks(c);
    TrimKeepsSingleBlanks(c);
    TrimTrimmed(c);
    SingleBlanksAreJoin(n);
    WordsTrim(c);
    WordsCollapse(s);
  }

  /** ASCII-only lower-casing (what a case-insensitive match of an ASCII pattern compares). */
  function ToLowerAscii(s: string): (r: string)
    ensures |r| == |s|
    ensures forall k :: 0 <= k < |s| ==> r[k] == (if 'A' <= s[k] <= 'Z' then (s[k] as int + 32) as char else s[k])
  {
    if s == [] then [] else
    [if 'A' <= s[0] <= 'Z' then (s[0] as int + 32) as char else s[0]] + ToLowerAscii(s[1..])
  }

  /** `s.replace(/<from>/g, to)` for single characters. */
  function ReplaceChar(s: string, from: char, to: char): (r: string)
    ensures |r| == |s|
    ensures forall k :: 0 <= k < |s| ==> r[k] == (if s[k] == from then to else s[k])
    ensures from != to ==> from !in r
  {
    if s == [] then [] else [if s[0] == from then to else s[0]] + ReplaceChar(s[1..], from, to)
  }

  predicate IsDigit(c: char) {
    '0' <= c <= '9'
  }

  function DigitChar(d: nat): (c: char)
    requires d < 10
    ensures IsDigit(c) && c as int - '0' as int == d
  {
    (d + '0' as int) as char
  }

  /** The base-10 rendering of a non-negative integer, as `n.toString()` prints it. */
  function NatToDecimal(n: nat): (r: string)
    ensures |r| >= 1
    ensures forall k :: 0 <= k < |r| ==> IsDigit(r[k])
    ensures |r| > 1 ==> r[0] != '0'
    decreases n
  {
    if n < 10 then [DigitChar(n)] else NatToDecimal(n / 10) + [DigitChar(n % 10)]
  }

  /** The value of a string of decimal digits. */
  function DecimalValue(s: string): nat
    requires forall k :: 0 <= k < |s| ==> IsDigit(s[k])
  {
    if s == [] then 0
    else
      assert IsDigit(s[|s| - 1]);
      DecimalValue(s[..|s| - 1]) * 10 + (s[|s| - 1] as int - '0' as int)
  }

  /** Reading back a rendered number gives the number. */
  lemma {:induction false} DecimalRoundTrip(n: nat)
    ensures DecimalValue(NatToDecimal(n)) == n
    decreases n
  {
    if n >= 10 {
      var r := NatToDecimal(n);
      DecimalRoundTrip(n / 10);
      assert r[..|r| - 1] == NatToDecimal(n / 10);
    }
  }

  /** `String(i)` for an integer. */
  function IntToDecimal(i: int): (r: string)
    ensures i >= 0 ==> r == NatToDecimal(i)
    ensures i < 0 ==> r == "-" + NatToDecimal(-i)
  {
    if i < 0 then "-" + NatToDecimal(-i) else NatToDecimal(i)
  }

  /** A line without the carriage return that ended it, if any. */
  function DropCr(line: string): (r: string)
    ensures r == line || (line == r + "\r")
  {
    if line != [] && line[|line| - 1] == '\r' then line[..|line| - 1] else line
  }

  /**
   * `s.split(/\r?\n/)`: the pieces between line feeds, each piece before
   * a line feed losing one carriage return that immediately precedes it.
   */
  function SplitLines(s: string): (lines: seq<string>)
    ensures |lines| == |Split(s, "\n")|
    ensures forall k :: 0 <= k < |lines| ==> '\n' !in lines[k]
    ensures lines[|lines| - 1] == Split(s, "\n")[|lines| - 1]
  {
    var parts := Split(s, "\n");
    var lines := seq(|parts|, k requires 0 <= k < |parts| => if k < |parts| - 1 then DropCr(parts[k]) else parts[k]);
    assert forall k :: 0 <= k < |parts| ==> '\n' !in parts[k] by {
      forall k | 0 <= k < |parts| ensures '\n' !in parts[k] {
        NoOccurrenceMeansAbsent(parts[k], '\n');
      }
    }
    lines
  }

  lemma NoOccurrenceMeansAbsent(s: string, c: char)
    requires !Contains(s, [c])
    ensures c !in s
  {
    if c in s {
      var k :| 0 <= k < |s| && s[k] == c;
      assert s[k..k + 1] == [c];
      assert OccursAt(s, [c], k);
    }
  }

  /** Without carriage returns the lines are the pieces between line feeds, and joining them with line feeds gives the text back. */
  lemma SplitLinesRoundTrip(s: string)
    requires '\r' !in s
    ensures SplitLines(s) == Split(s, "\n")
    ensures Join(SplitLines(s), "\n") == s
  {
    var parts := Split(s, "\n");
    SplitKeepsChars(s, "\n");
    JoinSplit(s, "\n");
  }

  /** Every character of a piece of a split is a character of the input. */
  lemma {:induction false} SplitKeepsChars(s: string, sep: string)
    requires |sep| > 0
    ensures forall k, c :: 0 <= k < |Split(s, sep)| && c in Split(s, sep)[k] ==> c in s
    decreases |s|
  {
    match FindFrom(s, sep, 0)
    case None =>
    case Some(i) =>
      var rest := s[i + |sep|..];
      SplitKeepsChars(rest, sep);
      assert Split(s, sep) == [s[..i]] + Split(rest, sep);
      assert forall c :: c in rest ==> c in s;
      assert forall c :: c in s[..i] ==> c in s;
  }
}
