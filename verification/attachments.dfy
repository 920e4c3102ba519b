/**
 * The attachment-summary helpers of chat
 * (server/utils/helpers/chat/attachments.js): the cache key of an attached
 * document, the summary used when no model summary is available, the
 * "Summary for …" context lines collected once per document across a chat
 * history, the gate that lets a prompt be answered from summaries alone,
 * and the reply built from them.
 *
 * Attachments are JSON values; the summary-request regular expressions are
 * the predicate `matches`, `JSON.parse` is `parse` and the rendering of
 * numbers in template strings is `numText`.
 */
module Attachments {
  import opened Wrappers
  import opened Strings
  import opened JsValues

  function Field(a: Json, key: string): Option<Json> {
    OptMember(Some(a), key)
  }

  /** `typeof attachment === "object"` for a truthy value. */
  predicate IsObject(a: Json) {
    a.Obj? || a.Arr?
  }

  // ------------------------------------------------------------ cache key

  /** `attachmentCacheKey`: the first truthy of location, docpath, `"doc-" + id`, document URL, file URL. */
  function CacheKey(a: Json, numText: real -> string): (r: Option<Json>)
    ensures !IsObject(a) ==> r.None?
    ensures IsObject(a) && TruthyOpt(Field(a, "documentLocation")) ==> r == Field(a, "documentLocation")
    ensures r.Some? ==> Truthy(r.value)
    ensures r.None? <==> !IsObject(a) || forall f :: f in KeySources ==> !TruthyOpt(Source(a, f))
    ensures forall i :: IsObject(a) && FirstKeySource(a, i) ==> r == KeyFrom(a, i, numText)
  {
    FirstKeySourceUnique(a);
    if !IsObject(a) then None
    else if TruthyOpt(Source(a, "documentLocation")) then Source(a, "documentLocation")
    else if TruthyOpt(Source(a, "docpath")) then Source(a, "docpath")
    else if TruthyOpt(Source(a, "documentId")) then Some(Str("doc-" + JsString(Source(a, "documentId").value, numText)))
    else if TruthyOpt(Source(a, "documentUrl")) then Source(a, "documentUrl")
    else if TruthyOpt(Source(a, "fileUrl")) then Source(a, "fileUrl")
    else None
  }

  /** The candidates of the cache key, in priority order. */
  const KeySources: seq<string> := ["documentLocation", "docpath", "documentId", "documentUrl", "fileUrl"]

  /** Where each candidate is read: `docpath` under `embeddingIdentifiers`, the rest on the attachment. */
  function Source(a: Json, f: string): Option<Json> {
    if f == "docpath" then OptMember(Field(a, "embeddingIdentifiers"), "docpath") else Field(a, f)
  }

  /** Candidate `i` is the first truthy one. */
  predicate FirstKeySource(a: Json, i: nat) {
    i < |KeySources| && TruthyOpt(Source(a, KeySources[i]))
    && forall j :: 0 <= j < i ==> !TruthyOpt(Source(a, KeySources[j]))
  }

  /** The first truthy candidate is the first in priority order that is truthy. */
  lemma FirstKeySourceUnique(a: Json)
    ensures forall i :: FirstKeySource(a, i) ==>
      (i == 0 <==> TruthyOpt(Source(a, "documentLocation")))
      && (i == 1 <==> !TruthyOpt(Source(a, "documentLocation")) && TruthyOpt(Source(a, "docpath")))
      && (i == 2 <==> !TruthyOpt(Source(a, "documentLocation")) && !TruthyOpt(Source(a, "docpath")) && TruthyOpt(Source(a, "documentId")))
      && (i == 3 <==> !TruthyOpt(Source(a, "documentLocation")) && !TruthyOpt(Source(a, "docpath")) && !TruthyOpt(Source(a, "documentId"))
                      && TruthyOpt(Source(a, "documentUrl")))
  {
    forall i | FirstKeySource(a, i)
      ensures forall j :: 0 <= j < i ==> !TruthyOpt(Source(a, KeySources[j]))
    {
    }
    assert KeySources[0] == "documentLocation" && KeySources[1] == "docpath" && KeySources[2] == "documentId"
      && KeySources[3] == "documentUrl" && KeySources[4] == "fileUrl";
  }

  /** The key candidate `i` gives: the value itself, or `"doc-" + id` for the document id. */
  function KeyFrom(a: Json, i: nat, numText: real -> string): Option<Json>
    requires i < |KeySources| && Source(a, KeySources[i]).Some?
  {
    if KeySources[i] == "documentId" then Some(Str("doc-" + JsString(Source(a, KeySources[i]).value, numText)))
    else Source(a, KeySources[i])
  }

  /** Priority: once a candidate is truthy, changing any later candidate leaves the key unchanged. */
  lemma CacheKeyPriority(a: Json, b: Json, i: nat, numText: real -> string)
    requires IsObject(a) && IsObject(b) && i < |KeySources|
    requires TruthyOpt(Source(a, KeySources[i]))
    requires forall j :: 0 <= j <= i ==> Source(a, KeySources[j]) == Source(b, KeySources[j])
    ensures CacheKey(a, numText) == CacheKey(b, numText)
  {
    assert forall j :: 0 <= j <= i ==> Source(a, KeySources[j]) == Source(b, KeySources[j]);
    if i >= 1 { assert Source(a, KeySources[0]) == Source(b, KeySources[0]); }
    if i >= 2 { assert Source(a, KeySources[1]) == Source(b, KeySources[1]); }
    if i >= 3 { assert Source(a, KeySources[2]) == Source(b, KeySources[2]); }
    if i >= 4 { assert Source(a, KeySources[3]) == Source(b, KeySources[3]); }
  }

  /** A document id becomes `doc-<id>` when neither location nor docpath is set. */
  lemma CacheKeyFromId(a: Json, id: string, numText: real -> string)
    requires a.Obj? && a.fields.Keys == {"documentId"} && a.fields["documentId"] == Str(id) && id != ""
    ensures CacheKey(a, numText) == Some(Str("doc-" + id))
  {
  }

  // --------------------------------------------------------- fallback summary

  predicate IsStop(c: char) {
    c == '.' || c == '!' || c == '?'
  }

  /** The first sentence terminator at or after `from`. */
  function FirstStop(s: string, from: nat): (r: Option<nat>)
    ensures r.Some? ==> from <= r.value < |s| && IsStop(s[r.value]) && forall m :: from <= m < r.value ==> !IsStop(s[m])
    ensures r.None? ==> forall m :: from <= m < |s| ==> !IsStop(s[m])
    decreases |s| - from
  {
    if from >= |s| then None else if IsStop(s[from]) then Some(from) else FirstStop(s, from + 1)
  }

  /** The end of the run of terminators that starts at `j`. */
  function StopRunEnd(s: string, j: nat): (k: nat)
    requires j <= |s|
    ensures j <= k <= |s| && (forall m :: j <= m < k ==> IsStop(s[m])) && (k < |s| ==> !IsStop(s[k]))
    decreases |s| - j
  {
    if j < |s| && IsStop(s[j]) then StopRunEnd(s, j + 1) else j
  }

  /**
   * `text.match(/[^.!?]+[.!?]+/g)`: leading terminators are skipped; each
   * match is a run of other characters and the run of terminators after
   * it; text after the last terminator is not a sentence.
   */
  function Sentences(s: string): (r: seq<string>)
    ensures forall k :: 0 <= k < |r| ==> r[k] != [] && !IsStop(r[k][0]) && IsStop(r[k][|r[k]| - 1])
    decreases |s|
  {
    if s == [] then []
    else if IsStop(s[0]) then Sentences(s[1..])
    else
      match FirstStop(s, 0)
      case None => []
      case Some(j) =>
        var k := StopRunEnd(s, j);
        [s[..k]] + Sentences(s[k..])
  }

  /** Each sentence is one run of non-terminators followed by one run of terminators. */
  lemma {:induction false} SentencesAreRuns(s: string)
    ensures forall k :: 0 <= k < |Sentences(s)| ==> StopsStayStops(Sentences(s)[k])
    decreases |s|
  {
    if s != [] {
      if IsStop(s[0]) {
        SentencesAreRuns(s[1..]);
        assert Sentences(s) == Sentences(s[1..]);
      } else {
        match FirstStop(s, 0)
        case None =>
        case Some(j) =>
          var k := StopRunEnd(s, j);
          SentencesAreRuns(s[k..]);
          OneRunOfStops(s, j, k);
          assert Sentences(s) == [s[..k]] + Sentences(s[k..]);
          RunsCons(s[..k], Sentences(s[k..]));
      }
    }
  }

  lemma RunsCons(p: string, rest: seq<string>)
    requires StopsStayStops(p) && forall k :: 0 <= k < |rest| ==> StopsStayStops(rest[k])
    ensures forall k :: 0 <= k < |[p] + rest| ==> StopsStayStops(([p] + rest)[k])
  {
    forall k | 0 <= k < |[p] + rest| ensures StopsStayStops(([p] + rest)[k]) {
      if k > 0 {
        assert ([p] + rest)[k] == rest[k - 1];
      }
    }
  }

  /** After the first terminator, every character is a terminator. */
  predicate StopsStayStops(p: string) {
    forall m :: 0 < m < |p| && IsStop(p[m - 1]) ==> IsStop(p[m])
  }

  /** Non-terminators up to `j`, then terminators up to `k`: once a terminator appears, the rest are terminators. */
  lemma OneRunOfStops(s: string, j: nat, k: nat)
    requires j < k <= |s|
    requires forall m :: 0 <= m < j ==> !IsStop(s[m])
    requires forall m :: j <= m < k ==> IsStop(s[m])
    ensures StopsStayStops(s[..k])
  {
    forall m | 0 < m < k && IsStop(s[..k][m - 1]) ensures IsStop(s[..k][m]) {
      assert s[..k][m - 1] == s[m - 1] && s[..k][m] == s[m];
    }
  }

  /** Some terminator follows some other character. */
  predicate HasSentence(s: string) {
    exists i, j :: 0 <= i < j < |s| && !IsStop(s[i]) && IsStop(s[j])
  }

  /** There is at least one sentence exactly when a terminator follows some other character. */
  lemma {:induction false} SentencesExist(s: string)
    ensures Sentences(s) != [] <==> HasSentence(s)
    decreases |s|
  {
    if s == [] {
    } else if IsStop(s[0]) {
      SentencesExist(s[1..]);
      if HasSentence(s) {
        var i, j :| 0 <= i < j < |s| && !IsStop(s[i]) && IsStop(s[j]);
        assert i >= 1;
        assert !IsStop(s[1..][i - 1]) && IsStop(s[1..][j - 1]);
      }
      if HasSentence(s[1..]) {
        var i, j :| 0 <= i < j < |s[1..]| && !IsStop(s[1..][i]) && IsStop(s[1..][j]);
        assert !IsStop(s[i + 1]) && IsStop(s[j + 1]);
      }
    } else {
      match FirstStop(s, 0)
      case None => {
      }
      case Some(j) => {
        assert 0 < j;
      }
    }
  }

  /** The sentences laid end to end. */
  function Concat(ss: seq<string>): string {
    if ss == [] then [] else ss[0] + Concat(ss[1..])
  }

  /** Just past the last terminator, or 0 when there is none. */
  function LastStopEnd(s: string): (e: nat)
    ensures e <= |s| && (e > 0 ==> IsStop(s[e - 1]))
    ensures forall m :: e <= m < |s| ==> !IsStop(s[m])
    decreases |s|
  {
    if s == [] then 0 else if IsStop(s[|s| - 1]) then |s| else LastStopEnd(s[..|s| - 1])
  }

  lemma LastStopEndUnique(s: string, e: nat)
    requires e <= |s| && (e > 0 ==> IsStop(s[e - 1]))
    requires forall m :: e <= m < |s| ==> !IsStop(s[m])
    ensures LastStopEnd(s) == e
  {
  }

  lemma StopRunEndUnique(s: string, j: nat, k: nat)
    requires j <= k <= |s| && (forall m :: j <= m < k ==> IsStop(s[m])) && (k < |s| ==> !IsStop(s[k]))
    ensures StopRunEnd(s, j) == k
  {
  }

  /**
   * Coverage: the sentences, laid end to end, are exactly the text with its
   * leading terminators and everything after its last terminator removed.
   */
  lemma {:induction false} SentencesCover(s: string)
    ensures StopRunEnd(s, 0) <= LastStopEnd(s)
    ensures Concat(Sentences(s)) == s[StopRunEnd(s, 0)..LastStopEnd(s)]
    decreases |s|
  {
    if s == [] {
    } else if IsStop(s[0]) {
      SentencesCover(s[1..]);
      CoverAfterStop(s);
    } else {
      StopRunEndUnique(s, 0, 0);
      match FirstStop(s, 0)
      case None => {
        LastStopEndUnique(s, 0);
      }
      case Some(j) => {
        var k := StopRunEnd(s, j);
        SentencesCover(s[k..]);
        CoverAfterSentence(s, j);
      }
    }
  }

  /** The step of the coverage proof past a leading terminator. */
  lemma CoverAfterStop(s: string)
    requires s != [] && IsStop(s[0])
    requires StopRunEnd(s[1..], 0) <= LastStopEnd(s[1..])
    requires Concat(Sentences(s[1..])) == s[1..][StopRunEnd(s[1..], 0)..LastStopEnd(s[1..])]
    ensures StopRunEnd(s, 0) <= LastStopEnd(s)
    ensures Concat(Sentences(s)) == s[StopRunEnd(s, 0)..LastStopEnd(s)]
  {
    var t := s[1..];
    var st := StopRunEnd(t, 0);
    var e := LastStopEnd(t);
    LeadingStopShifts(s);
    LeadingStopSkipped(s);
    TailSlice(s, st, e);
  }

  lemma LeadingStopSkipped(s: string)
    requires s != [] && IsStop(s[0])
    ensures Sentences(s) == Sentences(s[1..])
  {
  }

  lemma TailSlice(s: string, a: nat, b: nat)
    requires a <= b < |s|
    ensures s[1..][a..b] == s[a + 1..b + 1]
  {
  }

  /** A leading terminator moves both ends of the covered slice by one. */
  lemma LeadingStopShifts(s: string)
    requires s != [] && IsStop(s[0])
    ensures StopRunEnd(s, 0) == StopRunEnd(s[1..], 0) + 1
    ensures LastStopEnd(s) == LastStopEnd(s[1..]) + 1
  {
    var t := s[1..];
    StopRunEndUnique(s, 0, StopRunEnd(t, 0) + 1);
    LastStopEndUnique(s, LastStopEnd(t) + 1);
  }

  /** The step of the coverage proof past a first sentence that ends with the terminators from `j`. */
  lemma CoverAfterSentence(s: string, j: nat)
    requires s != [] && !IsStop(s[0]) && FirstStop(s, 0) == Some(j)
    requires var u := s[StopRunEnd(s, j)..];
      StopRunEnd(u, 0) <= LastStopEnd(u) && Concat(Sentences(u)) == u[StopRunEnd(u, 0)..LastStopEnd(u)]
    ensures StopRunEnd(s, 0) <= LastStopEnd(s)
    ensures Concat(Sentences(s)) == s[StopRunEnd(s, 0)..LastStopEnd(s)]
  {
    var k := StopRunEnd(s, j);
    var u := s[k..];
    StopRunEndUnique(s, 0, 0);
    StopRunEndUnique(u, 0, 0);
    FirstSentence(s, j);
    LastStopPastSentence(s, k);
    var e := LastStopEnd(u);
    assert Concat(Sentences(u)) == u[0..e];
    SliceJoin(s, k, e);
  }

  lemma SliceJoin(s: string, k: nat, e: nat)
    requires k + e <= |s|
    ensures s[..k] + s[k..][0..e] == s[0..k + e]
  {
  }

  lemma FirstSentence(s: string, j: nat)
    requires s != [] && !IsStop(s[0]) && FirstStop(s, 0) == Some(j)
    ensures var k := StopRunEnd(s, j);
      Concat(Sentences(s)) == s[..k] + Concat(Sentences(s[k..]))
  {
    var k := StopRunEnd(s, j);
    var ss := [s[..k]] + Sentences(s[k..]);
    assert Sentences(s) == ss;
    assert ss[0] == s[..k] && ss[1..] == Sentences(s[k..]);
  }

  lemma LastStopPastSentence(s: string, k: nat)
    requires 0 < k <= |s| && IsStop(s[k - 1])
    ensures LastStopEnd(s) == k + LastStopEnd(s[k..])
  {
    var u := s[k..];
    var e := LastStopEnd(u);
    if e > 0 {
      assert s[k + e - 1] == u[e - 1];
    }
    forall m | k + e <= m < |s| ensures !IsStop(s[m]) {
      assert s[m] == u[m - k];
    }
    LastStopEndUnique(s, k + e);
  }

  function Min(a: nat, b: nat): (m: nat)
    ensures m <= a && m <= b && (m == a || m == b)
  {
    if a < b then a else b
  }

  /** `slice(0, 3)`: at most the first three elements. */
  function FirstThree<T>(xs: seq<T>): (r: seq<T>)
    ensures |r| == Min(3, |xs|) && r == xs[..|r|]
  {
    xs[..Min(3, |xs|)]
  }

  /** "…" as the source file's bytes decode: the UTF-8 ellipsis read as Windows-1252. */
  const MisencodedEllipsis: string := "\U{00E2}\U{20AC}\U{00A6}"

  /** The horizontal ellipsis, U+2026. */
  const Ellipsis: string := "\U{2026}"

  /** `text.replace(/\s+/g, " ").trim()`. */
  function Normalize(text: string): (n: string)
    ensures n == [] <==> AllSpace(text)
    ensures Trimmed(n)
    ensures SingleBlanks(n)
    ensures NonSpace(n) == NonSpace(text)
    ensures (forall k :: 0 <= k < |text| ==> !IsSpace(text[k])) ==> n == text
    ensures n == Join(Words(text), " ")
  {
    var n := Trim(CollapseSpaces(text));
    assert n == Join(Words(text), " ") by {
      CollapsedTrimIsJoin(text);
    }
    assert Trimmed(n) by {
      TrimTrimmed(CollapseSpaces(text));
    }
    assert n == [] <==> AllSpace(text) by {
      CollapseBlank(text);
    }
    assert SingleBlanks(n) && NonSpace(n) == NonSpace(text) by {
      CollapsedTrimmed(text);
    }
    assert (forall k :: 0 <= k < |text| ==> !IsSpace(text[k])) ==> n == text by {
      CollapseNoSpace(text);
    }
    n
  }

  lemma CollapsedTrimmed(text: string)
    ensures SingleBlanks(Trim(CollapseSpaces(text)))
    ensures NonSpace(Trim(CollapseSpaces(text))) == NonSpace(text)
  {
    CollapseKeepsText(text);
    TrimKeepsNonSpace(CollapseSpaces(text));
    CollapsedSingleBlanks(text);
  }

  lemma CollapsedSingleBlanks(text: string)
    ensures SingleBlanks(Trim(CollapseSpaces(text)))
  {
    var c := CollapseSpaces(text);
    assert SingleBlanks(c);
    TrimKeepsSingleBlanks(c);
  }

  /** `sentences.slice(0, 3).join(" ").trim()`, when there are sentences and that is not blank. */
  function SentenceSummary(n: string): (r: Option<string>)
    ensures r.Some? <==> HasSentence(n)
    ensures r.Some? ==> r.value != [] && !IsSpace(r.value[0])
  {
    var ss := Sentences(n);
    assert ss != [] <==> HasSentence(n) by {
      SentencesExist(n);
    }
    if ss == [] then None
    else
      var summary := Trim(Join(FirstThree(ss), " "));
      assert summary != [] by {
        FirstSentencesEnd(n);
      }
      if summary != [] then Some(summary) else None
  }

  /** The first three sentences joined by blanks are never blank. */
  lemma FirstSentencesEnd(n: string)
    requires Sentences(n) != []
    ensures Trim(Join(FirstThree(Sentences(n)), " ")) != []
  {
    var ss := Sentences(n);
    var three := FirstThree(ss);
    assert forall k :: 0 <= k < |three| ==> three[k] != [] && IsStop(three[k][|three[k]| - 1]) by {
      assert forall k :: 0 <= k < |three| ==> three[k] == ss[k];
    }
    JoinKeepsStop(three);
  }

  /** The first 500 characters, trimmed, marked with `ellipsis` when the text is longer. */
  function Snippet(n: string, ellipsis: string): (r: Option<string>)
    ensures n != [] && !IsSpace(n[0]) ==> r.Some? && r.value != [] && !IsSpace(r.value[0])
    ensures r.Some? && |n| <= 500 ==> r.value == Trim(n)
    ensures r.Some? && |n| > 500 ==> |r.value| >= |ellipsis| && r.value[|r.value| - |ellipsis|..] == ellipsis
  {
    var head := n[..Min(500, |n|)];
    var cut := Trim(head);
    var marker := if |n| > 500 then ellipsis else "";
    assert |n| <= 500 ==> head == n;
    assert n != [] ==> head[0] == n[0];
    if cut != [] then Some(cut + marker) else None
  }

  /**
   * `fallbackSummary` with the given ellipsis: collapse white space and
   * trim; the first three sentences joined by a blank, or else the first
   * 500 characters, marked when text was cut off; `null` for blank text.
   */
  function FallbackWith(text: string, ellipsis: string): (r: Option<string>)
    ensures r.None? <==> AllSpace(text)
    ensures r.Some? ==> r.value != [] && !IsSpace(r.value[0])
    ensures HasSentence(Normalize(text)) ==> r == SentenceSummary(Normalize(text))
    ensures var n := Normalize(text);
      !HasSentence(n) && !AllSpace(text) ==> r == Some(Trim(n[..Min(500, |n|)]) + (if |n| > 500 then ellipsis else ""))
  {
    var n := Normalize(text);
    if n == [] then None
    else
      match SentenceSummary(n)
      case Some(summary) => Some(summary)
      case None => Snippet(n, ellipsis)
  }

  /** `fallbackSummary` as the file spells it, with the misencoded ellipsis. */
  function FallbackSummaryAsWritten(text: string): (r: Option<string>)
    ensures r.None? <==> AllSpace(text)
  {
    FallbackWith(text, MisencodedEllipsis)
  }

  /** `fallbackSummary` with the ellipsis character the code evidently means. */
  function FallbackSummary(text: string): (r: Option<string>)
    ensures r.None? <==> AllSpace(text)
    ensures r.Some? ==> r.value != [] && !IsSpace(r.value[0])
  {
    FallbackWith(text, Ellipsis)
  }

  /** Text without white space or terminators: the first 500 characters and the marker. */
  lemma PlainTextIsCut(text: string, ellipsis: string)
    requires |text| > 500
    requires forall k :: 0 <= k < |text| ==> !IsSpace(text[k]) && !IsStop(text[k])
    ensures FallbackWith(text, ellipsis) == Some(text[..500] + ellipsis)
  {
    assert Normalize(text) == text;
    assert !IsSpace(text[0]);
    NoStopNoSentence(text);
    PlainHeadKept(text);
    LongPlainCut(text, ellipsis);
  }

  lemma LongPlainCut(text: string, ellipsis: string)
    requires |text| > 500 && !IsSpace(text[0])
    requires Normalize(text) == text && !HasSentence(text)
    requires Trim(text[..500]) == text[..500]
    ensures FallbackWith(text, ellipsis) == Some(text[..500] + ellipsis)
  {
    assert !AllSpace(text);
  }

  lemma NoStopNoSentence(s: string)
    requires forall k :: 0 <= k < |s| ==> !IsStop(s[k])
    ensures !HasSentence(s)
  {
  }

  lemma PlainHeadKept(text: string)
    requires |text| > 500
    requires forall k :: 0 <= k < |text| ==> !IsSpace(text[k])
    ensures Trim(text[..500]) == text[..500]
  {
    var p := text[..500];
    assert forall k :: 0 <= k < |p| ==> !IsSpace(p[k]);
    assert Trim(p) == p;
  }

  /** With the intended ellipsis a cut summary is 501 characters and ends with U+2026. */
  lemma CutSummaryEndsWithEllipsis(text: string)
    requires |text| > 500
    requires forall k :: 0 <= k < |text| ==> !IsSpace(text[k]) && !IsStop(text[k])
    ensures var r := FallbackSummary(text);
      r.Some? && |r.value| == 501 && r.value[500] == '\U{2026}'
  {
    PlainTextIsCut(text, Ellipsis);
  }

  /** As written, a cut summary ends in the three characters "â€¦" and holds no U+2026 that was not in the text. */
  lemma AsWrittenCut(text: string)
    requires |text| > 500 && '\U{2026}' !in text
    requires forall k :: 0 <= k < |text| ==> !IsSpace(text[k]) && !IsStop(text[k])
    ensures var r := FallbackSummaryAsWritten(text);
      r.Some? && |r.value| == 503 && r.value[500..] == "\U{00E2}\U{20AC}\U{00A6}" && '\U{2026}' !in r.value
  {
    PlainTextIsCut(text, MisencodedEllipsis);
    PrefixLacks(text, 500, '\U{2026}');
    MarkerAppended(text[..500]);
  }

  lemma PrefixLacks(s: string, n: nat, c: char)
    requires n <= |s| && c !in s
    ensures c !in s[..n]
  {
    assert forall k :: 0 <= k < n ==> s[..n][k] == s[k];
  }

  lemma MarkerAppended(p: string)
    requires |p| == 500 && '\U{2026}' !in p
    ensures var r := p + MisencodedEllipsis;
      |r| == 503 && r[500..] == "\U{00E2}\U{20AC}\U{00A6}" && '\U{2026}' !in r
  {
  }

  /** Six hundred letters: a 503-character summary without the intended ellipsis. */
  lemma AsWrittenMarkerIsMisencoded()
    ensures var r := FallbackSummaryAsWritten(seq(600, _ => 'a'));
      r.Some? && |r.value| == 503 && '\U{2026}' !in r.value
  {
    var text := seq(600, _ => 'a');
    assert forall k :: 0 <= k < |text| ==> text[k] == 'a';
    AsWrittenCut(text);
  }

  /** A text with a sentence is summarised by its first three sentences, not cut. */
  lemma SentencesWin(text: string)
    requires HasSentence(Normalize(text))
    ensures var ss := Sentences(Normalize(text));
      FallbackSummary(text) == Some(Trim(Join(FirstThree(ss), " ")))
  {
  }

  /** A joined list of sentences ends with a terminator, so it is never blank. */
  lemma JoinKeepsStop(parts: seq<string>)
    requires |parts| >= 1
    requires forall k :: 0 <= k < |parts| ==> parts[k] != [] && IsStop(parts[k][|parts[k]| - 1])
    ensures Trim(Join(parts, " ")) != []
  {
    var j := Join(parts, " ");
    var last := parts[|parts| - 1];
    assert |j| >= 1 && j[|j| - 1] == last[|last| - 1] by {
      JoinEndsWithLast(parts);
    }
    StopNotSpace(last[|last| - 1]);
    assert !AllSpace(j);
  }

  lemma StopNotSpace(c: char)
    requires IsStop(c)
    ensures !IsSpace(c)
  {
  }

  lemma {:induction false} JoinEndsWithLast(parts: seq<string>)
    requires |parts| >= 1 && parts[|parts| - 1] != []
    ensures var j := Join(parts, " "); |j| >= 1 && j[|j| - 1] == parts[|parts| - 1][|parts[|parts| - 1]| - 1]
    decreases |parts|
  {
    if |parts| > 1 {
      JoinEndsWithLast(parts[1..]);
    }
  }

  // ---------------------------------------------------------- summary contexts

  /** `typeof a?.documentSummary === "string" ? a.documentSummary.trim() : ""`. */
  function SummaryOf(a: Json): string {
    match Field(a, "documentSummary")
    case Some(Str(s)) => Trim(s)
    case _ => ""
  }

  /** The de-duplication key: location, docId, document id, file URL, name, else the summary itself. */
  function DedupKey(a: Json): (k: Json)
    ensures SummaryOf(a) != "" ==> Truthy(k)
    ensures var c := DedupCandidates(a);
      forall i :: 0 <= i < |c| && TruthyOpt(c[i]) && (forall j :: 0 <= j < i ==> !TruthyOpt(c[j])) ==> k == c[i].value
    ensures var c := DedupCandidates(a);
      (forall i :: 0 <= i < |c| ==> !TruthyOpt(c[i])) ==> k == Str(SummaryOf(a))
  {
    FirstTruthy(DedupCandidates(a)).GetOr(Str(SummaryOf(a)))
  }

  /** The candidates of the de-duplication key, in priority order. */
  function DedupCandidates(a: Json): seq<Option<Json>> {
    [Field(a, "documentLocation"), OptMember(Field(a, "embeddingIdentifiers"), "docId"),
     Field(a, "documentId"), Field(a, "fileUrl"), Field(a, "name")]
  }

  /** `documentTitle || name || fileName || fallback`, as interpolated text. */
  function Label(a: Json, fallback: string, numText: real -> string): string {
    match FirstTruthy([Field(a, "documentTitle"), Field(a, "name"), Field(a, "fileName")])
    case Some(v) => JsString(v, numText)
    case None => fallback
  }

  function ContextLine(a: Json, numText: real -> string): string {
    "Summary for " + Label(a, "document", numText) + ": " + SummaryOf(a)
  }

  /**
   * A loop that skips items failing `keep` and items whose key was seen,
   * and otherwise records the key and emits the item's line.
   */
  function Collect<T, K(==)>(items: seq<T>, seen: set<K>, keep: T -> bool, key: T -> K, line: T -> string): (r: (seq<string>, set<K>))
    ensures seen <= r.1
    ensures |r.0| <= |items|
    ensures |r.1| == |seen| + |r.0|
    decreases |items|
  {
    if items == [] then ([], seen)
    else
      var a := items[0];
      if !keep(a) || key(a) in seen then Collect(items[1..], seen, keep, key, line)
      else
        var rest := Collect(items[1..], seen + {key(a)}, keep, key, line);
        ([line(a)] + rest.0, rest.1)
  }

  /** Collecting two lists in a row with one shared `seen` set is collecting their concatenation. */
  lemma {:induction false} CollectAppend<T, K>(a: seq<T>, b: seq<T>, seen: set<K>, keep: T -> bool, key: T -> K, line: T -> string)
    ensures var first := Collect(a, seen, keep, key, line);
      var both := Collect(a + b, seen, keep, key, line);
      var second := Collect(b, first.1, keep, key, line);
      both.0 == first.0 + second.0 && both.1 == second.1
    decreases |a|
  {
    if a == [] {
      assert a + b == b;
    } else {
      assert (a + b)[0] == a[0] && (a + b)[1..] == a[1..] + b;
      var seen' := if !keep(a[0]) || key(a[0]) in seen then seen else seen + {key(a[0])};
      CollectAppend(a[1..], b, seen', keep, key, line);
    }
  }

  /**
   * The loop of `collectSummaryContextsFromAttachments`: skip blank
   * summaries and keys already seen, record the key, push the line.
   */
  function CollectItems(items: seq<Json>, seen: set<Json>, numText: real -> string): (r: (seq<string>, set<Json>))
    ensures seen <= r.1
    ensures |r.0| <= |items|
    ensures |r.1| == |seen| + |r.0|
  {
    Collect(items, seen, HasSummary, DedupKey, (a: Json) => ContextLine(a, numText))
  }

  /** `collectSummaryContextsFromAttachments(attachments, seen)`: nothing unless a non-empty array. */
  function CollectFromAttachments(attachments: Json, seen: set<Json>, numText: real -> string): (r: (seq<string>, set<Json>))
    ensures !attachments.Arr? ==> r == ([], seen)
    ensures attachments.Arr? ==> r == CollectItems(attachments.items, seen, numText)
  {
    if !attachments.Arr? || attachments.items == [] then ([], seen)
    else CollectItems(attachments.items, seen, numText)
  }

  /** Whether an attachment adds a line given the keys seen so far. */
  predicate Adds(a: Json, seen: set<Json>) {
    SummaryOf(a) != "" && DedupKey(a) !in seen
  }

  /** One step of the loop: skip, or add the line and the key. */
  lemma CollectStep(items: seq<Json>, seen: set<Json>, numText: real -> string)
    requires items != []
    ensures !Adds(items[0], seen) ==> CollectItems(items, seen, numText) == CollectItems(items[1..], seen, numText)
    ensures Adds(items[0], seen) ==>
      var rest := CollectItems(items[1..], seen + {DedupKey(items[0])}, numText);
      CollectItems(items, seen, numText) == ([ContextLine(items[0], numText)] + rest.0, rest.1)
  {
  }

  /** Two attachment lists collected in a row share one `seen` set: a document in both is summarised once. */
  lemma CollectItemsAppend(a: seq<Json>, b: seq<Json>, seen: set<Json>, numText: real -> string)
    ensures CollectItems(a + b, seen, numText).0
      == CollectItems(a, seen, numText).0 + CollectItems(b, CollectItems(a, seen, numText).1, numText).0
    ensures CollectItems(a + b, seen, numText).1 == CollectItems(b, CollectItems(a, seen, numText).1, numText).1
  {
    CollectAppend(a, b, seen, HasSummary, DedupKey, (x: Json) => ContextLine(x, numText));
  }

  /** A document already seen contributes no second line. */
  lemma SeenTwiceCountedOnce(a: Json, numText: real -> string)
    requires SummaryOf(a) != ""
    ensures CollectItems([a, a], {}, numText).0 == [ContextLine(a, numText)]
  {
    RepeatCollectedOnce(a, HasSummary, DedupKey, (x: Json) => ContextLine(x, numText));
  }

  lemma RepeatCollectedOnce<T, K>(a: T, keep: T -> bool, key: T -> K, line: T -> string)
    requires keep(a)
    ensures Collect([a, a], {}, keep, key, line).0 == [line(a)]
  {
    assert [a, a][1..] == [a];
  }

  /** What one history record contributes: its attachments, if its response parses to an object with an array of them. */
  function RecordAttachments(response: Option<string>, parse: string -> Option<Json>): seq<Json> {
    var data := if response.None? || response.value == "" then Some(Null) else parse(response.value);
    match data
    case None => []
    case Some(d) =>
      if !Truthy(d) then []
      else
        match Field(d, "attachments")
        case Some(Arr(items)) => items
        case _ => []
  }

  /** `collectSummaryContextsFromHistory`, record by record with one `seen` set. */
  function HistoryLoop(responses: seq<Option<string>>, seen: set<Json>, parse: string -> Option<Json>, numText: real -> string): (r: (seq<string>, set<Json>))
    decreases |responses|
  {
    if responses == [] then ([], seen)
    else
      var (c, s) := CollectFromAttachments(Arr(RecordAttachments(responses[0], parse)), seen, numText);
      var rest := HistoryLoop(responses[1..], s, parse, numText);
      (c + rest.0, rest.1)
  }

  function FromHistory(responses: seq<Option<string>>, parse: string -> Option<Json>, numText: real -> string): seq<string> {
    HistoryLoop(responses, {}, parse, numText).0
  }

  /** All attachments of the history, record after record. */
  function AllAttachments(responses: seq<Option<string>>, parse: string -> Option<Json>): seq<Json> {
    if responses == [] then [] else RecordAttachments(responses[0], parse) + AllAttachments(responses[1..], parse)
  }

  /**
   * The history's contexts are those of one collection over all its
   * attachments: records that do not parse or have no attachment array add
   * nothing, and a document is summarised once across the whole history.
   */
  lemma {:induction false} HistoryIsOneCollection(responses: seq<Option<string>>, seen: set<Json>, parse: string -> Option<Json>, numText: real -> string)
    ensures HistoryLoop(responses, seen, parse, numText) == CollectItems(AllAttachments(responses, parse), seen, numText)
    decreases |responses|
  {
    if responses != [] {
      var first := RecordAttachments(responses[0], parse);
      HistoryIsOneCollection(responses[1..], CollectItems(first, seen, numText).1, parse, numText);
      CollectItemsAppend(first, AllAttachments(responses[1..], parse), seen, numText);
    }
  }

  // ------------------------------------------------------- answering from summaries

  predicate HasSummary(a: Json) {
    SummaryOf(a) != ""
  }

  /**
   * `shouldAnswerWithSummary`: some attachment has a summary, and the
   * trimmed prompt is a string of 1 to 200 characters that one of the
   * summary-request patterns (`matches`) accepts.
   */
  function ShouldAnswerWithSummary(prompt: Json, attachments: Json, matches: string -> bool): (r: bool)
    ensures r <==> (attachments.Arr? && (exists k :: 0 <= k < |attachments.items| && HasSummary(attachments.items[k]))
                    && prompt.Str? && 0 < |Trim(prompt.s)| <= 200 && matches(Trim(prompt.s)))
  {
    if !attachments.Arr? || attachments.items == [] then false
    else if !(exists k :: 0 <= k < |attachments.items| && HasSummary(attachments.items[k])) then false
    else if !prompt.Str? then false
    else
      var normalized := Trim(prompt.s);
      if |normalized| == 0 || |normalized| > 200 then false
      else matches(normalized)
  }

  /** The attachments that have a summary, in order (`filter`). */
  function Summarized(items: seq<Json>): (r: seq<Json>)
    ensures |r| <= |items|
    ensures forall x :: x in r ==> HasSummary(x) && x in items
    ensures r == [] <==> forall k :: 0 <= k < |items| ==> !HasSummary(items[k])
    ensures forall k :: 0 <= k < |items| && HasSummary(items[k]) ==> items[k] in r
  {
    if items == [] then []
    else
      var rest := Summarized(items[1..]);
      var r := if HasSummary(items[0]) then [items[0]] + rest else rest;
      KeptFromItems(items, rest, r);
      NoneKeptIffNone(items, rest, r);
      AllSummariesKept(items, rest, r);
      r
  }

  lemma KeptFromItems(items: seq<Json>, rest: seq<Json>, r: seq<Json>)
    requires items != []
    requires forall x :: x in rest ==> HasSummary(x) && x in items[1..]
    requires r == if HasSummary(items[0]) then [items[0]] + rest else rest
    ensures forall x :: x in r ==> HasSummary(x) && x in items
  {
    assert items == [items[0]] + items[1..];
  }

  lemma NoneKeptIffNone(items: seq<Json>, rest: seq<Json>, r: seq<Json>)
    requires items != []
    requires rest == [] <==> forall k :: 0 <= k < |items[1..]| ==> !HasSummary(items[1..][k])
    requires r == if HasSummary(items[0]) then [items[0]] + rest else rest
    ensures r == [] <==> forall k :: 0 <= k < |items| ==> !HasSummary(items[k])
  {
    assert forall k :: 1 <= k < |items| ==> items[k] == items[1..][k - 1];
  }

  lemma AllSummariesKept(items: seq<Json>, rest: seq<Json>, r: seq<Json>)
    requires items != []
    requires forall k :: 0 <= k < |items[1..]| && HasSummary(items[1..][k]) ==> items[1..][k] in rest
    requires r == if HasSummary(items[0]) then [items[0]] + rest else rest
    ensures forall k :: 0 <= k < |items| && HasSummary(items[k]) ==> items[k] in r
  {
    KeptCons(items, rest, r, HasSummary);
  }

  /** Keeping the head when it qualifies, and a list holding every qualifying later item, keeps every qualifying item. */
  lemma KeptCons<T>(items: seq<T>, rest: seq<T>, r: seq<T>, keep: T -> bool)
    requires items != []
    requires forall k :: 0 <= k < |items[1..]| && keep(items[1..][k]) ==> items[1..][k] in rest
    requires r == if keep(items[0]) then [items[0]] + rest else rest
    ensures forall k :: 0 <= k < |items| && keep(items[k]) ==> items[k] in r
  {
    forall k | 0 <= k < |items| && keep(items[k]) ensures items[k] in r {
      if k > 0 {
        assert items[k] == items[1..][k - 1];
      }
    }
  }

  /** One attachment is kept exactly when it has a summary. */
  lemma SummarizedSingle(x: Json)
    ensures Summarized([x]) == if HasSummary(x) then [x] else []
  {
  }

  /** The filter distributes over concatenation: the summarised attachments keep their input order. */
  lemma {:induction false} SummarizedAppend(a: seq<Json>, b: seq<Json>)
    ensures Summarized(a + b) == Summarized(a) + Summarized(b)
    decreases |a|
  {
    if a == [] {
      assert a + b == b;
    } else {
      assert a + b == [a[0]] + (a[1..] + b);
      SummarizedCons(a[0], a[1..] + b);
      SummarizedCons(a[0], a[1..]);
      assert [a[0]] + a[1..] == a;
      SummarizedAppend(a[1..], b);
      Regroup(Summarized(a + b), Summarized([a[0]]), Summarized(a[1..]), Summarized(b));
    }
  }

  lemma SummarizedCons(x: Json, rest: seq<Json>)
    ensures Summarized([x] + rest) == Summarized([x]) + Summarized(rest)
  {
    var xs := [x] + rest;
    assert xs[0] == x && xs[1..] == rest;
    assert Summarized(xs) == (if HasSummary(x) then [x] else []) + Summarized(rest);
    SummarizedSingle(x);
  }

  lemma Regroup<T>(whole: seq<T>, front: seq<T>, x: seq<T>, y: seq<T>)
    requires whole == front + (x + y)
    ensures whole == (front + x) + y
  {
  }

  const SummariesHeader: string := "Here are summaries of the uploaded documents:\n\n"

  /** `${n}. ${label}: ${summary}`, the `Document n` label standing in for a missing title. */
  function NumberedLine(a: Json, n: nat, numText: real -> string): string {
    NatToDecimal(n) + ". " + Label(a, "Document " + NatToDecimal(n), numText) + ": " + SummaryOf(a)
  }

  /** `items.map((a, index) => f(a, index + 1 + from))`, keeping the position of each item. */
  function MapNumbered<T>(items: seq<T>, from: nat, f: (T, nat) -> string): (r: seq<string>)
    ensures |r| == |items|
    ensures forall k :: 0 <= k < |items| ==> r[k] == f(items[k], from + k + 1)
    decreases |items|
  {
    if items == [] then []
    else
      var rest := MapNumbered(items[1..], from + 1, f);
      var r := [f(items[0], from + 1)] + rest;
      assert forall k :: 1 <= k < |items| ==> r[k] == rest[k - 1] && items[k] == items[1..][k - 1];
      r
  }

  function NumberedLines(items: seq<Json>, from: nat, numText: real -> string): (r: seq<string>)
    ensures |r| == |items|
    ensures forall k :: 0 <= k < |items| ==> r[k] == NumberedLine(items[k], from + k + 1, numText)
  {
    var f := (a: Json, n: nat) => NumberedLine(a, n, numText);
    var r := MapNumbered(items, from, f);
    assert forall k :: 0 <= k < |items| ==> r[k] == f(items[k], from + k + 1);
    r
  }

  /**
   * `buildSummaryReply`: `null` without summaries; one summary under its
   * label; several as a numbered list under a fixed header.
   */
  function BuildSummaryReply(attachments: Json, numText: real -> string): (r: Option<string>)
    ensures r.None? <==> !attachments.Arr? || forall k :: 0 <= k < |attachments.items| ==> !HasSummary(attachments.items[k])
    ensures r.Some? && |Summarized(attachments.items)| == 1 ==>
      var a := Summarized(attachments.items)[0];
      r.value == "Summary of " + Label(a, "the document", numText) + ":\n" + SummaryOf(a)
    ensures r.Some? && |Summarized(attachments.items)| > 1 ==>
      r.value == SummariesHeader + Join(NumberedLines(Summarized(attachments.items), 0, numText), "\n")
  {
    if !attachments.Arr? || attachments.items == [] then None
    else
      var s := Summarized(attachments.items);
      if s == [] then None
      else if |s| == 1 then Some("Summary of " + Label(s[0], "the document", numText) + ":\n" + SummaryOf(s[0]))
      else Some(SummariesHeader + Join(NumberedLines(s, 0, numText), "\n"))
  }

  /** Whenever the gate lets a prompt be answered from summaries, there is a reply to give. */
  lemma GateImpliesReply(prompt: Json, attachments: Json, matches: string -> bool, numText: real -> string)
    requires ShouldAnswerWithSummary(prompt, attachments, matches)
    ensures BuildSummaryReply(attachments, numText).Some?
  {
  }
}
