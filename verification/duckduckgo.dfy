/**
 * The HTML scraping of `_duckDuckGoEngine`
 * (server/utils/agents/aibitat/plugins/web-browsing.js): the page is cut at
 * every result marker, and each piece after the first yields at most one
 * hit whose title, link and snippet were all found and are non-empty.
 *
 * The three regular expressions are modelled by what they can match:
 *  - `<a[^>]*class="C"[^>]*>(.*?)<\/a>`: an `<a` whose tag (up to the first
 *    `>`) mentions `class="C"`, captured up to the first `</a>` when no line
 *    terminator comes before it; the leftmost such `<a` wins.
 *  - `<a[^>]*class="result__a"[^>]*href="([^"]*)">`: in the tag, the last
 *    `href="` after the first `class="result__a"` whose value is closed by
 *    `">` (greedy `[^>]*` backtracks from the right); leftmost `<a` wins.
 */
module DuckDuckGo {
  import opened Wrappers
  import opened Strings

  /** One scraped search result. */
  datatype Hit = Hit(title: string, link: string, snippet: string)

  /** All three fields were found and are non-empty. */
  predicate Complete(h: Hit) {
    h.title != "" && h.link != "" && h.snippet != ""
  }

  const ResultMarker: string := "<div class=\"result results_links"

  /** JavaScript's LineTerminator: what `.` does not match. */
  predicate IsLineTerminator(c: char) {
    c == '\n' || c == '\r' || c == '\U{2028}' || c == '\U{2029}'
  }

  predicate SingleLine(s: string) {
    forall k :: 0 <= k < |s| ==> !IsLineTerminator(s[k])
  }

  /** The attribute text `class="cls"` the anchor-text pattern looks for in the tag. */
  function ClassAttr(cls: string): string {
    "class=\"" + cls + "\""
  }

  /** The capture of the anchor-text pattern for an `<a` starting at `i`, if it matches there. */
  function AnchorTextAt(s: string, cls: string, i: nat): (r: Option<string>)
    ensures r.Some? ==> SingleLine(r.value) && !Contains(r.value, "</a>")
  {
    if !OccursAt(s, "<a", i) then None
    else
      match FindFrom(s, ">", i + 2)
      case None => None
      case Some(j) =>
        if !Contains(s[i + 2..j], ClassAttr(cls)) then None
        else
          match FindFrom(s, "</a>", j + 1)
          case None => None
          case Some(k) =>
            var g := s[j + 1..k];
            if SingleLine(g) then
              NoOccurrenceInSlice(s, "</a>", j + 1, k);
              Some(g)
            else None
  }

  /** The leftmost match at or after `i` of `<a[^>]*class="cls"[^>]*>(.*?)<\/a>`. */
  function AnchorTextFrom(s: string, cls: string, i: nat): (r: Option<string>)
    ensures r.Some? ==> SingleLine(r.value) && !Contains(r.value, "</a>")
    ensures r.None? <==> forall p: nat :: i <= p ==> AnchorTextAt(s, cls, p).None?
    ensures forall p: nat :: i <= p && AnchorTextAt(s, cls, p).Some? && (forall q: nat :: i <= q < p ==> AnchorTextAt(s, cls, q).None?)
              ==> r == AnchorTextAt(s, cls, p)
    decreases |s| - i
  {
    if i + 2 > |s| then None
    else
      match AnchorTextAt(s, cls, i)
      case Some(g) => Some(g)
      case None =>
        var r := AnchorTextFrom(s, cls, i + 1);
        FirstTextAfter(s, cls, i, r);
        r
  }

  /** With no match at `i`, the first match from `i + 1` is the first from `i`. */
  lemma FirstTextAfter(s: string, cls: string, i: nat, r: Option<string>)
    requires AnchorTextAt(s, cls, i).None?
    requires forall p: nat :: i + 1 <= p && AnchorTextAt(s, cls, p).Some? && (forall q: nat :: i + 1 <= q < p ==> AnchorTextAt(s, cls, q).None?)
               ==> r == AnchorTextAt(s, cls, p)
    ensures forall p: nat :: i <= p && AnchorTextAt(s, cls, p).Some? && (forall q: nat :: i <= q < p ==> AnchorTextAt(s, cls, q).None?)
              ==> r == AnchorTextAt(s, cls, p)
  {
    forall p: nat | i <= p && AnchorTextAt(s, cls, p).Some? && (forall q: nat :: i <= q < p ==> AnchorTextAt(s, cls, q).None?)
      ensures r == AnchorTextAt(s, cls, p)
    {
      assert i + 1 <= p;
      assert forall q: nat :: i + 1 <= q < p ==> AnchorTextAt(s, cls, q).None?;
    }
  }

  /** `href="…"` at `h` whose value is followed by `">`; the value. */
  function HrefAt(s: string, h: nat): (r: Option<string>)
    ensures r.Some? ==> '"' !in r.value
  {
    if !OccursAt(s, "href=\"", h) then None
    else
      match FindFrom(s, "\"", h + 6)
      case None => None
      case Some(q) =>
        if q + 1 < |s| && s[q + 1] == '>' then
          assert '"' !in s[h + 6..q] by {
            forall m | h + 6 <= m < q ensures s[m] != '"' {
              assert !OccursAt(s, "\"", m);
              assert s[m..m + 1] == [s[m]];
            }
          }
          Some(s[h + 6..q])
        else None
  }

  /** The successful `href="` with the largest start in `[lo, hi)`. */
  function LastHref(s: string, lo: nat, hi: nat): (r: Option<string>)
    ensures r.Some? ==> '"' !in r.value
    ensures r.None? <==> forall h: nat :: lo <= h < hi ==> HrefAt(s, h).None?
    ensures forall h: nat :: lo <= h < hi && HrefAt(s, h).Some? && (forall g: nat :: h < g < hi ==> HrefAt(s, g).None?)
              ==> r == HrefAt(s, h)
    decreases hi
  {
    if hi <= lo then None
    else
      match HrefAt(s, hi - 1)
      case Some(v) => Some(v)
      case None =>
        var r := LastHref(s, lo, hi - 1);
        LastOfShorter(s, lo, hi, r);
        r
  }

  /** With no match at `hi - 1`, the last match below `hi - 1` is the last below `hi`. */
  lemma LastOfShorter(s: string, lo: nat, hi: nat, r: Option<string>)
    requires lo < hi && HrefAt(s, hi - 1).None?
    requires forall h: nat :: lo <= h < hi - 1 && HrefAt(s, h).Some? && (forall g: nat :: h < g < hi - 1 ==> HrefAt(s, g).None?)
               ==> r == HrefAt(s, h)
    ensures forall h: nat :: lo <= h < hi && HrefAt(s, h).Some? && (forall g: nat :: h < g < hi ==> HrefAt(s, g).None?)
              ==> r == HrefAt(s, h)
  {
    forall h: nat | lo <= h < hi && HrefAt(s, h).Some? && (forall g: nat :: h < g < hi ==> HrefAt(s, g).None?)
      ensures r == HrefAt(s, h)
    {
      assert h < hi - 1;
      assert forall g: nat :: h < g < hi - 1 ==> HrefAt(s, g).None?;
    }
  }

  /** The capture of the link pattern for an `<a` starting at `i`, if it matches there. */
  function AnchorHrefAt(s: string, i: nat): (r: Option<string>)
    ensures r.Some? ==> '"' !in r.value
  {
    if !OccursAt(s, "<a", i) then None
    else
      var j := match FindFrom(s, ">", i + 2) case Some(j) => j case None => |s|;
      match FindFrom(s[..j], "class=\"result__a\"", i + 2)
      case None => None
      case Some(c) =>
        var e := c + 17;
        if j < e + 6 then None else LastHref(s, e, j - 5)
  }

  /** The leftmost match at or after `i` of the link pattern. */
  function AnchorHrefFrom(s: string, i: nat): (r: Option<string>)
    ensures r.Some? ==> '"' !in r.value
    ensures r.None? <==> forall p: nat :: i <= p ==> AnchorHrefAt(s, p).None?
    ensures forall p: nat :: i <= p && AnchorHrefAt(s, p).Some? && (forall q: nat :: i <= q < p ==> AnchorHrefAt(s, q).None?)
              ==> r == AnchorHrefAt(s, p)
    decreases |s| - i
  {
    if i + 2 > |s| then None
    else
      match AnchorHrefAt(s, i)
      case Some(v) => Some(v)
      case None =>
        var r := AnchorHrefFrom(s, i + 1);
        FirstHrefAfter(s, i, r);
        r
  }

  /** With no match at `i`, the first match from `i + 1` is the first from `i`. */
  lemma FirstHrefAfter(s: string, i: nat, r: Option<string>)
    requires AnchorHrefAt(s, i).None?
    requires forall p: nat :: i + 1 <= p && AnchorHrefAt(s, p).Some? && (forall q: nat :: i + 1 <= q < p ==> AnchorHrefAt(s, q).None?)
               ==> r == AnchorHrefAt(s, p)
    ensures forall p: nat :: i <= p && AnchorHrefAt(s, p).Some? && (forall q: nat :: i <= q < p ==> AnchorHrefAt(s, q).None?)
              ==> r == AnchorHrefAt(s, p)
  {
    forall p: nat | i <= p && AnchorHrefAt(s, p).Some? && (forall q: nat :: i <= q < p ==> AnchorHrefAt(s, q).None?)
      ensures r == AnchorHrefAt(s, p)
    {
      assert i + 1 <= p;
      assert forall q: nat :: i + 1 <= q < p ==> AnchorHrefAt(s, q).None?;
    }
  }

  /** `.replace(/<\/?b>/g, "")`: every `<b>` and `</b>`, scanned left to right, removed. */
  function StripBold(s: string): (r: string)
    ensures |r| <= |s|
    ensures forall c :: c in r ==> c in s
    ensures '<' !in s ==> r == s
    decreases |s|
  {
    if s == [] then []
    else if s[0] == '<' && OccursAt(s, "<b>", 0) then StripBold(s[3..])
    else if s[0] == '<' && OccursAt(s, "</b>", 0) then StripBold(s[4..])
    else [s[0]] + StripBold(s[1..])
  }

  /** Text without `<` passes through, and what follows it is stripped on its own. */
  lemma {:induction false} StripBoldPlainPrefix(a: string, rest: string)
    requires '<' !in a
    ensures StripBold(a + rest) == a + StripBold(rest)
    decreases |a|
  {
    if a == [] {
      assert a + rest == rest;
    } else {
      var s := a + rest;
      var tail := StripBold(rest);
      assert s[0] == a[0] && a[0] != '<';
      assert StripBold(s) == [a[0]] + StripBold(s[1..]);
      assert s[1..] == a[1..] + rest;
      StripBoldPlainPrefix(a[1..], rest);
      Regroup([a[0]] + a[1..] + tail, [a[0]], a[1..], tail);
      assert [a[0]] + a[1..] == a;
    }
  }

  /** A `<b>` or `</b>` at the front is dropped. */
  lemma StripBoldTag(tag: string, rest: string)
    requires tag == "<b>" || tag == "</b>"
    ensures StripBold(tag + rest) == StripBold(rest)
  {
    if tag == "<b>" {
      StripBoldOpen(rest);
    } else {
      StripBoldClose(rest);
    }
  }

  /** A `<` that starts neither `<b>` nor `</b>` is kept. */
  lemma OtherTagKept(s: string)
    requires s != [] && s[0] == '<' && !OccursAt(s, "<b>", 0) && !OccursAt(s, "</b>", 0)
    ensures StripBold(s) == "<" + StripBold(s[1..])
  {
  }

  lemma StripBoldOpen(rest: string)
    ensures StripBold("<b>" + rest) == StripBold(rest)
  {
    var s := "<b>" + rest;
    assert s[3..] == rest && s[..3] == "<b>";
  }

  lemma StripBoldClose(rest: string)
    ensures StripBold("</b>" + rest) == StripBold(rest)
  {
    var s := "</b>" + rest;
    assert s[0] == '<' && s[1] == '/';
    assert !OccursAt(s, "<b>", 0) by {
      assert |s| >= 3 && s[0..3][1] == s[1];
    }
    assert OccursAt(s, "</b>", 0) by {
      assert s[0..4] == "</b>";
    }
    assert s[4..] == rest;
  }

  /** Nesting a five-part concatenation to the right. */
  lemma RightNest(a: string, b: string, c: string, d: string, e: string)
    ensures a + b + c + d + e == a + (b + (c + (d + e)))
  {
  }

  /** The highlighting around a word is removed: `a<b>w</b>c` becomes `awc`. */
  lemma BoldRemoved(a: string, w: string, c: string)
    requires '<' !in a && '<' !in w && '<' !in c
    ensures StripBold(a + "<b>" + w + "</b>" + c) == a + w + c
  {
    RightNest(a, "<b>", w, "</b>", c);
    StripBoldPlainPrefix(a, "<b>" + (w + ("</b>" + c)));
    StripBoldTag("<b>", w + ("</b>" + c));
    StripBoldPlainPrefix(w, "</b>" + c);
    StripBoldTag("</b>", c);
  }

  /** What one piece of the page yields: the three extracted fields, `""` when not found. */
  function TitleOf(chunk: string): string {
    match AnchorTextFrom(chunk, "result__a", 0)
    case Some(g) => Trim(g)
    case None => ""
  }

  function LinkOf(chunk: string): string {
    AnchorHrefFrom(chunk, 0).GetOr("")
  }

  function SnippetOf(chunk: string): string {
    match AnchorTextFrom(chunk, "result__snippet", 0)
    case Some(g) => Trim(StripBold(g))
    case None => ""
  }

  /** A piece becomes a hit exactly when all three fields are non-empty. */
  function ChunkHit(chunk: string): (r: Option<Hit>)
    ensures r.Some? <==> TitleOf(chunk) != "" && LinkOf(chunk) != "" && SnippetOf(chunk) != ""
    ensures r.Some? ==> r.value == Hit(TitleOf(chunk), LinkOf(chunk), SnippetOf(chunk))
    ensures r.Some? ==> Complete(r.value)
  {
    var title := TitleOf(chunk);
    var link := LinkOf(chunk);
    var snippet := SnippetOf(chunk);
    if title != "" && link != "" && snippet != "" then Some(Hit(title, link, snippet)) else None
  }

  /** The hits of the pieces, in page order. */
  function HitsOf(chunks: seq<string>): (hits: seq<Hit>)
    ensures |hits| <= |chunks|
    ensures forall h :: h in hits ==> Complete(h)
  {
    if chunks == [] then []
    else
      var h := ChunkHit(chunks[0]);
      if h.Some? then [h.value] + HitsOf(chunks[1..]) else HitsOf(chunks[1..])
  }

  // ------------------------------------------------ the patterns on known text

  /** No `</a>` starts inside `text` when `</a>` follows it: the lazy capture stops at that closing tag. */
  predicate ClosesAtEnd(text: string) {
    forall p :: 0 <= p < |text| ==> !OccursAt(text + "</a>", "</a>", p)
  }

  lemma NoAngleClosesAtEnd(text: string)
    requires '<' !in text
    ensures ClosesAtEnd(text)
  {
    forall p | 0 <= p < |text| ensures !OccursAt(text + "</a>", "</a>", p) {
      assert (text + "</a>")[p] == text[p];
    }
  }

  /** A slice of an occurrence is the same slice of the pattern. */
  lemma Within(s: string, u: string, i: nat, a: nat, b: nat)
    requires OccursAt(s, u, i) && a <= b <= |u|
    ensures s[i + a..i + b] == u[a..b]
  {
    var w := s[i..i + |u|];
    assert w == u;
    assert |w[a..b]| == |s[i + a..i + b]|;
    forall k | 0 <= k < b - a ensures w[a..b][k] == s[i + a..i + b][k] {
      assert w[a..b][k] == w[a + k] == s[i + a + k];
    }
    assert w[a..b] == s[i + a..i + b];
  }

  /** An `<a` tag whose body has no `>` ends at the first `>` after it. */
  lemma TagEnd(s: string, i: nat, attrs: string)
    requires OccursAt(s, "<a" + attrs + ">", i) && '>' !in attrs
    ensures OccursAt(s, "<a", i)
    ensures FindFrom(s, ">", i + 2) == Some(i + 2 + |attrs|)
    ensures s[i + 2..i + 2 + |attrs|] == attrs
  {
    var u := "<a" + attrs + ">";
    var j := i + 2 + |attrs|;
    Within(s, u, i, 0, 2);
    Within(s, u, i, 2, 2 + |attrs|);
    Within(s, u, i, 2 + |attrs|, 3 + |attrs|);
    assert u[0..2] == "<a";
    assert u[2..2 + |attrs|] == attrs;
    assert u[2 + |attrs|..3 + |attrs|] == ">";
    forall m | i + 2 <= m < j ensures !OccursAt(s, ">", m) {
      assert s[m..m + 1] == [s[m]] && s[m] == attrs[m - i - 2];
    }
    FirstOccurrence(s, ">", i + 2, j);
  }

  /** Text followed by `</a>` at `m`, with no earlier `</a>` inside it: the lazy capture stops there. */
  lemma CloseAt(s: string, m: nat, text: string)
    requires OccursAt(s, text + "</a>", m) && ClosesAtEnd(text)
    ensures FindFrom(s, "</a>", m) == Some(m + |text|)
    ensures s[m..m + |text|] == text
  {
    var v := text + "</a>";
    var k := m + |text|;
    Within(s, v, m, 0, |text|);
    Within(s, v, m, |text|, |v|);
    assert v[..|text|] == text && v[|text|..] == "</a>";
    forall p | m <= p < k ensures !OccursAt(s, "</a>", p) {
      Within(s, v, m, p - m, p - m + 4);
      assert !OccursAt(v, "</a>", p - m);
    }
    FirstOccurrence(s, "</a>", m, k);
  }

  /** The anchor-text pattern at `i` on `<a`, a tag body naming the class, `>`, the text and `</a>` captures the text. */
  lemma AnchorTextAtShape(s: string, cls: string, i: nat, attrs: string, text: string)
    requires OccursAt(s, "<a" + attrs + ">" + text + "</a>", i)
    requires '>' !in attrs && Contains(attrs, ClassAttr(cls))
    requires SingleLine(text) && ClosesAtEnd(text)
    ensures AnchorTextAt(s, cls, i) == Some(text)
  {
    var open := "<a" + attrs + ">";
    assert "<a" + attrs + ">" + text + "</a>" == open + (text + "</a>");
    OccursSplit(s, open, text + "</a>", i);
    AnchorTextAtParts(s, cls, i, attrs, text);
  }

  /** The same, with the opening tag and the closed text given as two adjacent occurrences. */
  lemma AnchorTextAtParts(s: string, cls: string, i: nat, attrs: string, text: string)
    requires OccursAt(s, "<a" + attrs + ">", i) && OccursAt(s, text + "</a>", i + 3 + |attrs|)
    requires '>' !in attrs && Contains(attrs, ClassAttr(cls))
    requires SingleLine(text) && ClosesAtEnd(text)
    ensures AnchorTextAt(s, cls, i) == Some(text)
  {
    var j := i + 2 + |attrs|;
    var k := j + 1 + |text|;
    assert OccursAt(s, "<a", i) && FindFrom(s, ">", i + 2) == Some(j) && s[i + 2..j] == attrs by {
      TagEnd(s, i, attrs);
    }
    assert FindFrom(s, "</a>", j + 1) == Some(k) && s[j + 1..k] == text by {
      CloseAt(s, j + 1, text);
    }
    AnchorTextAtFound(s, cls, i, j, k);
  }

  /** The anchor-text pattern matches at `i` once its tag end, class and closing tag are found. */
  lemma AnchorTextAtFound(s: string, cls: string, i: nat, j: nat, k: nat)
    requires OccursAt(s, "<a", i) && FindFrom(s, ">", i + 2) == Some(j)
    requires Contains(s[i + 2..j], ClassAttr(cls))
    requires FindFrom(s, "</a>", j + 1) == Some(k) && SingleLine(s[j + 1..k])
    ensures AnchorTextAt(s, cls, i) == Some(s[j + 1..k])
  {
    var g := s[j + 1..k];
    assert AnchorTextAt(s, cls, i) == (if SingleLine(g) then Some(g) else None);
  }

  /** An occurrence of `a + b` is an occurrence of `a` followed by one of `b`. */
  lemma OccursSplit(s: string, a: string, b: string, i: nat)
    requires OccursAt(s, a + b, i)
    ensures OccursAt(s, a, i) && OccursAt(s, b, i + |a|)
  {
    Within(s, a + b, i, 0, |a|);
    Within(s, a + b, i, |a|, |a| + |b|);
    assert (a + b)[..|a|] == a && (a + b)[|a|..] == b;
  }

  /** `href="link">` at `h`, with no quote in the link, gives the link. */
  lemma HrefAtShape(s: string, h: nat, link: string)
    requires OccursAt(s, "href=\"" + link + "\">", h) && '"' !in link
    ensures HrefAt(s, h) == Some(link)
  {
    var u := "href=\"" + link + "\">";
    var q := h + 6 + |link|;
    Within(s, u, h, 0, 6);
    Within(s, u, h, 6, 6 + |link|);
    Within(s, u, h, 6 + |link|, |u|);
    assert u[0..6] == "href=\"" && u[6..6 + |link|] == link && u[6 + |link|..] == "\">";
    forall m | h + 6 <= m < q ensures !OccursAt(s, "\"", m) {
      assert s[m..m + 1] == [s[m]] && s[m] == link[m - h - 6];
    }
    assert s[q..q + 2] == "\">";
    assert s[q..q + 1] == s[q..q + 2][..1];
    FirstOccurrence(s, "\"", h + 6, q);
  }

  const TitleOpen: string := "<a class=\"result__a\" href=\""
  const SnippetOpen: string := "<a class=\"result__snippet\">"

  /** A result piece as the page lays it out: the title anchor carrying the link, then the snippet anchor. */
  function Render(title: string, link: string, snippet: string): string {
    TitleOpen + link + "\">" + title + "</a>" + SnippetOpen + snippet + "</a>"
  }

  /** A link the link pattern reads back whole: no quote or angle bracket, and not ending in `href=`. */
  predicate PlainLink(link: string) {
    link != [] && '"' !in link && '<' !in link && '>' !in link
    && !(|link| >= 5 && link[|link| - 5..] == "href=")
  }

  /** The title anchor's tag body, between `<a` and `>`. */
  function TitleAttrs(link: string): string {
    " class=\"result__a\" href=\"" + link + "\""
  }

  /** The title tag body names the title class right after its leading blank, and holds no `>`. */
  lemma TitleAttrsClass(link: string)
    requires '>' !in link
    ensures OccursAt(TitleAttrs(link), "class=\"result__a\"", 1)
    ensures Contains(TitleAttrs(link), "class=\"result__a\"")
    ensures Contains(TitleAttrs(link), ClassAttr("result__a"))
    ensures '>' !in TitleAttrs(link)
  {
    var tail := " href=\"" + link + "\"";
    TitleAttrsSplit(link);
    OccursInJoin(" ", "class=\"result__a\"", tail);
    TitleClassAttr();
    assert '>' !in " " && '>' !in "class=\"result__a\"" && '>' !in " href=\"" && '>' !in "\"";
  }

  /** The title tag body is a blank, the class attribute, and the href attribute. */
  lemma TitleAttrsSplit(link: string)
    ensures TitleAttrs(link) == " " + "class=\"result__a\"" + (" href=\"" + link + "\"")
  {
    var a, b, c := " ", "class=\"result__a\"", " href=\"";
    assert " class=\"result__a\" href=\"" == a + b + c;
    Regroup3(a + b, c, link, "\"");
  }

  /** Moving the brackets of a four-part concatenation. */
  lemma Regroup3(a: string, b: string, c: string, d: string)
    ensures a + b + c + d == a + (b + c + d)
  {
  }

  lemma TitleClassAttr()
    ensures ClassAttr("result__a") == "class=\"result__a\""
  {
  }

  lemma SnippetClassAttr()
    ensures ClassAttr("result__snippet") == "class=\"result__snippet\""
  {
  }

  /** A rendered piece yields its trimmed title, its link, and its snippet without bold tags, trimmed. */
  lemma RenderedChunkHit(title: string, link: string, snippet: string)
    requires '<' !in title && SingleLine(title) && Trim(title) != ""
    requires PlainLink(link)
    requires SingleLine(snippet) && ClosesAtEnd(snippet) && Trim(StripBold(snippet)) != ""
    ensures ChunkHit(Render(title, link, snippet)) == Some(Hit(Trim(title), link, Trim(StripBold(snippet))))
  {
    RenderedTitle(title, link, snippet);
    RenderedLink(title, link, snippet);
    RenderedSnippet(title, link, snippet);
  }

  /** A rendered piece starts with the whole title anchor. */
  lemma TitleAnchorAtStart(title: string, link: string, snippet: string)
    ensures OccursAt(Render(title, link, snippet), "<a" + TitleAttrs(link) + ">" + title + "</a>", 0)
  {
    var u := "<a" + TitleAttrs(link) + ">" + title + "</a>";
    TitleOpenTag(link);
    assert Render(title, link, snippet) == u + SnippetOpen + snippet + "</a>";
    OccursAtFront(u, SnippetOpen, snippet, "</a>");
  }

  /** `<a`, the title tag body and `>` spell the fixed opening markup, the link and its closing `">`. */
  lemma TitleOpenTag(link: string)
    ensures "<a" + TitleAttrs(link) + ">" == TitleOpen + link + "\">"
  {
    var x := " class=\"result__a\" href=\"";
    assert "<a" + x == TitleOpen;
    assert "\"" + ">" == "\">";
    Regroup5("<a", x, link, "\"", ">");
  }

  /** Moving the brackets of a five-part concatenation. */
  lemma Regroup5(a: string, b: string, c: string, d: string, e: string)
    ensures a + (b + c + d) + e == (a + b) + c + (d + e)
  {
  }

  /** A string occurs at the front of any extension of it. */
  lemma OccursAtFront(u: string, a: string, b: string, c: string)
    ensures OccursAt(u + a + b + c, u, 0)
  {
    assert (u + a + b + c)[..|u|] == u;
  }

  lemma RenderedTitle(title: string, link: string, snippet: string)
    requires '<' !in title && SingleLine(title) && PlainLink(link)
    ensures AnchorTextFrom(Render(title, link, snippet), "result__a", 0) == Some(title)
  {
    var r := Render(title, link, snippet);
    var attrs := TitleAttrs(link);
    TitleAnchorAtStart(title, link, snippet);
    TitleAttrsClass(link);
    NoAngleClosesAtEnd(title);
    AnchorTextAtShape(r, "result__a", 0, attrs, title);
  }

  lemma RenderedLink(title: string, link: string, snippet: string)
    requires PlainLink(link)
    ensures AnchorHrefFrom(Render(title, link, snippet), 0) == Some(link)
  {
    var r := Render(title, link, snippet);
    var j := 28 + |link|;
    TitleTagEnd(title, link, snippet);
    TitleClassFound(title, link, snippet);
    TitleHref(title, link, snippet);
    forall g: nat | 21 < g < j - 5 ensures HrefAt(r, g).None? {
      OnlyOneHref(title, link, snippet, g);
    }
    assert LastHref(r, 20, j - 5) == Some(link);
    assert AnchorHrefAt(r, 0) == Some(link);
  }

  /** The title anchor's tag ends right after the link's closing quote. */
  lemma TitleTagEnd(title: string, link: string, snippet: string)
    requires '>' !in link
    ensures OccursAt(Render(title, link, snippet), "<a", 0)
    ensures FindFrom(Render(title, link, snippet), ">", 2) == Some(28 + |link|)
    ensures Render(title, link, snippet)[2..28 + |link|] == TitleAttrs(link)
  {
    var r := Render(title, link, snippet);
    var attrs := TitleAttrs(link);
    var open := "<a" + attrs + ">";
    assert OccursAt(r, open, 0) by {
      TitleAnchorAtStart(title, link, snippet);
      assert "<a" + attrs + ">" + title + "</a>" == open + (title + "</a>");
      OccursSplit(r, open, title + "</a>", 0);
    }
    assert '>' !in attrs by {
      TitleAttrsClass(link);
    }
    assert |attrs| == 26 + |link|;
    TagEnd(r, 0, attrs);
  }

  /** Within the title tag the class is first found at index 3. */
  lemma TitleClassFound(title: string, link: string, snippet: string)
    requires '>' !in link
    ensures FindFrom(Render(title, link, snippet)[..28 + |link|], "class=\"result__a\"", 2) == Some(3)
  {
    var r := Render(title, link, snippet);
    var j := 28 + |link|;
    var attrs := TitleAttrs(link);
    var pat := "class=\"result__a\"";
    var t := r[..j];
    assert OccursAt(t, attrs, 2) by {
      TitleTagEnd(title, link, snippet);
      assert t[2..j] == r[2..j];
    }
    assert OccursAt(attrs, pat, 1) && attrs[0] == ' ' by {
      TitleAttrsClass(link);
    }
    assert pat[0] == 'c';
    FoundAfterBlank(t, attrs, pat, 2);
  }

  /** A pattern right after the leading blank of a tag body at `i` is first found at `i + 1`. */
  lemma FoundAfterBlank(t: string, attrs: string, pat: string, i: nat)
    requires OccursAt(t, attrs, i) && OccursAt(attrs, pat, 1)
    requires attrs[0] == ' ' && pat != [] && pat[0] != ' '
    ensures FindFrom(t, pat, i) == Some(i + 1)
  {
    Within(t, attrs, i, 1, 1 + |pat|);
    Within(attrs, pat, 1, 0, |pat|);
    Within(t, attrs, i, 0, 1);
    assert t[i] == attrs[0];
    assert t[i..i + |pat|][0] == t[i];
    FirstOccurrence(t, pat, i, i + 1);
  }

  /** The title tag's `href="` at index 21 gives the link. */
  lemma TitleHref(title: string, link: string, snippet: string)
    requires '"' !in link
    ensures HrefAt(Render(title, link, snippet), 21) == Some(link)
  {
    var u := "href=\"" + link + "\">";
    var rest := title + "</a>" + SnippetOpen + snippet + "</a>";
    assert Render(title, link, snippet) == "<a class=\"result__a\" " + u + rest;
    OccursInJoin("<a class=\"result__a\" ", u, rest);
    HrefAtShape(Render(title, link, snippet), 21, link);
  }

  /** Between the class and the tag's end, `href="` starts only at index 21. */
  lemma OnlyOneHref(title: string, link: string, snippet: string, g: nat)
    requires PlainLink(link) && 21 < g < 23 + |link|
    ensures !OccursAt(Render(title, link, snippet), "href=\"", g)
  {
    var r := Render(title, link, snippet);
    var u := TitleOpen + link + "\">" + title + "</a>";
    assert OccursAt(r, TitleOpen + link, 0) && OccursAt(r, "\">" + title + "</a>", 27 + |link|) by {
      OccursAtFront(u, SnippetOpen, snippet, "</a>");
      Regroup3(TitleOpen + link, "\">", title, "</a>");
      OccursSplit(r, TitleOpen + link, "\">" + title + "</a>", 0);
    }
    assert r[27 + |link|] == '"' by {
      Within(r, "\">" + title + "</a>", 27 + |link|, 0, 1);
    }
    NoHrefInLink(r, link, g);
  }

  /** After the title anchor's own `href="`, no other `href="` starts before the link's closing quote. */
  lemma NoHrefInLink(s: string, link: string, g: nat)
    requires OccursAt(s, TitleOpen + link, 0) && 27 + |link| < |s| && s[27 + |link|] == '"'
    requires PlainLink(link) && 21 < g < 23 + |link|
    ensures !OccursAt(s, "href=\"", g)
  {
    Within(s, TitleOpen + link, 0, 0, 27);
    Within(s, TitleOpen + link, 0, 27, 27 + |link|);
    assert s[..27] == TitleOpen && s[27..27 + |link|] == link;
    if g <= 26 {
      assert s[g] == TitleOpen[g];
    } else if g + 5 < 27 + |link| {
      assert s[g + 5] == link[g + 5 - 27];
    } else {
      assert g == 22 + |link| && |link| >= 5;
      assert s[g..g + 5] == s[27..27 + |link|][|link| - 5..] == link[|link| - 5..];
      assert s[g..g + 6][..5] == s[g..g + 5];
    }
  }

  /** The title tag body holds no snippet class: the only `c` before the link is followed by `lass="result__a"`. */
  lemma TitleTagLacksSnippetClass(link: string)
    requires '"' !in link
    ensures !Contains(TitleAttrs(link), "class=\"result__snippet\"")
  {
    var t := TitleAttrs(link);
    var pat := "class=\"result__snippet\"";
    var lead := " class=\"result__a\" href=\"";
    assert t[..25] == lead && t[25..25 + |link|] == link;
    assert pat[0] == 'c' && pat[6] == '"' && pat[22] == '"';
    forall q: nat | q + |pat| <= |t| ensures !OccursAt(t, pat, q) {
      if q <= 2 {
        assert t[q + 6] == lead[q + 6] && t[q + 22] == lead[q + 22];
        assert t[q..q + |pat|][6] == t[q + 6] && t[q..q + |pat|][22] == t[q + 22];
      } else if q <= 24 {
        assert t[q] == lead[q] && t[q..q + |pat|][0] == t[q];
      } else {
        assert t[q + 6] == link[q + 6 - 25];
        assert t[q..q + |pat|][6] == t[q + 6];
      }
    }
  }

  lemma RenderedSnippet(title: string, link: string, snippet: string)
    requires '<' !in title && PlainLink(link)
    requires SingleLine(snippet) && ClosesAtEnd(snippet)
    ensures AnchorTextFrom(Render(title, link, snippet), "result__snippet", 0) == Some(snippet)
  {
    var r := Render(title, link, snippet);
    var cls := "result__snippet";
    var p := 33 + |link| + |title|;
    assert OccursAt(r, "<a" + SnippetAttrs + ">" + snippet + "</a>", p) by {
      SnippetAnchorShape(title, link, snippet);
    }
    assert AnchorTextAt(r, cls, p) == Some(snippet) by {
      SnippetAnchorText(r, p, snippet);
    }
    assert forall q: nat :: q < p ==> AnchorTextAt(r, cls, q).None? by {
      forall q: nat | q < p ensures AnchorTextAt(r, cls, q).None? {
        if q == 0 {
          TitleAnchorNotSnippet(title, link, snippet);
        } else {
          NoAnchorBefore(title, link, snippet, q);
        }
      }
    }
    LeftmostAnchorText(r, cls, p, snippet);
  }

  /** The title anchor does not match the snippet pattern. */
  lemma TitleAnchorNotSnippet(title: string, link: string, snippet: string)
    requires PlainLink(link)
    ensures AnchorTextAt(Render(title, link, snippet), "result__snippet", 0).None?
  {
    var cls := "result__snippet";
    TitleTagEnd(title, link, snippet);
    TitleTagLacksSnippetClass(link);
    SnippetClassAttr();
  }

  /** A match at `p` with none before it is what the leftmost search from 0 finds. */
  lemma LeftmostAnchorText(s: string, cls: string, p: nat, v: string)
    requires AnchorTextAt(s, cls, p) == Some(v)
    requires forall q: nat :: q < p ==> AnchorTextAt(s, cls, q).None?
    ensures AnchorTextFrom(s, cls, 0) == Some(v)
  {
  }

  /** The snippet anchor's tag body, between `<a` and `>`. */
  const SnippetAttrs: string := " class=\"result__snippet\""

  /** The snippet anchor's tag body names the snippet class and holds no `>`. */
  lemma SnippetAttrsClass()
    ensures Contains(SnippetAttrs, ClassAttr("result__snippet")) && '>' !in SnippetAttrs
  {
    var pat := "class=\"result__snippet\"";
    assert SnippetAttrs == " " + pat + [];
    OccursInJoin(" ", pat, []);
    OccursInPrefix(SnippetAttrs, pat, |SnippetAttrs|);
    assert SnippetAttrs[..|SnippetAttrs|] == SnippetAttrs;
    SnippetClassAttr();
    SnippetAttrsNoClose();
  }

  /** No `>` in the snippet anchor's tag body, checked piece by piece. */
  lemma SnippetAttrsNoClose()
    ensures '>' !in SnippetAttrs
  {
    var a, b, c := " class=\"", "result__snippet", "\"";
    assert SnippetAttrs == a + b + c;
    assert '>' !in a && '>' !in b && '>' !in c;
  }

  /** A snippet anchor at `p` captures its text. */
  lemma SnippetAnchorText(s: string, p: nat, snippet: string)
    requires OccursAt(s, "<a" + SnippetAttrs + ">" + snippet + "</a>", p)
    requires SingleLine(snippet) && ClosesAtEnd(snippet)
    ensures AnchorTextAt(s, "result__snippet", p) == Some(snippet)
  {
    SnippetAttrsClass();
    AnchorTextAtShape(s, "result__snippet", p, SnippetAttrs, snippet);
  }

  /** The snippet anchor follows the 33 characters of fixed markup around the link and the title. */
  lemma SnippetAnchorShape(title: string, link: string, snippet: string)
    ensures OccursAt(Render(title, link, snippet), "<a" + SnippetAttrs + ">" + snippet + "</a>", 33 + |link| + |title|)
  {
    var front := TitleOpen + link + "\">" + title + "</a>";
    assert "<a" + SnippetAttrs + ">" == SnippetOpen;
    assert |front| == 33 + |link| + |title|;
    OccursAtBack(front, SnippetOpen, snippet, "</a>");
  }

  /** A three-part string occurs right after whatever precedes it. */
  lemma OccursAtBack(f: string, a: string, b: string, c: string)
    ensures OccursAt(f + a + b + c, a + b + c, |f|)
  {
    assert f + a + b + c == f + (a + b + c);
    assert (f + (a + b + c))[|f|..] == a + b + c;
  }

  /** Inside the title anchor no other `<a` starts. */
  lemma NoAnchorBefore(title: string, link: string, snippet: string, q: nat)
    requires '<' !in title && PlainLink(link)
    requires 0 < q < 33 + |link| + |title|
    ensures !OccursAt(Render(title, link, snippet), "<a", q)
  {
    var r := Render(title, link, snippet);
    var front := TitleOpen + link + "\">" + title;
    assert OccursAt(r, front, 0) && OccursAt(r, "</a>", |front|) by {
      OccursAtFront(front + "</a>", SnippetOpen, snippet, "</a>");
      OccursSplit(r, front, "</a>", 0);
    }
    if q < |front| {
      TitleFrontNoOpen(title, link);
      NoOpenAfterStart(r, front, q);
    } else {
      NoOpenInClose(r, |front|, q);
    }
  }

  /** Past its first character, the title anchor up to its closing tag holds no `<`. */
  lemma TitleFrontNoOpen(title: string, link: string)
    requires '<' !in title && '<' !in link
    ensures '<' !in (TitleOpen + link + "\">" + title)[1..]
  {
    var front := TitleOpen + link + "\">" + title;
    var tail := "a class=\"result__a\" href=\"";
    assert TitleOpen == "<" + tail;
    assert front[1..] == tail + link + "\">" + title;
    assert '<' !in tail && '<' !in "\">";
  }

  /** No `<a` starts after the first character of a `<`-free stretch. */
  lemma NoOpenAfterStart(s: string, front: string, q: nat)
    requires 0 < q < |front| && OccursAt(s, front, 0) && '<' !in front[1..]
    ensures !OccursAt(s, "<a", q)
  {
    assert s[q] == front[q] == front[1..][q - 1];
    if q + 2 <= |s| {
      assert s[q..q + 2][0] == s[q];
    }
  }

  /** No `<a` starts inside a closing `</a>`. */
  lemma NoOpenInClose(s: string, c: nat, q: nat)
    requires OccursAt(s, "</a>", c) && c <= q < c + 4
    ensures !OccursAt(s, "<a", q)
  {
    var close := "</a>";
    assert s[c..c + 4] == close;
    if q + 2 <= |s| {
      assert s[q..q + 2][0] == s[q] && s[q..q + 2][1] == s[q + 1];
      assert s[q] == close[q - c];
      if q == c {
        assert s[q + 1] == close[1];
      }
    }
  }

  /** The loop over `html.split(marker)` from index 1: the text before the first marker is never a result. */
  function ParseResults(html: string): (hits: seq<Hit>)
    ensures |hits| <= |Split(html, ResultMarker)| - 1
  {
    HitsOf(Split(html, ResultMarker)[1..])
  }

  /** One piece yields its hit, if it has one. */
  lemma HitsOfOne(chunk: string)
    ensures HitsOf([chunk]) == if ChunkHit(chunk).Some? then [ChunkHit(chunk).value] else []
  {
  }

  /** The hits of consecutive pieces are the hits of the first ones followed by those of the rest. */
  lemma {:induction false} HitsOfAppend(a: seq<string>, b: seq<string>)
    ensures HitsOf(a + b) == HitsOf(a) + HitsOf(b)
    decreases |a|
  {
    if a == [] {
      assert a + b == b;
    } else {
      assert a + b == [a[0]] + (a[1..] + b);
      HitsOfCons(a[0], a[1..] + b);
      HitsOfCons(a[0], a[1..]);
      assert [a[0]] + a[1..] == a;
      HitsOfAppend(a[1..], b);
      Regroup(HitsOf(a + b), HitsOf([a[0]]), HitsOf(a[1..]), HitsOf(b));
    }
  }

  lemma HitsOfCons(chunk: string, rest: seq<string>)
    ensures HitsOf([chunk] + rest) == HitsOf([chunk]) + HitsOf(rest)
  {
    var whole := [chunk] + rest;
    assert whole[0] == chunk && whole[1..] == rest;
    assert [chunk][0] == chunk && [chunk][1..] == [];
    var front := if ChunkHit(chunk).Some? then [ChunkHit(chunk).value] else [];
    assert HitsOf([chunk]) == front + HitsOf([]) == front;
    assert HitsOf(whole) == front + HitsOf(rest);
  }

  lemma Regroup<T>(whole: seq<T>, front: seq<T>, x: seq<T>, y: seq<T>)
    requires whole == front + (x + y)
    ensures whole == (front + x) + y
  {
  }

  /** The marker's `<` occurs only at its start, so it cannot straddle a piece and the marker after it. */
  lemma MarkerStartsOnce()
    ensures |ResultMarker| > 0 && ResultMarker[0] !in ResultMarker[1..]
  {
    assert forall k :: 1 <= k < |ResultMarker| ==> ResultMarker[k] != '<';
  }

  /** A page of a leading part and result pieces, none holding the marker, yields the pieces' hits in order. */
  lemma PageHits(pre: string, chunks: seq<string>)
    requires !Contains(pre, ResultMarker)
    requires forall k :: 0 <= k < |chunks| ==> !Contains(chunks[k], ResultMarker)
    ensures ParseResults(Join([pre] + chunks, ResultMarker)) == HitsOf(chunks)
  {
    var parts := [pre] + chunks;
    MarkerStartsOnce();
    PartsLackMarker(pre, chunks);
    SplitJoinSeparator(parts, ResultMarker);
    TailOfCons(pre, chunks);
  }

  lemma TailOfCons<T>(x: T, xs: seq<T>)
    ensures ([x] + xs)[1..] == xs
  {
  }

  lemma PartsLackMarker(pre: string, chunks: seq<string>)
    requires !Contains(pre, ResultMarker)
    requires forall k :: 0 <= k < |chunks| ==> !Contains(chunks[k], ResultMarker)
    ensures forall k :: 0 <= k < |[pre] + chunks| ==> !Contains(([pre] + chunks)[k], ResultMarker)
  {
    var parts := [pre] + chunks;
    forall k | 0 <= k < |parts| ensures !Contains(parts[k], ResultMarker) {
      if k > 0 {
        assert parts[k] == chunks[k - 1];
      }
    }
  }

  /** A page without any result marker yields nothing. */
  lemma NoMarkerNoHits(html: string)
    requires !Contains(html, ResultMarker)
    ensures ParseResults(html) == []
  {
  }
}
