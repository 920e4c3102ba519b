/**
 * The colour audit script (scripts/onenew-color-audit.mjs): hex colours are
 * found on each source line by two patterns, each occurrence becomes a CSV
 * row with the palette token nearest to it in RGB space, and a map records
 * one suggested token per distinct hex.
 *
 * Walking the source tree and writing the CSV files are not modelled: a
 * file is its relative path and its text.
 */
module ColorAudit {
  import opened Wrappers
  import opened Strings

  // ----------------------------------------------------------------- hex values

  predicate IsHexDigit(c: char) {
    '0' <= c <= '9' || 'a' <= c <= 'f' || 'A' <= c <= 'F'
  }

  predicate AllHex(s: string) {
    forall k :: 0 <= k < |s| ==> IsHexDigit(s[k])
  }

  function HexDigitValue(c: char): (d: nat)
    requires IsHexDigit(c)
    ensures d < 16
  {
    if '0' <= c <= '9' then c as int - '0' as int
    else if 'a' <= c <= 'f' then c as int - 'a' as int + 10
    else c as int - 'A' as int + 10
  }

  function Pow16(n: nat): nat {
    if n == 0 then 1 else 16 * Pow16(n - 1)
  }

  /** The value of a string of hex digits, most significant first. */
  function HexValue(s: string): (v: nat)
    requires AllHex(s)
    ensures v < Pow16(|s|)
  {
    if s == [] then 0
    else
      assert AllHex(s[..|s| - 1]);
      HexValue(s[..|s| - 1]) * 16 + HexDigitValue(s[|s| - 1])
  }

  /** Digits split anywhere: the high part scaled past the low part. */
  lemma {:induction false} HexValueAppend(a: string, b: string)
    requires AllHex(a) && AllHex(b)
    ensures AllHex(a + b) && HexValue(a + b) == HexValue(a) * Pow16(|b|) + HexValue(b)
    decreases |b|, 1
  {
    assert AllHex(a + b);
    if b == [] {
      assert a + b == a;
    } else {
      AppendLastDigit(a, b);
    }
  }

  /** The step of `HexValueAppend`: peel the last digit of `b`. */
  lemma {:induction false} AppendLastDigit(a: string, b: string)
    requires AllHex(a) && AllHex(b) && b != []
    ensures AllHex(a + b) && HexValue(a + b) == HexValue(a) * Pow16(|b|) + HexValue(b)
    decreases |b|, 0
  {
    var b' := b[..|b| - 1];
    var d := HexDigitValue(b[|b| - 1]);
    assert AllHex(a + b) && AllHex(b');
    HexValueAppend(a, b');
    assert HexValue(a + b) == HexValue(a + b') * 16 + d by {
      assert (a + b)[..|a + b| - 1] == a + b';
      assert (a + b)[|a + b| - 1] == b[|b| - 1];
    }
    assert HexValue(b) == HexValue(b') * 16 + d;
    assert Pow16(|b|) == Pow16(|b'|) * 16;
    ShiftDigit(HexValue(a + b), HexValue(a + b'), HexValue(b), HexValue(b'), HexValue(a), Pow16(|b'|), Pow16(|b|), d);
  }

  /** One more low digit on both sides of `ab' == x * p + b'`. */
  lemma ShiftDigit(ab: int, ab': int, b: int, b': int, x: int, p: int, p16: int, d: int)
    requires ab == ab' * 16 + d && b == b' * 16 + d && p16 == p * 16 && ab' == x * p + b'
    ensures ab == x * p16 + b
  {
    calc {
      ab;
      (x * p + b') * 16 + d;
      x * (p * 16) + b' * 16 + d;
    }
  }

  /** The length of the run of hex digits starting at `i`. */
  function HexRun(s: string, i: nat): (n: nat)
    requires i <= |s|
    ensures i + n <= |s| && AllHex(s[i..i + n])
    ensures i + n == |s| || !IsHexDigit(s[i + n])
    decreases |s| - i
  {
    if i < |s| && IsHexDigit(s[i]) then
      var n := HexRun(s, i + 1);
      assert s[i..i + 1 + n] == [s[i]] + s[i + 1..i + 1 + n];
      1 + n
    else 0
  }

  /** `parseInt(s, 16)` on text without leading white space, sign or `0x`: the leading run of hex digits, `NaN` when there is none. */
  function ParseHex(s: string): (r: Option<nat>)
    ensures r.None? <==> s == [] || !IsHexDigit(s[0])
    ensures r.Some? ==> r.value < Pow16(HexRun(s, 0))
    ensures r.Some? ==> r.value == HexValue(s[..HexRun(s, 0)])
  {
    var n := HexRun(s, 0);
    if n == 0 then None else Some(HexValue(s[..n]))
  }

  datatype Rgb = Rgb(r: int, g: int, b: int)

  predicate InByteRange(c: Rgb) {
    0 <= c.r < 256 && 0 <= c.g < 256 && 0 <= c.b < 256
  }

  /** `hex.replace('#', '')`: the first `#` removed. */
  function DropHash(hex: string): (r: string)
    ensures '#' !in hex ==> r == hex
    ensures |hex| > 0 && hex[0] == '#' ==> r == hex[1..]
  {
    match FindFrom(hex, "#", 0)
    case None => hex
    case Some(i) =>
      assert hex[i..i + 1] == "#";
      if |hex| > 0 && hex[0] == '#' then assert OccursAt(hex, "#", 0); hex[1..]
      else hex[..i] + hex[i + 1..]
  }

  /** A three-digit colour with each digit doubled. */
  function Expand(h: string): (r: string)
    ensures |h| == 3 ==> r == [h[0], h[0], h[1], h[1], h[2], h[2]]
    ensures |h| != 3 ==> r == h
  {
    if |h| == 3 then [h[0], h[0], h[1], h[1], h[2], h[2]] else h
  }

  /**
   * `hexToRgb`: drop the `#`, double a three-digit colour, parse at most
   * six digits and take the three bytes; a value that does not parse
   * (`NaN`) shifts to zero.
   */
  function HexToRgb(hex: string): (c: Rgb)
    ensures InByteRange(c)
  {
    var h := Expand(DropHash(hex));
    match ParseHex(h[..Min(6, |h|)])
    case None => Rgb(0, 0, 0)
    case Some(num) => SplitBytes(num)
  }

  function Min(a: nat, b: nat): nat {
    if a < b then a else b
  }

  /** The three bytes of six hex digits. */
  lemma SixDigits(d: string)
    requires |d| == 6 && AllHex(d)
    ensures AllHex(d[..2]) && AllHex(d[2..4]) && AllHex(d[4..])
    ensures HexValue(d) == HexValue(d[..2]) * 65536 + HexValue(d[2..4]) * 256 + HexValue(d[4..])
  {
    assert Pow16(2) == 256;
    assert d[..4] == d[..2] + d[2..4];
    assert d == d[..4] + d[4..];
    HexValueAppend(d[..2], d[2..4]);
    HexValueAppend(d[..4], d[4..]);
    var h, m, l := HexValue(d[..2]), HexValue(d[2..4]), HexValue(d[4..]);
    assert HexValue(d[..4]) == h * 256 + m;
    assert HexValue(d) == HexValue(d[..4]) * 256 + l;
    ShiftByte(h, m, l);
  }

  lemma ShiftByte(h: int, m: int, l: int)
    ensures (h * 256 + m) * 256 + l == h * 65536 + m * 256 + l
  {
  }

  /** A colour of at least six hex digits: each byte is one pair of digits; digits after the sixth (an alpha pair) are ignored. */
  lemma HexToRgbPairs(d: string)
    requires |d| >= 6 && AllHex(d)
    ensures var c := HexToRgb("#" + d);
      AllHex(d[..2]) && AllHex(d[2..4]) && AllHex(d[4..6])
      && c == Rgb(HexValue(d[..2]), HexValue(d[2..4]), HexValue(d[4..6]))
  {
    var six := d[..6];
    assert AllHex(six);
    assert ParseHex(six) == Some(HexValue(six)) by {
      HexRunAll(six);
      assert six[..6] == six;
    }
    assert HexToRgb("#" + d) == SplitBytes(HexValue(six)) by {
      assert DropHash("#" + d) == d;
      assert Expand(d) == d;
      assert d[..Min(6, |d|)] == six;
    }
    assert six[..2] == d[..2] && six[2..4] == d[2..4] && six[4..] == d[4..6];
    SixDigits(six);
    assert Pow16(2) == 256;
    BytesOfSum(HexValue(d[..2]), HexValue(d[2..4]), HexValue(d[4..6]));
  }

  /** The colour of a parsed number: its three low bytes, most significant first. */
  function SplitBytes(num: nat): Rgb {
    Rgb(num / 65536 % 256, num / 256 % 256, num % 256)
  }

  lemma BytesOfSum(hi: nat, mid: nat, lo: nat)
    requires hi < 256 && mid < 256 && lo < 256
    ensures SplitBytes(hi * 65536 + mid * 256 + lo) == Rgb(hi, mid, lo)
  {
    var v := hi * 65536 + mid * 256 + lo;
    assert v / 256 == hi * 256 + mid;
    assert v / 65536 == hi;
  }

  lemma {:induction false} HexRunAll(s: string)
    requires AllHex(s)
    ensures HexRun(s, 0) == |s|
  {
  }

  /** Three digits stand for six: `#abc` is `#aabbcc`. */
  lemma ThreeDigitsDouble(d: string)
    requires |d| == 3 && AllHex(d)
    ensures HexToRgb("#" + d) == HexToRgb("#" + [d[0], d[0], d[1], d[1], d[2], d[2]])
    ensures HexToRgb("#" + d) == Rgb(17 * HexDigitValue(d[0]), 17 * HexDigitValue(d[1]), 17 * HexDigitValue(d[2]))
  {
    var six := [d[0], d[0], d[1], d[1], d[2], d[2]];
    assert DropHash("#" + d) == d;
    assert DropHash("#" + six) == six;
    assert AllHex(six);
    HexToRgbPairs(six);
    assert Expand(six) == six;
    assert six[..6] == six;
    PairValue(d[0]);
    PairValue(d[1]);
    PairValue(d[2]);
    assert six[..2] == [d[0], d[0]] && six[2..4] == [d[1], d[1]] && six[4..6] == [d[2], d[2]];
  }

  lemma PairValue(c: char)
    requires IsHexDigit(c)
    ensures AllHex([c, c]) && HexValue([c, c]) == 17 * HexDigitValue(c)
  {
    assert [c, c][..1] == [c];
    assert [c][..0] == [];
  }

  /** Four or five digits are neither doubled nor cut: the whole run is one number, split into bytes. */
  lemma ShortDigitsWhole(d: string)
    requires 4 <= |d| <= 5 && AllHex(d)
    ensures HexToRgb("#" + d) == SplitBytes(HexValue(d))
  {
    assert DropHash("#" + d) == d;
    assert Expand(d) == d;
    assert d[..Min(6, |d|)] == d;
    HexRunAll(d);
    assert d[..HexRun(d, 0)] == d;
  }

  /** `#fff8` is `parseInt("fff8", 16)`, 65528: red 0, green 255, blue 248. */
  lemma FourDigitExample()
    ensures HexToRgb("#fff8") == Rgb(0, 255, 248)
  {
    ShortDigitsWhole("fff8");
    FourDigitValue();
    BytesOfSum(0, 255, 248);
  }

  lemma FourDigitValue()
    ensures AllHex("fff8") && HexValue("fff8") == 65528
  {
    assert HexValue("f") == 15 by { assert "f"[..0] == ""; }
    assert HexValue("ff") == 255 by { assert "ff"[..1] == "f"; }
    assert HexValue("fff") == 4095 by { assert "fff"[..2] == "ff"; }
    assert "fff8"[..3] == "fff";
  }

  /** An eight-digit colour reads as its first six digits: the alpha pair is ignored. */
  lemma AlphaIgnored(d: string)
    requires |d| == 8 && AllHex(d)
    ensures HexToRgb("#" + d) == HexToRgb("#" + d[..6])
  {
    HexToRgbPairs(d);
    HexToRgbPairs(d[..6]);
    assert d[..6][..2] == d[..2] && d[..6][2..4] == d[2..4] && d[..6][4..6] == d[4..6];
  }

  // ------------------------------------------------------------------- palette

  /** `tokenColors`, in declaration order. */
  const Palette: seq<(string, string)> := [
    ("--brand-primary", "#8A63F7"),
    ("--brand-secondary", "#39C8F0"),
    ("--brand-accent", "#A48CFF"),
    ("--bg", "#F8FAFF"),
    ("--fg", "#101828"),
    ("--surface", "#FFFFFF"),
    ("--border", "#E5E7EB"),
    ("--muted", "#EDF2FF"),
    ("--muted-fg", "#475467"),
    ("--success", "#10B981"),
    ("--warning", "#F59E0B"),
    ("--error", "#EF4444")
  ]

  /** The palette colours as bytes, in the same order. */
  const PaletteRgb: seq<Rgb> := [
    Rgb(0x8A, 0x63, 0xF7),
    Rgb(0x39, 0xC8, 0xF0),
    Rgb(0xA4, 0x8C, 0xFF),
    Rgb(0xF8, 0xFA, 0xFF),
    Rgb(0x10, 0x18, 0x28),
    Rgb(0xFF, 0xFF, 0xFF),
    Rgb(0xE5, 0xE7, 0xEB),
    Rgb(0xED, 0xF2, 0xFF),
    Rgb(0x47, 0x54, 0x67),
    Rgb(0x10, 0xB9, 0x81),
    Rgb(0xF5, 0x9E, 0x0B),
    Rgb(0xEF, 0x44, 0x44)
  ]

  function Square(x: int): nat {
    x * x
  }

  /** Squared distance in RGB space. */
  function Distance(a: Rgb, b: Rgb): nat {
    Square(a.r - b.r) + Square(a.g - b.g) + Square(a.b - b.b)
  }

  function PaletteDistance(c: Rgb, k: nat): nat
    requires k < |Palette|
  {
    Distance(c, PaletteRgb[k])
  }

  /** The index at or after `from` of the least value, the earliest of equals. */
  function LeastFrom(ds: seq<nat>, from: nat): (i: nat)
    requires from < |ds|
    ensures from <= i < |ds|
    ensures forall j :: from <= j < |ds| ==> ds[i] <= ds[j]
    ensures forall j :: from <= j < i ==> ds[i] < ds[j]
    decreases |ds| - from
  {
    if from == |ds| - 1 then from
    else
      var rest := LeastFrom(ds, from + 1);
      if ds[rest] < ds[from] then rest else from
  }

  /** The distance of `c` to each palette entry, in palette order. */
  function Distances(c: Rgb): (ds: seq<nat>)
    ensures |ds| == |Palette| && forall k :: 0 <= k < |Palette| ==> ds[k] == PaletteDistance(c, k)
  {
    seq(|Palette|, k requires 0 <= k < |Palette| => PaletteDistance(c, k))
  }

  /** The entry at or after `from` of least distance, the earliest of equals. */
  function NearestFrom(c: Rgb, from: nat): (i: nat)
    requires from < |Palette|
    ensures from <= i < |Palette|
    ensures forall j :: from <= j < |Palette| ==> PaletteDistance(c, i) <= PaletteDistance(c, j)
    ensures forall j :: from <= j < i ==> PaletteDistance(c, i) < PaletteDistance(c, j)
  {
    var ds := Distances(c);
    var i := LeastFrom(ds, from);
    assert forall j :: from <= j < |Palette| ==> ds[i] <= ds[j];
    i
  }

  /** The index of the nearest palette entry: least distance, ties to the earlier entry. */
  function NearestIndex(c: Rgb): nat
    ensures NearestIndex(c) < |Palette|
  {
    NearestFrom(c, 0)
  }

  /**
   * `nearestToken`: the loop keeps the least distance so far (`None` for
   * `Infinity`) and replaces the token only on a strictly smaller one.
   */
  method NearestToken(hex: string) returns (token: string)
    ensures token == Palette[NearestIndex(HexToRgb(hex))].0
  {
    var c := HexToRgb(hex);
    var min: Option<nat> := None;
    var best := 0;
    token := "";
    var k := 0;
    while k < |Palette|
      invariant 0 <= k <= |Palette|
      invariant k == 0 <==> min.None?
      invariant k > 0 ==> best < k && min == Some(PaletteDistance(c, best)) && token == Palette[best].0
      invariant k > 0 ==> forall j :: 0 <= j < k ==> PaletteDistance(c, best) <= PaletteDistance(c, j)
      invariant k > 0 ==> forall j :: 0 <= j < best ==> PaletteDistance(c, best) < PaletteDistance(c, j)
    {
      var dist := PaletteDistance(c, k);
      if min.None? || dist < min.value {
        min := Some(dist);
        best := k;
        token := Palette[k].0;
      }
      k := k + 1;
    }
    FirstLeastIsUnique(c, best);
  }

  /** The first index of least distance is the one `NearestIndex` picks. */
  lemma FirstLeastIsUnique(c: Rgb, i: nat)
    requires i < |Palette|
    requires forall j :: 0 <= j < |Palette| ==> PaletteDistance(c, i) <= PaletteDistance(c, j)
    requires forall j :: 0 <= j < i ==> PaletteDistance(c, i) < PaletteDistance(c, j)
    ensures NearestIndex(c) == i
  {
  }

  /** The token `nearestToken` returns, as a value. */
  function TokenFor(hex: string): string {
    Palette[NearestIndex(HexToRgb(hex))].0
  }

  /** A colour equal to an entry, with no earlier entry of the same colour, is named by that entry. */
  lemma ExactColourNamed(hex: string, k: nat)
    requires k < |Palette| && HexToRgb(hex) == PaletteRgb[k]
    ensures TokenFor(hex) == Palette[k].0
  {
    var c := HexToRgb(hex);
    assert PaletteDistance(c, k) == 0 by {
      DistanceZero(c, PaletteRgb[k]);
    }
    forall j | 0 <= j < k ensures PaletteDistance(c, k) < PaletteDistance(c, j) {
      PaletteDistinct(j, k);
      DistanceZero(c, PaletteRgb[j]);
    }
    FirstLeastIsUnique(c, k);
  }

  /** Two colours are at distance zero exactly when they are the same. */
  lemma DistanceZero(a: Rgb, b: Rgb)
    ensures Distance(a, b) == 0 <==> a == b
  {
    SquareZero(a.r - b.r);
    SquareZero(a.g - b.g);
    SquareZero(a.b - b.b);
  }

  lemma SquareZero(x: int)
    ensures Square(x) == 0 <==> x == 0
  {
    if x > 0 {
      assert x * x >= x;
    } else if x < 0 {
      assert x * x >= -x;
    }
  }

  /** No colour appears twice in the palette. */
  lemma PaletteDistinct(j: nat, k: nat)
    requires j < k < |Palette|
    ensures PaletteRgb[j] != PaletteRgb[k]
  {
  }

  /** The value of two hex digits. */
  lemma PairOf(x: char, y: char)
    requires IsHexDigit(x) && IsHexDigit(y)
    ensures AllHex([x, y]) && HexValue([x, y]) == 16 * HexDigitValue(x) + HexDigitValue(y)
  {
    assert [x, y][..1] == [x];
    assert [x][..0] == [];
  }

  /** A `#rrggbb` colour reads as its three digit pairs. */
  lemma SevenChars(s: string)
    requires |s| == 7 && s[0] == '#' && AllHex(s[1..])
    ensures HexToRgb(s) == Rgb(16 * HexDigitValue(s[1]) + HexDigitValue(s[2]),
                               16 * HexDigitValue(s[3]) + HexDigitValue(s[4]),
                               16 * HexDigitValue(s[5]) + HexDigitValue(s[6]))
  {
    var d := s[1..];
    assert s == "#" + d;
    HexToRgbPairs(d);
    assert d[..2] == [s[1], s[2]] && d[2..4] == [s[3], s[4]] && d[4..6] == [s[5], s[6]];
    PairOf(s[1], s[2]);
    PairOf(s[3], s[4]);
    PairOf(s[5], s[6]);
  }

  /**
   * The byte palette is the parsed `tokenColors`. Each entry has its own
   * lemma: one proof over a symbolic index into the literal table is far
   * more than the solver can afford, while twelve small ones are cheap.
   */
  lemma PaletteBytes(k: nat)
    requires k < |Palette|
    ensures HexToRgb(Palette[k].1) == PaletteRgb[k]
  {
    if k == 0 {
      BrandPrimaryBytes();
    } else if k == 1 {
      BrandSecondaryBytes();
    } else if k == 2 {
      BrandAccentBytes();
    } else if k == 3 {
      BackgroundBytes();
    } else if k == 4 {
      ForegroundBytes();
    } else if k == 5 {
      SurfaceBytes();
    } else if k == 6 {
      BorderBytes();
    } else if k == 7 {
      MutedBytes();
    } else if k == 8 {
      MutedForegroundBytes();
    } else if k == 9 {
      SuccessBytes();
    } else if k == 10 {
      WarningBytes();
    } else {
      ErrorBytes();
    }
  }

  // One entry each, so that each proof evaluates a single colour.

  lemma BrandPrimaryBytes()
    ensures HexToRgb(Palette[0].1) == PaletteRgb[0]
  {
    SevenChars(Palette[0].1);
  }

  lemma BrandSecondaryBytes()
    ensures HexToRgb(Palette[1].1) == PaletteRgb[1]
  {
    SevenChars(Palette[1].1);
  }

  lemma BrandAccentBytes()
    ensures HexToRgb(Palette[2].1) == PaletteRgb[2]
  {
    SevenChars(Palette[2].1);
  }

  lemma BackgroundBytes()
    ensures HexToRgb(Palette[3].1) == PaletteRgb[3]
  {
    SevenChars(Palette[3].1);
  }

  lemma ForegroundBytes()
    ensures HexToRgb(Palette[4].1) == PaletteRgb[4]
  {
    SevenChars(Palette[4].1);
  }

  lemma SurfaceBytes()
    ensures HexToRgb(Palette[5].1) == PaletteRgb[5]
  {
    SevenChars(Palette[5].1);
  }

  lemma BorderBytes()
    ensures HexToRgb(Palette[6].1) == PaletteRgb[6]
  {
    SevenChars(Palette[6].1);
  }

  lemma MutedBytes()
    ensures HexToRgb(Palette[7].1) == PaletteRgb[7]
  {
    SevenChars(Palette[7].1);
  }

  lemma MutedForegroundBytes()
    ensures HexToRgb(Palette[8].1) == PaletteRgb[8]
  {
    SevenChars(Palette[8].1);
  }

  lemma SuccessBytes()
    ensures HexToRgb(Palette[9].1) == PaletteRgb[9]
  {
    SevenChars(Palette[9].1);
  }

  lemma WarningBytes()
    ensures HexToRgb(Palette[10].1) == PaletteRgb[10]
  {
    SevenChars(Palette[10].1);
  }

  lemma ErrorBytes()
    ensures HexToRgb(Palette[11].1) == PaletteRgb[11]
  {
    SevenChars(Palette[11].1);
  }

  /** The brand colour written in lower case is the brand-primary token. */
  lemma BrandPrimaryNamed()
    ensures TokenFor("#8a63f7") == "--brand-primary"
  {
    var s := "#8a63f7";
    assert AllHex(s[1..]);
    SevenChars(s);
    assert HexToRgb(s) == PaletteRgb[0];
    ExactColourNamed(s, 0);
  }

  // ------------------------------------------------------------- usage guess

  /** `guessUsage`: the first of four case-insensitive keyword tests that holds. */
  function GuessUsage(line: string): (u: string)
    ensures u in {"background", "text", "border", "shadow", ""}
    ensures u == "background" <==> Mentions(line, "bg-") || Mentions(line, "background")
    ensures u == "text" <==> !(Mentions(line, "bg-") || Mentions(line, "background"))
                             && (Mentions(line, "text-") || Mentions(line, "color"))
    ensures u == "border" <==> !(Mentions(line, "bg-") || Mentions(line, "background"))
                               && !(Mentions(line, "text-") || Mentions(line, "color")) && Mentions(line, "border")
    ensures u == "shadow" <==> !(Mentions(line, "bg-") || Mentions(line, "background"))
                               && !(Mentions(line, "text-") || Mentions(line, "color")) && !Mentions(line, "border")
                               && Mentions(line, "shadow")
    ensures u == "" <==> (!Mentions(line, "bg-") && !Mentions(line, "background") && !Mentions(line, "text-")
                          && !Mentions(line, "color") && !Mentions(line, "border") && !Mentions(line, "shadow"))
  {
    if Mentions(line, "bg-") || Mentions(line, "background") then "background"
    else if Mentions(line, "text-") || Mentions(line, "color") then "text"
    else if Mentions(line, "border") then "border"
    else if Mentions(line, "shadow") then "shadow"
    else ""
  }

  /** A case-insensitive test for a lower-case ASCII word: only ASCII letters fold onto ASCII letters. */
  predicate Mentions(line: string, word: string) {
    Contains(ToLowerAscii(line), word)
  }

  /** A line naming both a background and a border is guessed as background: the earlier test wins. */
  lemma UsagePriority(line: string)
    requires Mentions(line, "background") && Mentions(line, "border")
    ensures GuessUsage(line) == "background"
  {
  }

  // ------------------------------------------------------------------ scanners

  predicate IsWordChar(c: char) {
    '0' <= c <= '9' || 'a' <= c <= 'z' || 'A' <= c <= 'Z' || c == '_'
  }

  /**
   * `/#([0-9A-Fa-f]{3,8})(?![0-9A-Za-z_])/` at `i`: the greedy count
   * backtracks only into hex digits, which the lookahead rejects, so the
   * whole run must be 3 to 8 digits long and end the word.
   */
  function PlainAt(line: string, i: nat): (r: Option<string>)
    ensures r.Some? ==> (3 <= |r.value| <= 8 && AllHex(r.value) && i + 1 + |r.value| <= |line|
                         && line[i] == '#' && line[i + 1..i + 1 + |r.value|] == r.value)
  {
    if i >= |line| || line[i] != '#' then None
    else
      var n := HexRun(line, i + 1);
      if 3 <= n <= 8 && (i + 1 + n == |line| || !IsWordChar(line[i + 1 + n])) then Some(line[i + 1..i + 1 + n])
      else None
  }

  /** `/\[#([0-9A-Fa-f]{3,8})\]/` at `i`. */
  function BracketedAt(line: string, i: nat): (r: Option<string>)
    ensures r.Some? ==> (3 <= |r.value| <= 8 && AllHex(r.value) && i + 3 + |r.value| <= |line|
                         && line[i] == '[' && line[i + 1] == '#' && line[i + 2..i + 2 + |r.value|] == r.value
                         && line[i + 2 + |r.value|] == ']')
  {
    if i + 1 >= |line| || line[i] != '[' || line[i + 1] != '#' then None
    else
      var n := HexRun(line, i + 2);
      if 3 <= n <= 8 && i + 2 + n < |line| && line[i + 2 + n] == ']' then Some(line[i + 2..i + 2 + n])
      else None
  }

  /** The `exec` loop of the plain pattern: captures in order, each search resuming after the last match. */
  function PlainScan(line: string, from: nat): (r: seq<string>)
    ensures forall k :: 0 <= k < |r| ==> 3 <= |r[k]| <= 8 && AllHex(r[k])
    decreases |line| - from
  {
    if from >= |line| then []
    else
      match PlainAt(line, from)
      case Some(c) => [c] + PlainScan(line, from + 1 + |c|)
      case None => PlainScan(line, from + 1)
  }

  /** The `exec` loop of the bracketed pattern. */
  function BracketedScan(line: string, from: nat): (r: seq<string>)
    ensures forall k :: 0 <= k < |r| ==> 3 <= |r[k]| <= 8 && AllHex(r[k])
    decreases |line| - from
  {
    if from >= |line| then []
    else
      match BracketedAt(line, from)
      case Some(c) => [c] + BracketedScan(line, from + 3 + |c|)
      case None => BracketedScan(line, from + 1)
  }

  /** A bracketed colour is also a plain one, one character later: `]` ends the word. */
  lemma BracketedIsPlain(line: string, i: nat)
    requires BracketedAt(line, i).Some?
    ensures PlainAt(line, i + 1) == BracketedAt(line, i)
  {
    var c := BracketedAt(line, i).value;
    var n := HexRun(line, i + 2);
    assert n == |c|;
  }

  /** No plain match that starts before a `[` at `p - 1` reaches past it. */
  lemma PlainStopsAtBracket(line: string, p: nat, j: nat)
    requires 1 <= p <= |line| && line[p - 1] == '[' && j < p && PlainAt(line, j).Some?
    ensures j + 1 + |PlainAt(line, j).value| <= p
  {
    var d := PlainAt(line, j).value;
  }

  /** The plain scan reaches a match that no earlier match overlaps. */
  lemma {:induction false} PlainScanReaches(line: string, from: nat, p: nat)
    requires from <= p && PlainAt(line, p).Some?
    requires forall j :: from <= j < p && PlainAt(line, j).Some? ==> j + 1 + |PlainAt(line, j).value| <= p
    ensures PlainAt(line, p).value in PlainScan(line, from)
    decreases p - from
  {
    if from < p {
      assert from < |line|;
      match PlainAt(line, from)
      case Some(c) => {
        PlainScanReaches(line, from + 1 + |c|, p);
      }
      case None => {
        PlainScanReaches(line, from + 1, p);
      }
    }
  }

  /** Every bracketed capture comes from a match at some position at or after `from`. */
  lemma {:induction false} BracketedScanSource(line: string, from: nat, c: string)
    requires c in BracketedScan(line, from)
    ensures exists i: nat :: from <= i && BracketedAt(line, i) == Some(c)
    decreases |line| - from
  {
    match BracketedAt(line, from)
    case Some(d) => {
      if c != d {
        BracketedScanSource(line, from + 3 + |d|, c);
      }
    }
    case None => {
      BracketedScanSource(line, from + 1, c);
    }
  }

  /** Each bracketed colour on a line is also recorded by the plain pattern, so it gets two rows. */
  lemma BracketedRecordedTwice(line: string, c: string)
    requires c in BracketedScan(line, 0)
    ensures c in PlainScan(line, 0)
  {
    BracketedScanSource(line, 0, c);
    var i: nat :| BracketedAt(line, i) == Some(c);
    BracketedIsPlain(line, i);
    forall j | 0 <= j < i + 1 && PlainAt(line, j).Some?
      ensures j + 1 + |PlainAt(line, j).value| <= i + 1
    {
      PlainStopsAtBracket(line, i + 1, j);
    }
    PlainScanReaches(line, 0, i + 1);
  }

  // ----------------------------------------------------------------------- rows

  /** One CSV row: hex, file, line number, context, usage guess, suggested token. */
  datatype Row = Row(hex: string, file: string, lineNo: nat, context: string, usage: string, token: string)

  /** A recorded hex: `#` and three to eight lower-case hex digits. */
  predicate LowerHexColour(h: string) {
    4 <= |h| <= 9 && h[0] == '#' && forall k :: 1 <= k < |h| ==> '0' <= h[k] <= '9' || 'a' <= h[k] <= 'f'
  }

  /** `('#' + m[1]).toLowerCase()` for a capture of hex digits. */
  function HexOf(digits: string): (h: string)
    requires 3 <= |digits| <= 8 && AllHex(digits)
    ensures LowerHexColour(h)
  {
    var hex := ToLowerAscii("#" + digits);
    assert forall k :: 1 <= k < |hex| ==> hex[k] == ToLowerAscii("#" + digits)[k] && ("#" + digits)[k] == digits[k - 1];
    hex
  }

  /** `line.trim().replace(/,/g, ';')`. */
  function ContextOf(line: string): (c: string)
    ensures ',' !in c && |c| == |Trim(line)|
  {
    ReplaceChar(Trim(line), ',', ';')
  }

  /** The row for one capture on line `idx` (counted from 0): the hex lower-cased, the token nearest to it, the trimmed line with commas made semicolons. */
  function RowFor(file: string, idx: nat, line: string, digits: string): (r: Row)
    requires 3 <= |digits| <= 8 && AllHex(digits)
    ensures LowerHexColour(r.hex) && r.token == TokenFor(r.hex)
    ensures r.lineNo == idx + 1 && ',' !in r.context && r.usage == GuessUsage(line)
    ensures |r.context| == |Trim(line)|
  {
    var hex := HexOf(digits);
    Row(hex, file, idx + 1, ContextOf(line), GuessUsage(line), TokenFor(hex))
  }

  /** Every row's token is `name` of its hex. */
  predicate Named(rows: seq<Row>, name: string -> string) {
    forall k :: 0 <= k < |rows| ==> rows[k].token == name(rows[k].hex)
  }

  predicate NamesNearest(rows: seq<Row>) {
    Named(rows, TokenFor)
  }

  lemma NamedAppend(a: seq<Row>, b: seq<Row>, name: string -> string)
    requires Named(a, name) && Named(b, name)
    ensures Named(a + b, name)
  {
    assert forall k :: 0 <= k < |a + b| ==> (a + b)[k] == if k < |a| then a[k] else b[k - |a|];
  }

  /** One row per capture, in order. */
  function RowsOf(file: string, idx: nat, line: string, caps: seq<string>): (rows: seq<Row>)
    requires forall k :: 0 <= k < |caps| ==> 3 <= |caps[k]| <= 8 && AllHex(caps[k])
    ensures |rows| == |caps|
    ensures forall k :: 0 <= k < |rows| ==> rows[k] == RowFor(file, idx, line, caps[k])
  {
    seq(|caps|, k requires 0 <= k < |caps| => RowFor(file, idx, line, caps[k]))
  }

  /** The rows of one line: plain matches first, then bracketed ones. */
  function LineRows(file: string, idx: nat, line: string): (rows: seq<Row>)
    ensures |rows| == |PlainScan(line, 0)| + |BracketedScan(line, 0)|
    ensures forall k :: 0 <= k < |rows| ==> rows[k].lineNo == idx + 1
  {
    RowsOf(file, idx, line, PlainScan(line, 0)) + RowsOf(file, idx, line, BracketedScan(line, 0))
  }

  /** Every row of a line carries the token nearest to its hex. */
  lemma LineRowsNameNearest(file: string, idx: nat, line: string)
    ensures NamesNearest(LineRows(file, idx, line))
  {
    var a := RowsOf(file, idx, line, PlainScan(line, 0));
    var b := RowsOf(file, idx, line, BracketedScan(line, 0));
    assert NamesNearest(a);
    assert NamesNearest(b);
    NamedAppend(a, b, TokenFor);
  }

  /** The rows of lines `idx` onwards, each line numbered from one. */
  function LinesRows(file: string, lines: seq<string>, idx: nat): (rows: seq<Row>)
    requires idx <= |lines|
    ensures forall k :: 0 <= k < |rows| ==> idx < rows[k].lineNo <= |lines|
    decreases |lines| - idx
  {
    if idx == |lines| then []
    else LineRows(file, idx, lines[idx]) + LinesRows(file, lines, idx + 1)
  }

  lemma {:induction false} LinesRowsNameNearest(file: string, lines: seq<string>, idx: nat)
    requires idx <= |lines|
    ensures NamesNearest(LinesRows(file, lines, idx))
    decreases |lines| - idx
  {
    if idx < |lines| {
      LineRowsNameNearest(file, idx, lines[idx]);
      LinesRowsNameNearest(file, lines, idx + 1);
      NamedAppend(LineRows(file, idx, lines[idx]), LinesRows(file, lines, idx + 1), TokenFor);
    }
  }

  /** The rows of one file, its text split on `\r?\n`. */
  function FileRows(file: string, text: string): (rows: seq<Row>)
    ensures forall k :: 0 <= k < |rows| ==> 1 <= rows[k].lineNo <= |SplitLines(text)|
  {
    LinesRows(file, SplitLines(text), 0)
  }

  const Header: seq<string> := ["hex", "file", "line", "context", "usage_guess", "suggested_token"]

  function Fields(r: Row): seq<string> {
    [r.hex, r.file, NatToDecimal(r.lineNo), r.context, r.usage, r.token]
  }

  /** `row.join(',')`. */
  function RowText(r: Row): string {
    Join(Fields(r), ",")
  }

  lemma TokensHaveNoComma(k: nat)
    requires k < |Palette|
    ensures ',' !in Palette[k].0
  {
  }

  lemma TokenForHasNoComma(hex: string)
    ensures ',' !in TokenFor(hex)
  {
    TokensHaveNoComma(NearestIndex(HexToRgb(hex)));
  }

  /** No field of a row holds a comma, given a file path without one. */
  lemma FieldsHaveNoComma(r: Row)
    requires LowerHexColour(r.hex) && ',' !in r.file && ',' !in r.context && ',' !in r.token
    requires r.usage in {"background", "text", "border", "shadow", ""}
    ensures forall k :: 0 <= k < 6 ==> ',' !in Fields(r)[k]
  {
    assert ',' !in r.hex by {
      assert forall k :: 0 <= k < |r.hex| ==> r.hex[k] != ',';
    }
    var t := NatToDecimal(r.lineNo);
    assert ',' !in t by {
      assert forall k :: 0 <= k < |t| ==> t[k] != ',';
    }
  }

  /** A row whose file path has no comma reads back as its six fields. */
  lemma RowReadsBack(file: string, idx: nat, line: string, digits: string)
    requires ',' !in file && 3 <= |digits| <= 8 && AllHex(digits)
    ensures var r := RowFor(file, idx, line, digits); Split(RowText(r), ",") == Fields(r)
  {
    var r := RowFor(file, idx, line, digits);
    TokenForHasNoComma(r.hex);
    FieldsHaveNoComma(r);
    SplitJoin(Fields(r), ',');
  }

  /** `unique.set(hex, token)` over the rows in order: a later row for the same hex overwrites. */
  function Unique(rows: seq<Row>): map<string, string> {
    if rows == [] then map[]
    else
      var last := rows[|rows| - 1];
      Unique(rows[..|rows| - 1])[last.hex := last.token]
  }

  /** The hexes the rows record. */
  function Hexes(rows: seq<Row>): set<string> {
    set k | 0 <= k < |rows| :: rows[k].hex
  }

  /** `unique` has one entry per recorded hex. */
  lemma {:induction false} UniqueKeys(rows: seq<Row>)
    ensures Unique(rows).Keys == Hexes(rows)
    decreases |rows|
  {
    if rows != [] {
      var init := rows[..|rows| - 1];
      UniqueKeys(init);
      assert forall k :: 0 <= k < |init| ==> init[k] == rows[k];
      assert Hexes(rows) == Hexes(init) + {rows[|rows| - 1].hex};
    }
  }

  /** When every row's token is a function of its hex, so is every entry of `unique`. */
  lemma {:induction false} UniqueAgrees(rows: seq<Row>, name: string -> string)
    requires Named(rows, name)
    ensures var m := Unique(rows); forall h :: h in m ==> m[h] == name(h)
    decreases |rows|
  {
    if rows != [] {
      var init := rows[..|rows| - 1];
      assert forall k :: 0 <= k < |init| ==> init[k] == rows[k];
      UniqueAgrees(init, name);
    }
  }

  /** The map of a whole file: every recorded hex once, with its nearest token. */
  lemma FileUnique(file: string, text: string)
    ensures var rows := FileRows(file, text); var m := Unique(rows);
      m.Keys == Hexes(rows) && forall h :: h in m ==> m[h] == TokenFor(h)
  {
    UniqueKeys(FileRows(file, text));
    LinesRowsNameNearest(file, SplitLines(text), 0);
    UniqueAgrees(FileRows(file, text), TokenFor);
  }
}
