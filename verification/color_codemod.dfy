/**
 * The start of the colour codemod (scripts/onenew-color-codemod.mjs): the
 * `--map` argument check, the parse of the hex-to-token mapping CSV, and
 * the CSS variable name taken out of a token.
 *
 * Reading the mapping file is an input (its text); the rewriting of source
 * files is not modelled.
 */
module ColorCodemod {
  import opened Wrappers
  import opened Strings

  /** How the script starts: usage error and exit status 1, or the path given after `--map` (`None` when `--map` is last). */
  datatype Start = Usage(status: int) | MapFile(path: Option<string>)

  const UsageText: string := "Usage: node scripts/onenew-color-codemod.mjs --map <mapping.csv>"

  /** `argv.indexOf(x)`: the first index holding `x`. */
  function IndexOf(argv: seq<string>, x: string): (r: Option<nat>)
    ensures r.Some? ==> r.value < |argv| && argv[r.value] == x && forall j :: 0 <= j < r.value ==> argv[j] != x
    ensures r.None? <==> x !in argv
  {
    if argv == [] then None
    else if argv[0] == x then Some(0)
    else
      match IndexOf(argv[1..], x)
      case None => None
      case Some(i) => Some(i + 1)
  }

  /** Lines 7-12: no `--map` is a usage error; otherwise the argument after the first `--map`. */
  function ParseArgs(argv: seq<string>): (s: Start)
    ensures s.Usage? <==> "--map" !in argv
    ensures s.Usage? ==> s.status == 1
  {
    match IndexOf(argv, "--map")
    case None => Usage(1)
    case Some(i) => MapFile(if i + 1 < |argv| then Some(argv[i + 1]) else None)
  }

  /** The path is the word right after the first `--map`, wherever other arguments stand. */
  lemma MapPathFollowsFlag(before: seq<string>, path: string, after: seq<string>)
    requires "--map" !in before
    ensures ParseArgs(before + ["--map", path] + after) == MapFile(Some(path))
  {
    var argv := before + ["--map", path] + after;
    assert argv[|before|] == "--map" && argv[|before| + 1] == path;
    assert forall j :: 0 <= j < |before| ==> argv[j] == before[j];
    assert "--map" in argv;
  }

  /** One mapping line: the trimmed, lower-cased first field and the trimmed second field, when both are non-empty as read. */
  function MappingEntry(line: string): (r: Option<(string, string)>)
    ensures r.Some? ==> var fields := Split(line, ",");
      |fields| >= 2 && fields[0] != "" && fields[1] != ""
      && r.value == (ToLowerAscii(Trim(fields[0])), Trim(fields[1]))
    ensures r.None? ==> var fields := Split(line, ",");
      AllSpace(line) || fields[0] == "" || |fields| < 2 || fields[1] == ""
  {
    if AllSpace(line) then None
    else
      var fields := Split(line, ",");
      if fields[0] != "" && |fields| >= 2 && fields[1] != "" then Some((ToLowerAscii(Trim(fields[0])), Trim(fields[1])))
      else None
  }

  /** Extra fields are ignored: the key and value come from the first two fields alone. */
  lemma ExtraFieldsIgnored(hex: string, token: string, extra: seq<string>)
    requires hex != "" && token != "" && !AllSpace(hex)
    requires ',' !in hex && ',' !in token && forall k :: 0 <= k < |extra| ==> ',' !in extra[k]
    ensures MappingEntry(Join([hex, token] + extra, ",")) == Some((ToLowerAscii(Trim(hex)), Trim(token)))
  {
    var line := Join([hex, token] + extra, ",");
    JoinedFields(hex, token, extra);
    EntryOfFields(line, hex, token);
  }

  lemma JoinedFields(hex: string, token: string, extra: seq<string>)
    requires !AllSpace(hex)
    requires ',' !in hex && ',' !in token && forall k :: 0 <= k < |extra| ==> ',' !in extra[k]
    ensures var line := Join([hex, token] + extra, ",");
      !AllSpace(line) && Split(line, ",") == [hex, token] + extra
  {
    CommaFree(hex, token, extra);
    SplitJoin([hex, token] + extra, ',');
    JoinedVisible(hex, [token] + extra);
  }

  lemma CommaFree(hex: string, token: string, extra: seq<string>)
    requires ',' !in hex && ',' !in token && forall k :: 0 <= k < |extra| ==> ',' !in extra[k]
    ensures forall k :: 0 <= k < |[hex, token] + extra| ==> ',' !in ([hex, token] + extra)[k]
  {
    var parts := [hex, token] + extra;
    forall k | 2 <= k < |parts| ensures ',' !in parts[k] {
      assert parts[k] == extra[k - 2];
    }
  }

  lemma JoinedVisible(hex: string, rest: seq<string>)
    requires !AllSpace(hex) && |rest| >= 1
    ensures !AllSpace(Join([hex] + rest, ","))
  {
    var j := Join([hex] + rest, ",");
    JoinCons(hex, rest, ",");
    var i :| 0 <= i < |hex| && !IsSpace(hex[i]);
    assert j[i] == hex[i];
  }

  lemma EntryOfFields(line: string, hex: string, token: string)
    requires !AllSpace(line) && hex != "" && token != ""
    requires |Split(line, ",")| >= 2 && Split(line, ",")[0] == hex && Split(line, ",")[1] == token
    ensures MappingEntry(line) == Some((ToLowerAscii(Trim(hex)), Trim(token)))
  {
  }

  /** A line with only one field is dropped. */
  lemma OneFieldDropped(line: string)
    requires ',' !in line
    ensures MappingEntry(line).None?
  {
    SplitJoin([line], ',');
  }

  /** `mapping[key] = value` for each usable line in order: a later line for the same key overwrites. */
  function AddLines(m: map<string, string>, lines: seq<string>): (r: map<string, string>)
    ensures m.Keys <= r.Keys
    decreases |lines|
  {
    if lines == [] then m
    else
      match MappingEntry(lines[0])
      case None => AddLines(m, lines[1..])
      case Some((k, v)) => AddLines(m[k := v], lines[1..])
  }

  /** Lines 13-18: the mapping from the CSV text, its first line skipped as a header. */
  function ParseMapping(text: string): map<string, string> {
    AddLines(map[], SplitLines(text)[1..])
  }

  /** The keys of the lines that yield an entry. */
  function EntryKeys(lines: seq<string>): set<string>
    decreases |lines|
  {
    if lines == [] then {}
    else
      (match MappingEntry(lines[0]) case None => {} case Some((k, _)) => {k}) + EntryKeys(lines[1..])
  }

  /** The line yields an entry keyed `x`. */
  predicate Yields(line: string, x: string) {
    MappingEntry(line).Some? && MappingEntry(line).value.0 == x
  }

  /** A key is among the entry keys exactly when some line yields it. */
  lemma {:induction false} EntryKeysExactly(lines: seq<string>, x: string)
    ensures x in EntryKeys(lines) <==> exists k :: 0 <= k < |lines| && Yields(lines[k], x)
    decreases |lines|
  {
    if lines != [] {
      var rest := lines[1..];
      EntryKeysExactly(rest, x);
      assert x in EntryKeys(lines) <==> Yields(lines[0], x) || x in EntryKeys(rest);
      SomeLineCons(lines, x);
    }
  }

  /** Some line yields `x` exactly when the first does or some later one does. */
  lemma SomeLineCons(lines: seq<string>, x: string)
    requires lines != []
    ensures (exists k :: 0 <= k < |lines| && Yields(lines[k], x)) <==>
      Yields(lines[0], x) || exists k :: 0 <= k < |lines[1..]| && Yields(lines[1..][k], x)
  {
    var hit := line => Yields(line, x);
    SomeCons(lines, hit);
    assert forall k :: 0 <= k < |lines| ==> (hit(lines[k]) <==> Yields(lines[k], x));
    assert forall k :: 0 <= k < |lines[1..]| ==> (hit(lines[1..][k]) <==> Yields(lines[1..][k], x));
  }

  /** Some element satisfies `p` exactly when the head does or some element of the tail does. */
  lemma SomeCons<T>(s: seq<T>, p: T -> bool)
    requires s != []
    ensures (exists k :: 0 <= k < |s| && p(s[k])) <==> p(s[0]) || exists k :: 0 <= k < |s[1..]| && p(s[1..][k])
  {
    if exists k :: 0 <= k < |s| && p(s[k]) {
      var k :| 0 <= k < |s| && p(s[k]);
      if k > 0 {
        assert s[1..][k - 1] == s[k];
      }
    }
    if exists k :: 0 <= k < |s[1..]| && p(s[1..][k]) {
      var k :| 0 <= k < |s[1..]| && p(s[1..][k]);
      assert s[k + 1] == s[1..][k];
    }
  }

  /** The mapping holds a key exactly when the start map or some usable line has it. */
  lemma {:induction false} AddLinesKeys(m: map<string, string>, lines: seq<string>)
    ensures AddLines(m, lines).Keys == m.Keys + EntryKeys(lines)
    decreases |lines|
  {
    if lines != [] {
      match MappingEntry(lines[0])
      case None => AddLinesKeys(m, lines[1..]);
      case Some((key, v)) => AddLinesKeys(m[key := v], lines[1..]);
    }
  }

  /** The value for a key is the one of its last usable line. */
  lemma {:induction false} LastLineWins(m: map<string, string>, lines: seq<string>, i: nat)
    requires i < |lines| && MappingEntry(lines[i]).Some?
    requires forall j :: i < j < |lines| && MappingEntry(lines[j]).Some? ==> MappingEntry(lines[j]).value.0 != MappingEntry(lines[i]).value.0
    ensures var (k, v) := MappingEntry(lines[i]).value; k in AddLines(m, lines) && AddLines(m, lines)[k] == v
    decreases |lines|
  {
    var (key, v) := MappingEntry(lines[i]).value;
    var rest := lines[1..];
    if i == 0 {
      var m' := m[key := v];
      assert AddLines(m, lines) == AddLines(m', rest);
      forall j | 0 <= j < |rest| && MappingEntry(rest[j]).Some?
        ensures MappingEntry(rest[j]).value.0 != key
      {
        assert rest[j] == lines[j + 1];
      }
      UntouchedKey(m', rest, key);
    } else {
      assert rest[i - 1] == lines[i];
      forall j | i - 1 < j < |rest| && MappingEntry(rest[j]).Some?
        ensures MappingEntry(rest[j]).value.0 != MappingEntry(rest[i - 1]).value.0
      {
        assert rest[j] == lines[j + 1];
      }
      LastLineWins(Put(m, lines[0]), rest, i - 1);
      AddLinesCons(m, lines);
    }
  }

  /** The mapping after one line. */
  function Put(m: map<string, string>, line: string): map<string, string> {
    match MappingEntry(line)
    case None => m
    case Some((k, v)) => m[k := v]
  }

  lemma AddLinesCons(m: map<string, string>, lines: seq<string>)
    requires lines != []
    ensures AddLines(m, lines) == AddLines(Put(m, lines[0]), lines[1..])
  {
  }

  /** A key no later line yields keeps its value. */
  lemma {:induction false} UntouchedKey(m: map<string, string>, lines: seq<string>, key: string)
    requires key in m
    requires forall j :: 0 <= j < |lines| && MappingEntry(lines[j]).Some? ==> MappingEntry(lines[j]).value.0 != key
    ensures key in AddLines(m, lines) && AddLines(m, lines)[key] == m[key]
    decreases |lines|
  {
    if lines != [] {
      var rest := lines[1..];
      forall j | 0 <= j < |rest| && MappingEntry(rest[j]).Some?
        ensures MappingEntry(rest[j]).value.0 != key
      {
        assert rest[j] == lines[j + 1];
      }
      match MappingEntry(lines[0])
      case None => UntouchedKey(m, rest, key);
      case Some((k0, v0)) => UntouchedKey(m[k0 := v0], rest, key);
    }
  }

  /** The header line never contributes, whatever it says. */
  lemma HeaderIgnored(header: string, body: string)
    requires '\n' !in header && '\r' !in header
    ensures ParseMapping(header + "\n" + body) == AddLines(map[], SplitLines(body))
  {
    var s := header + "\n" + body;
    assert Split(s, "\n") == [header] + Split(body, "\n") by {
      SplitAfterLine(header, body);
    }
    var whole := SplitLines(s);
    var tail := SplitLines(body);
    assert |whole| == |tail| + 1;
    forall k | 0 <= k < |tail| ensures whole[k + 1] == tail[k] {
    }
    assert whole[1..] == tail;
  }

  /** Splitting at line breaks: a first line without one comes off whole. */
  lemma SplitAfterLine(header: string, body: string)
    requires '\n' !in header
    ensures Split(header + "\n" + body, "\n") == [header] + Split(body, "\n")
  {
    var s := header + "\n" + body;
    NoCharNoOccurrence(header, '\n');
    assert OccursAt(s, "\n", |header|) by {
      assert s[|header|..|header| + 1] == "\n";
    }
    forall j | 0 <= j < |header| ensures !OccursAt(s, "\n", j) {
      assert s[j..j + 1] == [header[j]];
    }
    FirstOccurrence(s, "\n", 0, |header|);
    assert s[..|header|] == header;
    assert s[|header| + 1..] == body;
  }


  /**
   * `token.match(/--[^)]+/)[0]`: from the first `--` followed by a
   * character other than `)`, up to the next `)` or the end; `None` where
   * the script throws because nothing matches.
   */
  function TokenName(token: string): (r: Option<string>)
    ensures r.Some? ==> |r.value| >= 3 && r.value[..2] == "--" && ')' !in r.value[2..]
    ensures r.None? <==> forall k: nat :: k < |token| ==> !StartsName(token, k)
    ensures forall k: nat :: StartsName(token, k) && (forall m: nat :: m < k ==> !StartsName(token, m)) ==>
      r == Some(token[k..CloseFrom(token, k + 2)])
  {
    TokenNameFrom(token, 0)
  }

  /** A match can start at `k`: `--` followed by a character other than `)`. */
  predicate StartsName(token: string, k: nat) {
    k + 3 <= |token| && token[k] == '-' && token[k + 1] == '-' && token[k + 2] != ')'
  }

  function TokenNameFrom(token: string, i: nat): (r: Option<string>)
    ensures r.Some? ==> |r.value| >= 3 && r.value[..2] == "--" && ')' !in r.value[2..]
    ensures r.None? <==> forall k: nat :: i <= k < |token| ==> !StartsName(token, k)
    ensures forall k: nat :: i <= k && StartsName(token, k) && (forall m: nat :: i <= m < k ==> !StartsName(token, m)) ==>
      r == Some(token[k..CloseFrom(token, k + 2)])
    decreases |token| - i
  {
    if i + 3 > |token| then None
    else if StartsName(token, i) then
      var e := CloseFrom(token, i + 2);
      Some(token[i..e])
    else
      var r := TokenNameFrom(token, i + 1);
      FirstNameAfter(token, i, r);
      r
  }

  /** No match at `i`: the first match from `i` is the first one from `i + 1`. */
  lemma FirstNameAfter(token: string, i: nat, r: Option<string>)
    requires !StartsName(token, i)
    requires r.None? <==> forall k: nat :: i + 1 <= k < |token| ==> !StartsName(token, k)
    requires forall k: nat :: i + 1 <= k && StartsName(token, k) && (forall m: nat :: i + 1 <= m < k ==> !StartsName(token, m)) ==>
      r == Some(token[k..CloseFrom(token, k + 2)])
    ensures r.None? <==> forall k: nat :: i <= k < |token| ==> !StartsName(token, k)
    ensures forall k: nat :: i <= k && StartsName(token, k) && (forall m: nat :: i <= m < k ==> !StartsName(token, m)) ==>
      r == Some(token[k..CloseFrom(token, k + 2)])
  {
    forall k: nat | i <= k && StartsName(token, k) && (forall m: nat :: i <= m < k ==> !StartsName(token, m))
      ensures r == Some(token[k..CloseFrom(token, k + 2)])
    {
      assert k != i;
      assert forall m: nat :: i + 1 <= m < k ==> !StartsName(token, m);
    }
  }

  /** The first `)` at or after `j`, or the end. */
  function CloseFrom(s: string, j: nat): (e: nat)
    requires j <= |s|
    ensures j <= e <= |s| && (forall m :: j <= m < e ==> s[m] != ')') && (e < |s| ==> s[e] == ')')
    decreases |s| - j
  {
    if j < |s| && s[j] != ')' then CloseFrom(s, j + 1) else j
  }

  /** `var(--name)` yields `--name` when the name holds neither `)` nor `--`. */
  lemma VarTokenName(name: string)
    requires |name| >= 1 && ')' !in name && '-' !in name
    ensures TokenName("var(--" + name + ")") == Some("--" + name)
  {
    var t := "var(--" + name + ")";
    assert t[..4] == "var(" && t[4..6] == "--";
    assert TokenNameFrom(t, 1) == TokenNameFrom(t, 2) == TokenNameFrom(t, 3) == TokenNameFrom(t, 4);
    assert t[6] == name[0];
    forall m | 6 <= m < |t| - 1 ensures t[m] != ')' {
      assert t[m] == name[m - 6];
    }
    CloseAt(t, 6, |t| - 1);
    assert t[4..|t| - 1] == "--" + name;
  }

  /** `CloseFrom` stops at the first `)`. */
  lemma {:induction false} CloseAt(s: string, j: nat, p: nat)
    requires j <= p < |s| && s[p] == ')'
    requires forall m :: j <= m < p ==> s[m] != ')'
    ensures CloseFrom(s, j) == p
    decreases p - j
  {
    if j < p {
      CloseAt(s, j + 1, p);
    }
  }

  /** A token without `--` has no variable name: the script throws on it. */
  lemma NoDashesNoName(token: string)
    requires '-' !in token
    ensures TokenName(token).None?
  {
    NoDashFrom(token, 0);
  }

  lemma {:induction false} NoDashFrom(token: string, i: nat)
    requires '-' !in token
    ensures TokenNameFrom(token, i).None?
    decreases |token| - i
  {
    if i + 3 <= |token| {
      assert token[i] != '-';
      NoDashFrom(token, i + 1);
    }
  }
}
