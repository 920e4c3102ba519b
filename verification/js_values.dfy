/**
 * Values as JavaScript sees a parsed JSON document, with the three
 * operations the modelled code applies to them: truthiness, `v.key` (which
 * throws on `null`/`undefined`) and `v?.key` (which does not).
 * `undefined` is `None` wherever an `Option<Json>` appears.
 */
module JsValues {
  import opened Wrappers

  /** A JSON value. Numbers are exact reals: JSON never yields NaN. */
  datatype Json =
    | Null
    | Bool(b: bool)
    | Num(x: real)
    | Str(s: string)
    | Arr(items: seq<Json>)
    | Obj(fields: map<string, Json>)

  /** `Boolean(v)`. */
  predicate Truthy(v: Json) {
    match v
    case Null => false
    case Bool(b) => b
    case Num(x) => x != 0.0
    case Str(s) => s != ""
    case Arr(_) => true
    case Obj(_) => true
  }

  /** `Boolean(v)` where `v` may be `undefined`. */
  predicate TruthyOpt(v: Option<Json>) {
    v.Some? && Truthy(v.value)
  }

  /** `null` or `undefined`. */
  predicate Nullish(v: Option<Json>) {
    v.None? || v.value.Null?
  }

  /** The result of a property read: a value (possibly `undefined`) or a thrown TypeError. */
  datatype Read = Got(v: Option<Json>) | TypeError

  /**
   * `v.key`: reading a property of `null` or `undefined` throws; an object
   * yields its own field; any other value has none of the keys read here.
   */
  function Member(v: Option<Json>, key: string): (r: Read)
    ensures r.TypeError? <==> Nullish(v)
    ensures r.Got? && r.v.Some? ==> v.Some? && v.value.Obj? && key in v.value.fields
    ensures v.Some? && v.value.Obj? && key in v.value.fields ==> r == Got(Some(v.value.fields[key]))
  {
    match v
    case None => TypeError
    case Some(Null) => TypeError
    case Some(Obj(f)) => Got(if key in f then Some(f[key]) else None)
    case Some(_) => Got(None)
  }

  /** `v?.key`: `undefined` when `v` is `null` or `undefined`, else `v.key`. */
  function OptMember(v: Option<Json>, key: string): (r: Option<Json>)
    ensures Nullish(v) ==> r.None?
    ensures !Nullish(v) ==> Member(v, key) == Got(r)
  {
    match Member(v, key)
    case TypeError => None
    case Got(x) => x
  }

  /** `v.hasOwnProperty(key)` on a value that is not `null`/`undefined`. */
  predicate HasOwn(v: Json, key: string) {
    v.Obj? && key in v.fields
  }

  /**
   * `String(v)` / template interpolation: strings as they are, `null`,
   * booleans, arrays joined by "," with `null` elements empty, objects as
   * "[object Object]"; numbers are rendered by `numText`.
   */
  function JsString(v: Json, numText: real -> string): (r: string)
    ensures v.Str? ==> r == v.s
    decreases v
  {
    match v
    case Null => "null"
    case Bool(b) => if b then "true" else "false"
    case Num(x) => numText(x)
    case Str(s) => s
    case Arr(items) => JoinComma(seq(|items|, k requires 0 <= k < |items| => if items[k].Null? then "" else JsString(items[k], numText)))
    case Obj(_) => "[object Object]"
  }

  function JoinComma(parts: seq<string>): string {
    if |parts| == 0 then ""
    else if |parts| == 1 then parts[0]
    else parts[0] + "," + JoinComma(parts[1..])
  }

  /** `a || b || …`: the first truthy value, if any. */
  function FirstTruthy(vs: seq<Option<Json>>): (r: Option<Json>)
    ensures r.Some? ==> Truthy(r.value) && r.value in Values(vs)
    ensures r.None? <==> forall k :: 0 <= k < |vs| ==> !TruthyOpt(vs[k])
    ensures forall i :: 0 <= i < |vs| && TruthyOpt(vs[i]) && (forall j :: 0 <= j < i ==> !TruthyOpt(vs[j])) ==> r == vs[i]
  {
    if vs == [] then None
    else if TruthyOpt(vs[0]) then vs[0]
    else
      var r := FirstTruthy(vs[1..]);
      assert forall k :: 1 <= k < |vs| ==> vs[k] == vs[1..][k - 1];
      assert Values(vs[1..]) <= Values(vs);
      r
  }

  /** The defined values among `vs`. */
  function Values(vs: seq<Option<Json>>): set<Json> {
    set k | 0 <= k < |vs| && vs[k].Some? :: vs[k].value
  }
}
