/**
 * Workspace settings and visibility (server/models/workspace.js): the
 * whitelist of writable fields, the per-field validation that clamps or
 * defaults every value, the update rule that clears the chat model with
 * the provider, which workspaces a user may see, and the membership
 * replacement that insists on an admin or manager.
 *
 * The database is a sequence of rows; `parseInt`/`parseFloat` are supplied
 * as `Parsers` (`None` is `NaN`).
 */
module Workspace {
  import opened Wrappers
  import opened JsValues

  /** `parseInt` and `parseFloat` on a request value; `None` is `NaN`. */
  datatype Parsers = Parsers(parseInt: Json -> Option<int>, parseFloat: Json -> Option<real>)

  /** Parsers that read a number back as itself (what both functions do to a finite JS number they produced). */
  ghost predicate SaneParsers(p: Parsers) {
    && (forall x: real :: p.parseFloat(Num(x)) == Some(x))
    && (forall n: int :: p.parseInt(Num(n as real)) == Some(n))
  }

  const Writable: set<string> := {
    "name", "openAiTemp", "openAiHistory", "lastUpdatedAt", "openAiPrompt",
    "similarityThreshold", "chatProvider", "chatModel", "topN", "chatMode",
    "agentProvider", "agentModel", "queryRefusalResponse", "private", "vectorSearchMode"
  }

  /** `!value || typeof value !== "string"`: not a non-empty string. */
  predicate NotText(v: Json) {
    !Truthy(v) || !v.Str?
  }

  function Name(v: Json): (r: Json)
    ensures NotText(v) ==> r == Str("My Workspace")
    ensures !NotText(v) ==> r.Str? && |r.s| == (if |v.s| < 255 then |v.s| else 255) && r.s == v.s[..|r.s|]
    ensures r.Str? && r.s != [] && |r.s| <= 255
  {
    if NotText(v) then Str("My Workspace")
    else if |v.s| <= 255 then v else Str(v.s[..255])
  }

  function OpenAiTemp(v: Json, p: Parsers): (r: Json)
    ensures r.Null? || (r.Num? && r.x >= 0.0)
    ensures r.Num? <==> !v.Null? && p.parseFloat(v).Some? && p.parseFloat(v).value >= 0.0
    ensures r.Num? ==> r.x == p.parseFloat(v).value
  {
    if v.Null? then Null
    else
      match p.parseFloat(v)
      case None => Null
      case Some(t) => if t < 0.0 then Null else Num(t)
  }

  /** A whole number as JSON. */
  function Int(n: int): Json {
    Num(n as real)
  }

  function OpenAiHistory(v: Json, p: Parsers): (r: Json)
    ensures exists n: int :: n >= 0 && r == Int(n)
    ensures v.Null? || p.parseInt(v).None? ==> r == Int(20)
    ensures !v.Null? && p.parseInt(v).Some? ==> r == Int(if p.parseInt(v).value < 0 then 0 else p.parseInt(v).value)
  {
    if v.Null? then Int(20)
    else
      match p.parseInt(v)
      case None => Int(20)
      case Some(h) => if h < 0 then Int(0) else Int(h)
  }

  function SimilarityThreshold(v: Json, p: Parsers): (r: Json)
    ensures r.Num? && 0.0 <= r.x <= 1.0
    ensures v.Null? || p.parseFloat(v).None? ==> r == Num(0.25)
    ensures !v.Null? && p.parseFloat(v).Some? && 0.0 <= p.parseFloat(v).value <= 1.0 ==> r == Num(p.parseFloat(v).value)
    ensures !v.Null? && p.parseFloat(v).Some? && p.parseFloat(v).value < 0.0 ==> r == Num(0.0)
    ensures !v.Null? && p.parseFloat(v).Some? && p.parseFloat(v).value > 1.0 ==> r == Num(1.0)
  {
    if v.Null? then Num(0.25)
    else
      match p.parseFloat(v)
      case None => Num(0.25)
      case Some(t) => if t < 0.0 then Num(0.0) else if t > 1.0 then Num(1.0) else Num(t)
  }

  function TopN(v: Json, p: Parsers): (r: Json)
    ensures exists n: int :: n >= 1 && r == Int(n)
    ensures v.Null? || p.parseInt(v).None? ==> r == Int(4)
    ensures !v.Null? && p.parseInt(v).Some? ==> r == Int(if p.parseInt(v).value < 1 then 1 else p.parseInt(v).value)
  {
    if v.Null? then Int(4)
    else
      match p.parseInt(v)
      case None => Int(4)
      case Some(n) => if n < 1 then Int(1) else Int(n)
  }

  /** `value` if it is one of `allowed`, else `fallback` (`!value || !allowed.includes(value)`). */
  function OneOf(v: Json, allowed: set<string>, fallback: string): (r: Json)
    requires fallback in allowed
    ensures r.Str? && r.s in allowed
    ensures v.Str? && v.s in allowed ==> r == v
    ensures !(v.Str? && v.s in allowed) ==> r == Str(fallback)
  {
    if v.Str? && v.s in allowed then v else Str(fallback)
  }

  /** `chatProvider`/`agentProvider`: a non-empty string other than "none", else `null`. */
  function Provider(v: Json): (r: Json)
    ensures r.Null? || (r.Str? && r.s != "" && r.s != "none")
    ensures r.Str? <==> v.Str? && v.s != "" && v.s != "none"
    ensures r.Str? ==> r == v
  {
    if NotText(v) || v.s == "none" then Null else v
  }

  /** A non-empty string, else `null`. */
  function Text(v: Json): (r: Json)
    ensures r.Null? || (r.Str? && r.s != "")
    ensures r.Str? <==> v.Str? && v.s != ""
    ensures r.Str? ==> r == v
  {
    if NotText(v) then Null else v
  }

  /** `validations[key](value)`, or the value itself for a writable key without a validation. */
  function Validate(key: string, v: Json, p: Parsers): Json {
    if key == "name" then Name(v)
    else if key == "openAiTemp" then OpenAiTemp(v, p)
    else if key == "openAiHistory" then OpenAiHistory(v, p)
    else if key == "similarityThreshold" then SimilarityThreshold(v, p)
    else if key == "topN" then TopN(v, p)
    else if key == "chatMode" then OneOf(v, {"chat", "query"}, "chat")
    else if key == "chatProvider" || key == "agentProvider" then Provider(v)
    else if key in {"chatModel", "agentModel", "queryRefusalResponse", "openAiPrompt"} then Text(v)
    else if key == "private" then Bool(Truthy(v))
    else if key == "vectorSearchMode" then OneOf(v, {"default", "rerank"}, "default")
    else v
  }

  /** `validateFields`: the writable keys of the request, each validated. */
  function ValidateFields(updates: map<string, Json>, p: Parsers): (r: map<string, Json>)
    ensures r.Keys == updates.Keys * Writable
    ensures forall k :: k in r ==> r[k] == Validate(k, updates[k], p)
  {
    map k | k in updates.Keys * Writable :: Validate(k, updates[k], p)
  }

  /** The columns that are never writable through an update. */
  lemma ProtectedColumns(updates: map<string, Json>, p: Parsers)
    ensures "slug" !in ValidateFields(updates, p)
    ensures "vectorTag" !in ValidateFields(updates, p)
    ensures "pfpFilename" !in ValidateFields(updates, p)
    ensures "id" !in ValidateFields(updates, p)
  {
  }

  /** Validating a value validation produced changes nothing. */
  lemma {:induction false} ValidateIdempotent(key: string, v: Json, p: Parsers)
    requires SaneParsers(p)
    ensures Validate(key, Validate(key, v, p), p) == Validate(key, v, p)
  {
    var r := Validate(key, v, p);
    if key == "openAiHistory" {
      var n: int :| n >= 0 && r == Int(n);
      assert p.parseInt(Num(n as real)) == Some(n);
    } else if key == "topN" {
      var n: int :| n >= 1 && r == Int(n);
      assert p.parseInt(Num(n as real)) == Some(n);
    } else if key == "openAiTemp" && r.Num? {
      assert p.parseFloat(Num(r.x)) == Some(r.x);
    } else if key == "similarityThreshold" {
      assert p.parseFloat(Num(r.x)) == Some(r.x);
    }
  }

  /** `validateFields` is idempotent. */
  lemma ValidateFieldsIdempotent(updates: map<string, Json>, p: Parsers)
    requires SaneParsers(p)
    ensures ValidateFields(ValidateFields(updates, p), p) == ValidateFields(updates, p)
  {
    var once := ValidateFields(updates, p);
    forall k | k in once
      ensures Validate(k, once[k], p) == once[k]
    {
      ValidateIdempotent(k, updates[k], p);
    }
  }

  /** What `update` does with a request. */
  datatype UpdateResult =
    | NoId               // throws "No workspace id provided for update"
    | NothingToUpdate    // `{ workspace: { id }, message: "No valid fields to update!" }`
    | Write(data: map<string, Json>)

  /** `update(id, updates)`: validate; a provider reset to "default" also clears the model. */
  function Update(id: Json, updates: map<string, Json>, p: Parsers): (r: UpdateResult)
    ensures !Truthy(id) <==> r.NoId?
    ensures r.NothingToUpdate? <==> Truthy(id) && updates.Keys * Writable == {}
    ensures r.Write? ==> r.data.Keys != {} && r.data.Keys <= Writable
    ensures r.Write? && "chatProvider" in r.data ==> r.data["chatProvider"] != Str("default")
    ensures r.Write? ==> forall k :: k in r.data && k != "chatProvider" && k != "chatModel" ==>
      k in updates && r.data[k] == Validate(k, updates[k], p)
  {
    if !Truthy(id) then NoId
    else
      var v := ValidateFields(updates, p);
      if v.Keys == {} then NothingToUpdate
      else if "chatProvider" in v && v["chatProvider"] == Str("default") then
        Write(v["chatProvider" := Null]["chatModel" := Null])
      else Write(v)
  }

  /** Resetting the provider to "default" writes `null` for both the provider and the model, and every other validated field as usual. */
  lemma DefaultProviderClearsModel(id: Json, updates: map<string, Json>, p: Parsers)
    requires Truthy(id) && "chatProvider" in updates && updates["chatProvider"] == Str("default")
    ensures var r := Update(id, updates, p);
      r.Write? && r.data["chatProvider"] == Null && r.data["chatModel"] == Null
    ensures Update(id, updates, p) == Write(ValidateFields(updates, p)["chatProvider" := Null]["chatModel" := Null])
  {
    assert "chatProvider" in ValidateFields(updates, p);
  }

  /** Any other request writes exactly the validated fields. */
  lemma UpdateWritesValidated(id: Json, updates: map<string, Json>, p: Parsers)
    requires Truthy(id) && updates.Keys * Writable != {}
    requires !("chatProvider" in updates && updates["chatProvider"] == Str("default"))
    ensures Update(id, updates, p) == Write(ValidateFields(updates, p))
  {
    var v := ValidateFields(updates, p);
    if "chatProvider" in v {
      assert v["chatProvider"] == Provider(updates["chatProvider"]);
    }
  }

  // ------------------------------------------------------------- visibility

  datatype Role = Admin | Manager | Default

  datatype User = User(id: int, role: Role)

  /** A workspace row with the ids of its members (`workspace_users`). */
  datatype Row = Row(id: int, private: bool, members: set<int>)

  /**
   * The filter `getWithUser` adds to the caller's clause: an admin sees
   * public workspaces and their own; anyone else only workspaces they belong
   * to; without a user there is no filter.
   */
  predicate Visible(user: Option<User>, w: Row) {
    match user
    case None => true
    case Some(u) => if u.role == Admin then !w.private || u.id in w.members else u.id in w.members
  }

  /** An admin sees at least what any other role with the same id sees. */
  lemma AdminSeesMore(id: int, role: Role, w: Row)
    ensures Visible(Some(User(id, role)), w) ==> Visible(Some(User(id, Admin)), w)
  {
  }

  /** `getWithUser`: the first row matching the clause and visible to the user. */
  function GetWithUser(rows: seq<Row>, user: Option<User>, clause: Row -> bool): (r: Option<Row>)
    ensures r.Some? ==> r.value in rows && clause(r.value) && Visible(user, r.value)
    ensures r.None? <==> forall k :: 0 <= k < |rows| ==> !(clause(rows[k]) && Visible(user, rows[k]))
  {
    if rows == [] then None
    else if clause(rows[0]) && Visible(user, rows[0]) then Some(rows[0])
    else
      var r := GetWithUser(rows[1..], user, clause);
      assert forall k :: 1 <= k < |rows| ==> rows[k] == rows[1..][k - 1];
      r
  }

  /** The rows matching the clause and visible to the user, in table order. */
  function Matching(rows: seq<Row>, user: Option<User>, clause: Row -> bool): (r: seq<Row>)
    ensures forall w :: w in r <==> w in rows && clause(w) && Visible(user, w)
    ensures |r| <= |rows|
  {
    if rows == [] then []
    else (if clause(rows[0]) && Visible(user, rows[0]) then [rows[0]] else []) + Matching(rows[1..], user, clause)
  }

  /** `whereWithUser`: `user.role` on a missing user throws and the catch answers `[]`; `take: limit`. */
  function WhereWithUser(rows: seq<Row>, user: Option<User>, clause: Row -> bool, limit: Option<nat>): (r: seq<Row>)
    ensures user.None? ==> r == []
    ensures user.Some? ==> r == Take(Matching(rows, user, clause), limit)
  {
    if user.None? then [] else Take(Matching(rows, user, clause), limit)
  }

  function Take(xs: seq<Row>, limit: Option<nat>): (r: seq<Row>)
    ensures limit.None? ==> r == xs
    ensures limit.Some? ==> r == xs[..if limit.value < |xs| then limit.value else |xs|]
  {
    match limit
    case None => xs
    case Some(n) => if n < |xs| then xs[..n] else xs
  }

  /** The single-row and the many-row queries agree: `getWithUser` is the first row `whereWithUser` lists. */
  lemma {:induction false} GetIsFirstOfWhere(rows: seq<Row>, user: User, clause: Row -> bool)
    ensures var all := WhereWithUser(rows, Some(user), clause, None);
      GetWithUser(rows, Some(user), clause) == if all == [] then None else Some(all[0])
  {
    if rows != [] {
      GetIsFirstOfWhere(rows[1..], user, clause);
    }
  }

  // ------------------------------------------------------------ membership

  datatype MembershipResult = Replaced | Refused(error: string)

  const NeedsManagerText: string := "Workspace must include at least one admin or manager user."

  /** Some listed id belongs to an admin or a manager (`User.count(…) > 0`). */
  predicate HasManager(userIds: seq<int>, users: map<int, Role>) {
    exists k :: 0 <= k < |userIds| && userIds[k] in users && users[userIds[k]] in {Admin, Manager}
  }

  /**
   * `updateUsers`: refuse a list without an admin or manager, leaving the
   * membership as it was; otherwise replace it with the listed ids.
   */
  function UpdateUsers(members: set<int>, userIds: seq<int>, users: map<int, Role>): (r: (MembershipResult, set<int>))
    ensures r.0 == Replaced <==> HasManager(userIds, users)
    ensures r.0.Refused? ==> r == (Refused(NeedsManagerText), members)
    ensures r.0 == Replaced ==> forall id :: id in r.1 <==> id in userIds
  {
    if HasManager(userIds, users) then (Replaced, set k | 0 <= k < |userIds| :: userIds[k])
    else (Refused(NeedsManagerText), members)
  }
}
