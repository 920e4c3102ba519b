/**
 * The agent's `web-browsing` tool
 * (server/utils/agents/aibitat/plugins/web-browsing.js): the provider
 * setting picks one of eight engines; an engine whose credentials are
 * missing narrates that and answers that search is disabled; otherwise it
 * narrates the query, makes one request, turns the answer into a list of
 * results and either reports that nothing was found or returns the list,
 * narrating its size and token count.
 *
 * The network, the URL builders, `JSON.stringify` and the tokenizer are
 * not modelled: the request's answer and the URL texts are inputs
 * (`World`), the rest are functions supplied in `Services`.
 */
module WebSearch {
  import opened Wrappers
  import opened Strings
  import opened JsValues
  import opened WebSearchText
  import DuckDuckGo

  datatype Engine = Google | SearchApi | Serper | Bing | Serply | SearXNG | Tavily | DuckDuckGoHtml

  /** The `agent_search_provider` value that selects each engine. */
  function ProviderId(e: Engine): string {
    match e
    case Google => "google-search-engine"
    case SearchApi => "searchapi"
    case Serper => "serper-dot-dev"
    case Bing => "bing-search"
    case Serply => "serply-engine"
    case SearXNG => "searxng-engine"
    case Tavily => "tavily-search"
    case DuckDuckGoHtml => "duckduckgo-engine"
  }

  /** `search`: the setting (`?.value ?? "unknown"`) mapped to an engine, Google by default. */
  function EngineFor(provider: Option<string>): (e: Engine)
    ensures e == Google || provider == Some(ProviderId(e))
  {
    var p := provider.GetOr("unknown");
    if p == "searchapi" then SearchApi
    else if p == "serper-dot-dev" then Serper
    else if p == "bing-search" then Bing
    else if p == "serply-engine" then Serply
    else if p == "searxng-engine" then SearXNG
    else if p == "tavily-search" then Tavily
    else if p == "duckduckgo-engine" then DuckDuckGoHtml
    else Google
  }

  /** Every engine is reachable, by exactly its own identifier. */
  lemma DispatchRoundTrip(e: Engine)
    ensures EngineFor(Some(ProviderId(e))) == e
  {
  }

  /** A missing, `null` or unrecognised setting falls back to Google. */
  lemma UnknownProviderUsesGoogle(provider: Option<string>)
    requires forall e: Engine :: provider != Some(ProviderId(e))
    ensures EngineFor(provider) == Google
  {
    if provider.Some? {
      assert provider != Some(ProviderId(SearchApi)) && provider != Some(ProviderId(Tavily));
    }
  }

  // ---------------------------------------------------------------- inputs

  /** The answer to the engine's one request: a rejected `fetch`, or an HTTP response. */
  datatype Response =
    | Unreachable(message: string)
    | Http(status: int, statusText: string, text: string, json: Parsed)

  /** What `res.json()` makes of the body. */
  datatype Parsed = Parsed(value: Json) | Malformed(message: string)

  /** `new URL(AGENT_SEARXNG_API_URL)` with the query parameters appended, as text, or the constructor's error. */
  datatype UrlParse = ValidUrl(href: string) | InvalidUrl(message: string)

  datatype World = World(response: Response, searxngUrl: UrlParse, duckDuckGoUrl: string)

  datatype Context = Context(provider: Option<string>, env: map<string, string>, caller: string)

  /** Functions of the runtime: `JSON.stringify`, the tokenizer's count and the text of a TypeError. */
  datatype Services = Services(stringify: Json -> string, countTokens: string -> nat, typeErrorText: string)

  /** `process.env[key]` is truthy. */
  predicate EnvSet(env: map<string, string>, key: string) {
    key in env && env[key] != ""
  }

  function EnvGet(env: map<string, string>, key: string): string {
    if key in env then env[key] else ""
  }

  /** The variables each engine checks before searching; DuckDuckGo needs none. */
  function Required(e: Engine): seq<string> {
    match e
    case Google => ["AGENT_GSE_CTX", "AGENT_GSE_KEY"]
    case SearchApi => ["AGENT_SEARCHAPI_API_KEY"]
    case Serper => ["AGENT_SERPER_DEV_KEY"]
    case Bing => ["AGENT_BING_SEARCH_API_KEY"]
    case Serply => ["AGENT_SERPLY_API_KEY"]
    case SearXNG => ["AGENT_SEARXNG_API_URL"]
    case Tavily => ["AGENT_TAVILY_API_KEY"]
    case DuckDuckGoHtml => []
  }

  predicate Configured(e: Engine, env: map<string, string>) {
    forall k :: k in Required(e) ==> EnvSet(env, k)
  }

  // --------------------------------------------------------------- outputs

  /** What an introspection line says; `NarrationText` gives its wording. */
  datatype Narration =
    | KeysMissing(engine: Engine)
    | UnusableUrl
    | SearchingFor(engine: Engine, query: string)
    | FoundResults(count: nat, tokens: nat)

  /** A line shown to the user (`introspect`, prefixed by the caller) or written to the log. */
  datatype Step = Introspect(caller: string, what: Narration) | Log(text: string)

  /** What the tool answers; `Raised` is an exception that reaches the handler's `catch`. */
  datatype Reply =
    | NothingToDo
    | Disabled
    | NoInformation
    | SearchFailed(message: string)
    | DuckDuckGoFailed
    | Found(data: seq<Json>)
    | Raised(message: string)

  /** The reply, the narration and log lines in order, and whether the request was made. */
  datatype Outcome = Outcome(reply: Reply, trace: seq<Step>, fetched: bool)

  /** The text the tool hands back to the agent. */
  function ReplyText(r: Reply, svc: Services): string {
    match r
    case NothingToDo => "There is nothing we can do. This function call returns no information."
    case Disabled => "Search is disabled and no content was found. This functionality is disabled because the user has not set it up yet."
    case NoInformation => "No information was found online for the search query."
    case SearchFailed(m) => "There was an error searching for content. " + m
    case DuckDuckGoFailed => "There was an error searching DuckDuckGo."
    case Found(data) => svc.stringify(Arr(data))
    case Raised(m) => "There was an error while calling the function. No data or response was found. Let the user know this was the error: " + m
  }

  function MissingText(e: Engine): string {
    match e
    case Google => "I can't use Google searching because the user has not defined the required API keys.\nVisit: https://programmablesearchengine.google.com/controlpanel/create to create the API keys."
    case SearchApi => "I can't use SearchApi searching because the user has not defined the required API key.\nVisit: https://www.searchapi.io/ to create the API key for free."
    case Serper => "I can't use Serper.dev searching because the user has not defined the required API key.\nVisit: https://serper.dev to create the API key for free."
    case Bing => "I can't use Bing Web Search because the user has not defined the required API key.\nVisit: https://portal.azure.com/ to create the API key."
    case Serply => "I can't use Serply.io searching because the user has not defined the required API key.\nVisit: https://serply.io to create the API key for free."
    case SearXNG => "I can't use SearXNG searching because the user has not defined the required base URL.\nPlease set this value in the agent skill settings."
    case Tavily => "I can't use Tavily searching because the user has not defined the required API key.\nVisit: https://tavily.com/ to create the API key."
    case DuckDuckGoHtml => ""
  }

  const InvalidUrlText: string := "I can't use SearXNG searching because the url provided is not a valid URL."

  function SearchingText(e: Engine, query: string): string {
    var q := "\"" + NarratedQuery(query) + "\"";
    match e
    case Google => "Searching on Google for " + q
    case SearchApi => "Using SearchApi to search for " + q
    case Serper => "Using Serper.dev to search for " + q
    case Bing => "Using Bing Web Search to search for " + q
    case Serply => "Using Serply to search for " + q
    case SearXNG => "Using SearXNG to search for " + q
    case Tavily => "Using Tavily to search for " + q
    case DuckDuckGoHtml => "Using DuckDuckGo to search for " + q
  }

  function FoundText(count: nat, tokens: nat): string {
    "I found " + NatToDecimal(count) + " results - reviewing the results now. (~" + FormatCount(tokens) + " tokens)"
  }

  function NarrationText(n: Narration): string {
    match n
    case KeysMissing(e) => MissingText(e)
    case UnusableUrl => InvalidUrlText
    case SearchingFor(e, query) => SearchingText(e, query)
    case FoundResults(count, tokens) => FoundText(count, tokens)
  }

  /** `this.super.introspect(`${this.caller}: …`)`. */
  function Say(ctx: Context, n: Narration): Step {
    Introspect(ctx.caller, n)
  }

  /** The text of a line as it is shown or logged. */
  function StepText(s: Step): string {
    match s
    case Introspect(caller, n) => caller + ": " + NarrationText(n)
    case Log(text) => text
  }

  /** The prefix of each engine's log line for a failed request. */
  function LogPrefix(e: Engine): string {
    match e
    case Google => "web-browsing: Google Search Error: "
    case SearchApi => "SearchApi Error: "
    case Serper => "Serper.dev Error: "
    case Bing => "Bing Web Search Error: "
    case Serply => "Serply Error: "
    case SearXNG => "SearXNG Search Error: "
    case Tavily => "Tavily Search Error: "
    case DuckDuckGoHtml => "DuckDuckGo Search Error: "
  }

  // ------------------------------------------------------------- the request

  /** The object logged with a non-2xx status: credentials cut by `middleTruncate(…, 5)`, or the URL. */
  /** A credential as logged: `middleTruncate(value, 5)`. */
  function Redacted(env: map<string, string>, key: string): Json {
    Str(MiddleTruncate(EnvGet(env, key), 5))
  }

  function ErrorParams(e: Engine, ctx: Context, query: string, w: World): Json {
    match e
    case Google => Obj(map["key" := Redacted(ctx.env, "AGENT_GSE_KEY"), "cx" := Redacted(ctx.env, "AGENT_GSE_CTX"), "q" := Str(query)])
    case SearchApi => Obj(map["auth" := Redacted(ctx.env, "AGENT_SEARCHAPI_API_KEY"), "q" := Str(query)])
    case Serper => Obj(map["auth" := Redacted(ctx.env, "AGENT_SERPER_DEV_KEY"), "q" := Str(query)])
    case Bing => Obj(map["auth" := Redacted(ctx.env, "AGENT_BING_SEARCH_API_KEY"), "q" := Str(query)])
    case Serply => Obj(map["auth" := Redacted(ctx.env, "AGENT_SERPLY_API_KEY"), "q" := Str(query)])
    case SearXNG => Obj(map["url" := Str(if w.searxngUrl.ValidUrl? then w.searxngUrl.href else "")])
    case Tavily => Obj(map["auth" := Redacted(ctx.env, "AGENT_TAVILY_API_KEY"), "q" := Str(query)])
    case DuckDuckGoHtml => Obj(map["url" := Str(w.duckDuckGoUrl)])
  }

  /** `${res.status} - ${res.statusText}. params: ${JSON.stringify(params)}`. */
  function StatusLine(status: int, statusText: string, params: string): (m: string)
    ensures m != ""
  {
    IntToDecimal(status) + " - " + statusText + ". params: " + params
  }

  predicate Ok(status: int) {
    200 <= status <= 299
  }

  /** The settled value of the request's promise chain before `.catch`: data, or the message of what was thrown. */
  datatype Fetched = Data(value: Json) | Failed(message: string)

  const UnauthorizedText: string := "Unauthorized. Please double check your AGENT_SERPLY_API_KEY"

  /** `fetch(…).then(res => res.ok ? res.json() : throw …)`, plus Serply's check of `data?.message`. */
  function FetchJson(e: Engine, r: Response, params: string): (f: Fetched)
    ensures r.Http? && !Ok(r.status) ==> f == Failed(StatusLine(r.status, r.statusText, params))
    ensures r.Unreachable? ==> f == Failed(r.message)
    ensures f.Data? ==> r.Http? && Ok(r.status) && r.json == Parsed(f.value)
    ensures r.Http? && Ok(r.status) && r.json.Malformed? ==> f == Failed(r.json.message)
    ensures r.Http? && Ok(r.status) && r.json.Parsed? && !(e == Serply && OptMember(Some(r.json.value), "message") == Some(Str("Unauthorized")))
      ==> f == Data(r.json.value)
  {
    match r
    case Unreachable(m) => Failed(m)
    case Http(status, statusText, _, json) =>
      if !Ok(status) then Failed(StatusLine(status, statusText, params))
      else
        match json
        case Malformed(m) => Failed(m)
        case Parsed(v) =>
          if e == Serply && OptMember(Some(v), "message") == Some(Str("Unauthorized")) then Failed(UnauthorizedText)
          else Data(v)
  }

  // ---------------------------------------------------- turning JSON into data

  /** Either the collected entries, or a TypeError thrown while collecting them. */
  datatype Extract = Items(xs: seq<Json>) | Throws

  /** Result fields and the source field each is read from, e.g. `link` from `url`. */
  type Shape = seq<(string, string)>

  predicate DistinctTargets(shape: Shape) {
    forall m, n :: 0 <= m < n < |shape| ==> shape[m].0 != shape[n].0
  }

  const TitleLinkSnippet: Shape := [("title", "title"), ("link", "link"), ("snippet", "snippet")]
  const BingShape: Shape := [("title", "name"), ("link", "url"), ("snippet", "snippet")]
  const SerplyShape: Shape := [("title", "title"), ("link", "link"), ("snippet", "description")]
  const SearXNGShape: Shape := [("title", "title"), ("link", "url"), ("snippet", "content"), ("publishedDate", "publishedDate")]
  const TavilyShape: Shape := [("title", "title"), ("link", "url"), ("snippet", "content")]

  /**
   * `{ a: item.x, b: item.y }` as `JSON.stringify` sees it: a field whose
   * source is `undefined` is absent; an item that is not an object has no fields.
   */
  function Project(item: Json, shape: Shape): (r: map<string, Json>)
    requires DistinctTargets(shape)
    ensures forall n :: 0 <= n < |shape| && item.Obj? && shape[n].1 in item.fields ==>
      shape[n].0 in r && r[shape[n].0] == item.fields[shape[n].1]
    ensures forall k :: k in r ==> exists n :: 0 <= n < |shape| && shape[n].0 == k && item.Obj? && shape[n].1 in item.fields
  {
    if shape == [] then map[]
    else
      var rest := Project(item, shape[1..]);
      var (target, source) := shape[0];
      assert forall n :: 1 <= n < |shape| ==> shape[n] == shape[1..][n - 1];
      if item.Obj? && source in item.fields then rest[target := item.fields[source]] else rest
  }

  /** The `forEach` callback over array elements: destructuring `null` throws. */
  function Records(items: seq<Json>, shape: Shape): (e: Extract)
    requires DistinctTargets(shape)
    ensures e.Throws? <==> exists k :: 0 <= k < |items| && items[k].Null?
    ensures e.Items? ==> |e.xs| == |items| && forall k :: 0 <= k < |items| ==> e.xs[k] == Obj(Project(items[k], shape))
  {
    if items == [] then Items([])
    else if items[0].Null? then Throws
    else
      match Records(items[1..], shape)
      case Throws => Throws
      case Items(xs) =>
        assert forall k :: 1 <= k < |items| ==> items[k] == items[1..][k - 1];
        Items([Obj(Project(items[0], shape))] + xs)
  }

  /** `list?.forEach(…)`: nothing for a nullish list; calling `forEach` on a non-array throws. */
  function ForEachRecord(list: Option<Json>, shape: Shape): (e: Extract)
    requires DistinctTargets(shape)
    ensures Nullish(list) ==> e == Items([])
    ensures !Nullish(list) && !list.value.Arr? ==> e.Throws?
    ensures !Nullish(list) && list.value.Arr? ==> e == Records(list.value.items, shape)
  {
    if Nullish(list) then Items([])
    else if !list.value.Arr? then Throws
    else Records(list.value.items, shape)
  }

  function Prepend(front: seq<Json>, e: Extract): (r: Extract)
    ensures front == [] ==> r == e
  {
    match e
    case Throws => Throws
    case Items(xs) =>
      assert front == [] ==> front + xs == xs;
      Items(front + xs)
  }

  /** `undefined` pushed into the array stringifies as `null`. */
  function Element(v: Option<Json>): Json {
    v.GetOr(Null)
  }

  /** Google and Bing catch request failures and answer with no information. */
  predicate Swallows(e: Engine) {
    e.Google? || e.Bing?
  }

  /** The other key-based engines and SearXNG hand request failures back to the agent. */
  predicate Reports(e: Engine) {
    e.SearchApi? || e.Serper? || e.Serply? || e.SearXNG? || e.Tavily?
  }

  /** A value placed before the records: `a.b` when `a` is an own key, or the whole of `a`. */
  datatype Front = Nested(outer: string, inner: string) | Whole(key: string)

  /** How an error-reporting engine reads its response: the leading values, the key of the result list, and the record shape. */
  datatype Recipe = Recipe(fronts: seq<Front>, listKey: string, shape: Shape)

  function RecipeOf(e: Engine): (r: Recipe)
    requires Reports(e)
    ensures DistinctTargets(r.shape)
  {
    match e
    case SearchApi => Recipe([Nested("knowledge_graph", "description"), Nested("answer_box", "answer")], "organic_results", TitleLinkSnippet)
    case Serper => Recipe([Whole("knowledgeGraph")], "organic", TitleLinkSnippet)
    case Serply => Recipe([], "results", SerplyShape)
    case SearXNG => Recipe([], "results", SearXNGShape)
    case Tavily => Recipe([], "results", TavilyShape)
  }

  /** `if (response.hasOwnProperty(a)) data.push(…)`. */
  function FrontValue(f: Front, response: Json): seq<Json> {
    match f
    case Nested(outer, inner) =>
      if HasOwn(response, outer) then [Element(OptMember(OptMember(Some(response), outer), inner))] else []
    case Whole(key) => if HasOwn(response, key) then [response.fields[key]] else []
  }

  function FrontValues(fronts: seq<Front>, response: Json): seq<Json> {
    if fronts == [] then [] else FrontValue(fronts[0], response) + FrontValues(fronts[1..], response)
  }

  /** What each error-reporting engine collects from the parsed response (`response` may be `null`). */
  function EngineData(e: Engine, response: Json): (x: Extract)
    requires Reports(e)
    ensures response.Null? ==> x.Throws?
  {
    if response.Null? then Throws
    else
      var r := RecipeOf(e);
      Prepend(FrontValues(r.fronts, response), ForEachRecord(OptMember(Some(response), r.listKey), r.shape))
  }

  /**
   * Google's and Bing's `.then` chain: the list (`items || []`, or
   * `data.webPages?.value || []`) mapped to records; anything thrown on the
   * way is caught, its message logged, and the data becomes `[]`.
   */
  function SwallowedData(e: Engine, f: Fetched, typeErrorText: string): (r: (seq<Json>, Option<string>))
    requires Swallows(e)
    ensures r.1.None? ==> f.Data?
    ensures f.Failed? ==> r == ([], Some(f.message))
    ensures r.1.Some? ==> r.0 == []
  {
    match f
    case Failed(m) => ([], Some(m))
    case Data(v) =>
      var list: Read := if e == Google then Got(OptMember(Some(v), "items"))
                        else match Member(Some(v), "webPages") case TypeError => TypeError case Got(w) => Got(OptMember(w, "value"));
      var shape := if e == Google then TitleLinkSnippet else BingShape;
      match list
      case TypeError => ([], Some(typeErrorText))
      case Got(items) =>
        if !TruthyOpt(items) then ([], None)
        else
          match ForEachRecord(items, shape)
          case Throws => ([], Some(typeErrorText))
          case Items(xs) => (xs, None)
  }

  // --------------------------------------------------------------- the engines

  /** A `Found` reply holds data, and the last step narrates its size and token count. */
  predicate NarratesFound(ctx: Context, svc: Services, o: Outcome) {
    o.reply.Found? ==> (o.reply.data != [] && o.trace != [] &&
      o.trace[|o.trace| - 1] == Say(ctx, FoundResults(|o.reply.data|, svc.countTokens(svc.stringify(Arr(o.reply.data))))))
  }

  /** The common ending: no data, or the data with its size and token count narrated. */
  function Finish(ctx: Context, svc: Services, data: seq<Json>, trace: seq<Step>): (o: Outcome)
    ensures o.fetched && |o.trace| >= |trace| && o.trace[..|trace|] == trace
    ensures data == [] ==> o == Outcome(NoInformation, trace, true)
    ensures data != [] ==> o.reply == Found(data)
    ensures NarratesFound(ctx, svc, o)
  {
    if data == [] then Outcome(NoInformation, trace, true)
    else Outcome(Found(data), trace + [Say(ctx, FoundResults(|data|, svc.countTokens(svc.stringify(Arr(data)))))], true)
  }

  /** Google and Bing: failures are logged and become "no information". */
  function Swallowing(e: Engine, ctx: Context, svc: Services, f: Fetched, trace: seq<Step>): (o: Outcome)
    requires Swallows(e)
    ensures o.fetched && |o.trace| >= |trace| && o.trace[..|trace|] == trace
    ensures o.reply == NoInformation || o.reply.Found?
    ensures f.Failed? ==> o == Outcome(NoInformation, trace + [Log(LogPrefix(e) + f.message)], true)
    ensures var (data, caught) := SwallowedData(e, f, svc.typeErrorText);
      f.Data? && data == [] ==> o.reply == NoInformation
    ensures var (data, caught) := SwallowedData(e, f, svc.typeErrorText);
      f.Data? && data != [] ==> o.reply == Found(data)
    ensures NarratesFound(ctx, svc, o)
  {
    var (data, caught) := SwallowedData(e, f, svc.typeErrorText);
    var t := if caught.Some? then trace + [Log(LogPrefix(e) + caught.value)] else trace;
    Finish(ctx, svc, data, t)
  }

  /** Engines that report request failures: `{ response, error }`, then `if (error)`. */
  function Reporting(e: Engine, ctx: Context, svc: Services, f: Fetched, trace: seq<Step>): (o: Outcome)
    requires Reports(e)
    ensures o.fetched && |o.trace| >= |trace| && o.trace[..|trace|] == trace
    ensures f.Failed? && f.message != "" ==> o == Outcome(SearchFailed(f.message), trace + [Log(LogPrefix(e) + f.message)], true)
    ensures f.Failed? && f.message == "" ==> o.reply == Raised(svc.typeErrorText)
    ensures o.reply.SearchFailed? ==> o.reply.message != ""
    ensures f.Data? && EngineData(e, f.value) == Items([]) ==> o == Outcome(NoInformation, trace, true)
    ensures f.Data? && EngineData(e, f.value).Items? && EngineData(e, f.value).xs != [] ==>
      o.reply == Found(EngineData(e, f.value).xs)
    ensures f.Data? && EngineData(e, f.value).Throws? ==> o == Outcome(Raised(svc.typeErrorText), trace, true)
    ensures NarratesFound(ctx, svc, o)
  {
    match f
    case Failed(m) =>
      var t := trace + [Log(LogPrefix(e) + m)];
      if m != "" then Outcome(SearchFailed(m), t, true)
      else Outcome(Raised(svc.typeErrorText), t, true)
    case Data(v) =>
      match EngineData(e, v)
      case Throws => Outcome(Raised(svc.typeErrorText), trace, true)
      case Items(xs) => Finish(ctx, svc, xs, trace)
  }

  /** DuckDuckGo: the page text, `null` on any failure, and `!response` answers with an error. */
  function DuckDuckGoRun(ctx: Context, svc: Services, w: World, params: string, trace: seq<Step>): (o: Outcome)
    ensures o.fetched && |o.trace| >= |trace| && o.trace[..|trace|] == trace
    ensures o.reply in {DuckDuckGoFailed, NoInformation} || o.reply.Found?
    ensures o.reply.Found? ==> w.response.Http? && o.reply.data == HitsJson(DuckDuckGo.ParseResults(w.response.text))
    ensures NarratesFound(ctx, svc, o)
  {
    var page: Option<string> := match w.response
      case Unreachable(m) => None
      case Http(status, statusText, text, _) => if Ok(status) then Some(text) else None;
    var t := match w.response
      case Unreachable(m) => trace + [Log(LogPrefix(DuckDuckGoHtml) + m)]
      case Http(status, statusText, _, _) =>
        if Ok(status) then trace else trace + [Log(LogPrefix(DuckDuckGoHtml) + StatusLine(status, statusText, params))];
    if page.None? || page.value == "" then Outcome(DuckDuckGoFailed, t, true)
    else Finish(ctx, svc, HitsJson(DuckDuckGo.ParseResults(page.value)), t)
  }

  /** The request and the answer for each engine, after the steps in `trace`; `params` is what a failure logs. */
  function Dispatch(e: Engine, ctx: Context, svc: Services, w: World, params: string, trace: seq<Step>): (o: Outcome)
    ensures o.fetched && |o.trace| >= |trace| && o.trace[..|trace|] == trace
    ensures NarratesFound(ctx, svc, o)
    ensures Swallows(e) ==> o.reply == NoInformation || o.reply.Found?
    ensures o.reply.SearchFailed? ==> Reports(e) && o.reply.message != ""
  {
    if e == DuckDuckGoHtml then DuckDuckGoRun(ctx, svc, w, params, trace)
    else if Swallows(e) then Swallowing(e, ctx, svc, FetchJson(e, w.response, params), trace)
    else Reporting(e, ctx, svc, FetchJson(e, w.response, params), trace)
  }

  /** A configured engine: narrate the query, make the request, and answer. */
  function Searching(e: Engine, ctx: Context, svc: Services, query: string, w: World): (o: Outcome)
    ensures o.fetched && o.trace != [] && o.trace[0] == Say(ctx, SearchingFor(e, query))
    ensures NarratesFound(ctx, svc, o)
    ensures Swallows(e) ==> o.reply == NoInformation || o.reply.Found?
    ensures o.reply.SearchFailed? ==> Reports(e) && o.reply.message != ""
  {
    var first := Say(ctx, SearchingFor(e, query));
    var o := Dispatch(e, ctx, svc, w, svc.stringify(ErrorParams(e, ctx, query, w)), [first]);
    assert o.trace[0] == first by {
      assert o.trace[..1] == [first] && o.trace[..1][0] == o.trace[0];
    }
    o
  }

  /** The engine chosen for `query`, from the credential check to the reply. */
  function RunEngine(e: Engine, ctx: Context, svc: Services, query: string, w: World): (o: Outcome)
    ensures e != DuckDuckGoHtml && !Configured(e, ctx.env) ==>
      o == Outcome(Disabled, [Say(ctx, KeysMissing(e))], false)
    ensures o.fetched <==> Configured(e, ctx.env) && !(e == SearXNG && w.searxngUrl.InvalidUrl?)
    ensures o.fetched ==> o == Searching(e, ctx, svc, query, w)
    ensures !o.fetched ==> o.reply == Disabled
  {
    if e != DuckDuckGoHtml && !Configured(e, ctx.env) then
      Outcome(Disabled, [Say(ctx, KeysMissing(e))], false)
    else if e == SearXNG && w.searxngUrl.InvalidUrl? then
      Outcome(Disabled, [Log("SearXNG Search: " + w.searxngUrl.message), Say(ctx, UnusableUrl)], false)
    else Searching(e, ctx, svc, query, w)
  }

  /** `{ title, link, snippet }` pushed for each scraped hit. */
  function HitsJson(hits: seq<DuckDuckGo.Hit>): (r: seq<Json>)
    ensures |r| == |hits|
    ensures forall k :: 0 <= k < |hits| ==>
      r[k] == Obj(map["title" := Str(hits[k].title), "link" := Str(hits[k].link), "snippet" := Str(hits[k].snippet)])
  {
    if hits == [] then []
    else [Obj(map["title" := Str(hits[0].title), "link" := Str(hits[0].link), "snippet" := Str(hits[0].snippet)])] + HitsJson(hits[1..])
  }

  /** `handler({ query })`: an empty query is refused; otherwise the configured engine runs. */
  function Handle(ctx: Context, svc: Services, query: string, w: World): (o: Outcome)
    ensures query == "" ==> o == Outcome(NothingToDo, [], false)
    ensures query != "" ==> o == RunEngine(EngineFor(ctx.provider), ctx, svc, query, w)
  {
    if query == "" then Outcome(NothingToDo, [], false)
    else RunEngine(EngineFor(ctx.provider), ctx, svc, query, w)
  }

  // ------------------------------------------------------------------ lemmas

  /** A configured engine that reports failures runs `Reporting` on its one request, after narrating the query. */
  lemma RunsReporting(e: Engine, ctx: Context, svc: Services, query: string, w: World)
    requires Reports(e)
    requires Configured(e, ctx.env) && !(e == SearXNG && w.searxngUrl.InvalidUrl?)
    ensures RunEngine(e, ctx, svc, query, w)
      == Reporting(e, ctx, svc, FetchJson(e, w.response, svc.stringify(ErrorParams(e, ctx, query, w))), [Say(ctx, SearchingFor(e, query))])
  {
    assert RunEngine(e, ctx, svc, query, w) == Searching(e, ctx, svc, query, w);
    var params := svc.stringify(ErrorParams(e, ctx, query, w));
    assert Searching(e, ctx, svc, query, w) == Dispatch(e, ctx, svc, w, params, [Say(ctx, SearchingFor(e, query))]);
  }

  /** A configured Google or Bing search runs `Swallowing` on its one request, after narrating the query. */
  lemma RunsSwallowing(e: Engine, ctx: Context, svc: Services, query: string, w: World)
    requires Swallows(e)
    requires Configured(e, ctx.env)
    ensures RunEngine(e, ctx, svc, query, w)
      == Swallowing(e, ctx, svc, FetchJson(e, w.response, svc.stringify(ErrorParams(e, ctx, query, w))), [Say(ctx, SearchingFor(e, query))])
  {
    assert RunEngine(e, ctx, svc, query, w) == Searching(e, ctx, svc, query, w);
    var params := svc.stringify(ErrorParams(e, ctx, query, w));
    assert Searching(e, ctx, svc, query, w) == Dispatch(e, ctx, svc, w, params, [Say(ctx, SearchingFor(e, query))]);
  }

  /** A non-2xx status is reported with the status line for engines that report failures. */
  lemma StatusFailureReported(e: Engine, ctx: Context, svc: Services, query: string, w: World)
    requires Reports(e)
    requires Configured(e, ctx.env) && !(e == SearXNG && w.searxngUrl.InvalidUrl?)
    requires w.response.Http? && !Ok(w.response.status)
    ensures var m := StatusLine(w.response.status, w.response.statusText, svc.stringify(ErrorParams(e, ctx, query, w)));
      RunEngine(e, ctx, svc, query, w).reply == SearchFailed(m)
  {
    RunsReporting(e, ctx, svc, query, w);
    var params := svc.stringify(ErrorParams(e, ctx, query, w));
    assert FetchJson(e, w.response, params) == Failed(StatusLine(w.response.status, w.response.statusText, params));
  }

  /** Google and Bing swallow the same failure: no information, and one log line. */
  lemma SwallowingEngines(e: Engine, ctx: Context, svc: Services, query: string, w: World)
    requires Swallows(e)
    requires Configured(e, ctx.env)
    requires w.response.Unreachable? && w.response.message != ""
    ensures RunEngine(e, ctx, svc, query, w) ==
      Outcome(NoInformation, [Say(ctx, SearchingFor(e, query)), Log(LogPrefix(e) + w.response.message)], true)
  {
    RunsSwallowing(e, ctx, svc, query, w);
    var params := svc.stringify(ErrorParams(e, ctx, query, w));
    assert FetchJson(e, w.response, params) == Failed(w.response.message);
    assert [Say(ctx, SearchingFor(e, query))] + [Log(LogPrefix(e) + w.response.message)]
      == [Say(ctx, SearchingFor(e, query)), Log(LogPrefix(e) + w.response.message)];
  }

  /** A Serply reply whose `message` is "Unauthorized" is reported as a credential problem. */
  lemma SerplyUnauthorized(ctx: Context, svc: Services, query: string, w: World)
    requires Configured(Serply, ctx.env)
    requires w.response.Http? && Ok(w.response.status) && w.response.json.Parsed?
    requires w.response.json.value == Obj(map["message" := Str("Unauthorized")])
    ensures RunEngine(Serply, ctx, svc, query, w).reply == SearchFailed(UnauthorizedText)
  {
    RunsReporting(Serply, ctx, svc, query, w);
    var params := svc.stringify(ErrorParams(Serply, ctx, query, w));
    assert OptMember(Some(w.response.json.value), "message") == Some(Str("Unauthorized"));
    assert FetchJson(Serply, w.response, params) == Failed(UnauthorizedText);
  }

  /**
   * A rejection with an empty message is not an `error` for the engines
   * that report failures: they go on with `response = null` and the
   * property read throws into the handler.
   */
  lemma EmptyFailureMessageRaises(e: Engine, ctx: Context, svc: Services, query: string, w: World)
    requires Reports(e)
    requires Configured(e, ctx.env) && !(e == SearXNG && w.searxngUrl.InvalidUrl?)
    requires w.response == Unreachable("")
    ensures RunEngine(e, ctx, svc, query, w).reply == Raised(svc.typeErrorText)
  {
    RunsReporting(e, ctx, svc, query, w);
    var params := svc.stringify(ErrorParams(e, ctx, query, w));
    assert FetchJson(e, w.response, params) == Failed("");
  }

  /** An engine without leading values collects exactly the records of its list when every element is an object. */
  lemma ListOnlyExtract(e: Engine, v: Json, items: seq<Json>)
    requires Reports(e) && RecipeOf(e).fronts == []
    requires v.Obj? && RecipeOf(e).listKey in v.fields && v.fields[RecipeOf(e).listKey] == Arr(items)
    requires forall k :: 0 <= k < |items| ==> items[k].Obj?
    ensures var r := Records(items, RecipeOf(e).shape);
      r.Items? && EngineData(e, v) == r
  {
    var recipe := RecipeOf(e);
    ListOfRecords(v, recipe.listKey, recipe.shape, items);
    forall k | 0 <= k < |items| ensures !items[k].Null? {
      assert items[k].Obj?;
    }
  }

  /** A list under `key` that is an array is collected record by record. */
  lemma ListOfRecords(v: Json, key: string, shape: Shape, items: seq<Json>)
    requires DistinctTargets(shape)
    requires v.Obj? && key in v.fields && v.fields[key] == Arr(items)
    ensures ForEachRecord(OptMember(Some(v), key), shape) == Records(items, shape)
  {
    assert OptMember(Some(v), key) == Some(Arr(items));
  }

  /** Any error-reporting engine: the leading values, then one record per list item. */
  lemma ListExtract(e: Engine, v: Json, items: seq<Json>)
    requires Reports(e)
    requires v.Obj? && RecipeOf(e).listKey in v.fields && v.fields[RecipeOf(e).listKey] == Arr(items)
    requires forall k :: 0 <= k < |items| ==> items[k].Obj?
    ensures var r := Records(items, RecipeOf(e).shape);
      r.Items? && EngineData(e, v) == Items(FrontValues(RecipeOf(e).fronts, v) + r.xs)
  {
    var recipe := RecipeOf(e);
    ListOfRecords(v, recipe.listKey, recipe.shape, items);
    forall k | 0 <= k < |items| ensures !items[k].Null? {
      assert items[k].Obj?;
    }
  }

  /**
   * SearchApi: `knowledge_graph.description` when `knowledge_graph` is an
   * own key, then `answer_box.answer` when `answer_box` is, then one
   * `{ title, link, snippet }` record per organic result.
   */
  lemma SearchApiResults(v: Json, items: seq<Json>)
    requires v.Obj? && "organic_results" in v.fields && v.fields["organic_results"] == Arr(items)
    requires forall k :: 0 <= k < |items| ==> items[k].Obj?
    ensures var graph := if "knowledge_graph" in v.fields then [Element(OptMember(Some(v.fields["knowledge_graph"]), "description"))] else [];
      var answer := if "answer_box" in v.fields then [Element(OptMember(Some(v.fields["answer_box"]), "answer"))] else [];
      EngineData(SearchApi, v) == Items(graph + answer + Records(items, TitleLinkSnippet).xs)
  {
    var f1 := Nested("knowledge_graph", "description");
    var f2 := Nested("answer_box", "answer");
    assert RecipeOf(SearchApi) == Recipe([f1, f2], "organic_results", TitleLinkSnippet);
    ListExtract(SearchApi, v, items);
    TwoFronts(f1, f2, v);
    NestedFront(v, "knowledge_graph", "description");
    NestedFront(v, "answer_box", "answer");
  }

  lemma TwoFronts(f1: Front, f2: Front, v: Json)
    ensures FrontValues([f1, f2], v) == FrontValue(f1, v) + FrontValue(f2, v)
  {
    assert [f1, f2][1..] == [f2] && [f2][1..] == [];
    assert FrontValues([f2], v) == FrontValue(f2, v) + [];
    assert FrontValue(f2, v) + [] == FrontValue(f2, v);
  }

  /** A nested front value reads the inner key of the outer value. */
  lemma NestedFront(v: Json, outer: string, inner: string)
    requires v.Obj?
    ensures FrontValue(Nested(outer, inner), v)
      == if outer in v.fields then [Element(OptMember(Some(v.fields[outer]), inner))] else []
  {
  }

  /** Serper: the whole `knowledgeGraph` when it is an own key, then one `{ title, link, snippet }` record per organic result. */
  lemma SerperResults(v: Json, items: seq<Json>)
    requires v.Obj? && "organic" in v.fields && v.fields["organic"] == Arr(items)
    requires forall k :: 0 <= k < |items| ==> items[k].Obj?
    ensures var graph := if "knowledgeGraph" in v.fields then [v.fields["knowledgeGraph"]] else [];
      EngineData(Serper, v) == Items(graph + Records(items, TitleLinkSnippet).xs)
  {
    var recipe := RecipeOf(Serper);
    ListExtract(Serper, v, items);
    assert FrontValues(recipe.fronts, v) == FrontValue(Whole("knowledgeGraph"), v) by {
      assert recipe.fronts[1..] == [];
    }
  }

  /** Google: `items` mapped to `{ title, link, snippet }`, one record per item, nothing logged. */
  lemma GoogleResults(v: Json, items: seq<Json>, typeErrorText: string)
    requires v.Obj? && "items" in v.fields && v.fields["items"] == Arr(items)
    requires forall k :: 0 <= k < |items| ==> items[k].Obj?
    ensures var r := SwallowedData(Google, Data(v), typeErrorText);
      r.1.None? && |r.0| == |items| && forall k :: 0 <= k < |items| ==> r.0[k] == Obj(Project(items[k], TitleLinkSnippet))
  {
    ListOfRecords(v, "items", TitleLinkSnippet, items);
    forall k | 0 <= k < |items| ensures !items[k].Null? {
      assert items[k].Obj?;
    }
  }

  /** Bing: `webPages.value` mapped to records whose title is the item's `name` and whose link is its `url`. */
  lemma BingResults(v: Json, pages: Json, items: seq<Json>, typeErrorText: string)
    requires v.Obj? && "webPages" in v.fields && v.fields["webPages"] == pages
    requires pages.Obj? && "value" in pages.fields && pages.fields["value"] == Arr(items)
    requires forall k :: 0 <= k < |items| ==> items[k].Obj?
    ensures var r := SwallowedData(Bing, Data(v), typeErrorText);
      r.1.None? && |r.0| == |items| && forall k :: 0 <= k < |items| ==> r.0[k] == Obj(Project(items[k], BingShape))
  {
    assert Member(Some(v), "webPages") == Got(Some(pages));
    ListOfRecords(pages, "value", BingShape, items);
    forall k | 0 <= k < |items| ensures !items[k].Null? {
      assert items[k].Obj?;
    }
  }

  /** Bing's record renames `name` to `title` and `url` to `link`, and keeps `snippet`. */
  lemma BingRenames(item: Json, name: Json, url: Json, snippet: Json)
    requires item.Obj? && "name" in item.fields && "url" in item.fields && "snippet" in item.fields
    requires item.fields["name"] == name && item.fields["url"] == url && item.fields["snippet"] == snippet
    ensures Project(item, BingShape) == map["title" := name, "link" := url, "snippet" := snippet]
  {
    var p := Project(item, BingShape);
    assert BingShape[0] == ("title", "name") && BingShape[1] == ("link", "url") && BingShape[2] == ("snippet", "snippet");
    assert p.Keys == {"title", "link", "snippet"};
  }

  /** Tavily's results become `{ title, link: url, snippet: content }`, one per result; no results is no information. */
  lemma TavilyResults(ctx: Context, svc: Services, query: string, w: World, results: seq<Json>)
    requires Configured(Tavily, ctx.env)
    requires w.response.Http? && Ok(w.response.status)
    requires w.response.json == Parsed(Obj(map["results" := Arr(results)]))
    requires forall k :: 0 <= k < |results| ==> results[k].Obj?
    ensures var o := RunEngine(Tavily, ctx, svc, query, w);
      results == [] ==> o.reply == NoInformation
    ensures var o := RunEngine(Tavily, ctx, svc, query, w);
      results != [] ==>
        o.reply.Found? && |o.reply.data| == |results| &&
        forall k :: 0 <= k < |results| ==> o.reply.data[k] == Obj(Project(results[k], TavilyShape))
  {
    RunsReporting(Tavily, ctx, svc, query, w);
    var v := Obj(map["results" := Arr(results)]);
    var params := svc.stringify(ErrorParams(Tavily, ctx, query, w));
    var trace := [Say(ctx, SearchingFor(Tavily, query))];
    assert FetchJson(Tavily, w.response, params) == Data(v);
    var r := Records(results, TavilyShape);
    ListOnlyExtract(Tavily, v, results);
    assert Reporting(Tavily, ctx, svc, Data(v), trace) == Finish(ctx, svc, r.xs, trace);
  }

  /** Google with an empty or missing `items` list finds nothing, and logs nothing. */
  lemma GoogleNoItems(ctx: Context, svc: Services, query: string, w: World, v: Json)
    requires Configured(Google, ctx.env)
    requires w.response.Http? && Ok(w.response.status) && w.response.json == Parsed(v)
    requires v.Obj? && ("items" !in v.fields || v.fields["items"] == Arr([]))
    ensures RunEngine(Google, ctx, svc, query, w) == Outcome(NoInformation, [Say(ctx, SearchingFor(Google, query))], true)
  {
    RunsSwallowing(Google, ctx, svc, query, w);
    var params := svc.stringify(ErrorParams(Google, ctx, query, w));
    assert FetchJson(Google, w.response, params) == Data(v);
    assert SwallowedData(Google, Data(v), svc.typeErrorText) == ([], None);
  }

  /** A reporting engine whose response holds only an empty result list answers that nothing was found. */
  lemma EmptyListNoInformation(e: Engine, ctx: Context, svc: Services, query: string, w: World)
    requires Reports(e)
    requires Configured(e, ctx.env) && !(e == SearXNG && w.searxngUrl.InvalidUrl?)
    requires w.response.Http? && Ok(w.response.status)
    requires w.response.json == Parsed(Obj(map[RecipeOf(e).listKey := Arr([])]))
    ensures RunEngine(e, ctx, svc, query, w) == Outcome(NoInformation, [Say(ctx, SearchingFor(e, query))], true)
  {
    RunsReporting(e, ctx, svc, query, w);
    var v := w.response.json.value;
    var params := svc.stringify(ErrorParams(e, ctx, query, w));
    assert FetchJson(e, w.response, params) == Data(v);
    assert EngineData(e, v) == Items([]) by {
      ListExtract(e, v, []);
      NoFrontValues(e, v);
    }
  }

  /** A response holding only the result list has no leading values. */
  lemma NoFrontValues(e: Engine, v: Json)
    requires Reports(e) && v == Obj(map[RecipeOf(e).listKey := Arr([])])
    ensures FrontValues(RecipeOf(e).fronts, v) == []
  {
    var fronts := RecipeOf(e).fronts;
    if e.SearchApi? {
      assert !HasOwn(v, "knowledge_graph") && !HasOwn(v, "answer_box");
      TwoFronts(fronts[0], fronts[1], v);
    } else if e.Serper? {
      assert !HasOwn(v, "knowledgeGraph");
      assert fronts[1..] == [];
    }
  }

  /** DuckDuckGo is always configured and runs `DuckDuckGoRun` after narrating the query. */
  lemma RunsDuckDuckGo(ctx: Context, svc: Services, query: string, w: World)
    ensures RunEngine(DuckDuckGoHtml, ctx, svc, query, w)
      == DuckDuckGoRun(ctx, svc, w, svc.stringify(ErrorParams(DuckDuckGoHtml, ctx, query, w)), [Say(ctx, SearchingFor(DuckDuckGoHtml, query))])
  {
    assert RunEngine(DuckDuckGoHtml, ctx, svc, query, w) == Searching(DuckDuckGoHtml, ctx, svc, query, w);
  }

  /** DuckDuckGo's data is exactly the scraped hits, never more than the page has result blocks. */
  lemma DuckDuckGoData(ctx: Context, svc: Services, query: string, w: World)
    requires w.response.Http? && Ok(w.response.status) && w.response.text != ""
    ensures var o := RunEngine(DuckDuckGoHtml, ctx, svc, query, w);
      var hits := DuckDuckGo.ParseResults(w.response.text);
      (hits == [] ==> o.reply == NoInformation) &&
      (hits != [] ==> o.reply == Found(HitsJson(hits))) &&
      |hits| <= |Split(w.response.text, DuckDuckGo.ResultMarker)| - 1
  {
    RunsDuckDuckGo(ctx, svc, query, w);
    var hits := DuckDuckGo.ParseResults(w.response.text);
    var trace := [Say(ctx, SearchingFor(DuckDuckGoHtml, query))];
    var params := svc.stringify(ErrorParams(DuckDuckGoHtml, ctx, query, w));
    assert DuckDuckGoRun(ctx, svc, w, params, trace) == Finish(ctx, svc, HitsJson(hits), trace);
  }

  /** An empty page, a failed request and a non-2xx status all answer with DuckDuckGo's error. */
  lemma DuckDuckGoFailure(ctx: Context, svc: Services, query: string, w: World)
    requires w.response.Unreachable? || !Ok(w.response.status) || w.response.text == ""
    ensures RunEngine(DuckDuckGoHtml, ctx, svc, query, w).reply == DuckDuckGoFailed
  {
    RunsDuckDuckGo(ctx, svc, query, w);
  }
}
