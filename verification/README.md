# OneNew / Triune core, modelled in Dafny

This project models the decision logic at the centre of the OneNew fork of
AnythingLLM and of its Triune model-compression tool chain. Each part is a
pure function over immutable values, with properties of the code proved
about it. What the model leaves open is listed under "Left out".

- **Agent web browsing** (`web-browsing.js`): the handler and the provider
  dispatch. It also covers the eight search engines:
  - their "not configured" replies;
  - the narrated query;
  - how each engine turns a fetch outcome into results or an error;
  - the HTML result parser for DuckDuckGo;
  - the key redaction (`middleTruncate`);
  - the thousands grouping of the token count.
- **Workspaces** (`workspace.js`): the field validations, `validateFields`,
  `update`, `getWithUser` / `whereWithUser` visibility, and the
  admin-or-manager rule of `updateUsers`.
- **Chat attachments** (`attachments.js`): the attachment cache key, the
  fallback summary, de-duplicated summary contexts from attachments and chat
  history, the "answer from summaries" gate, and the summary reply.
- **Password modal** (`usePasswordModal`): the decision whether a login is
  required, and which stored credentials are cleared.
- **Colour audit and codemod scripts**: hex colour scanning, nearest brand
  token, usage guess, CSV rows and the unique map. For the codemod: argument
  handling, reading the mapping CSV, and the token-name extraction.
- **Triune**:
  - the post-NAS greedy layer search (`postnas.py`);
  - expert pruning (`prune.py`);
  - the BitLinear module swapper (`swapper.py`), covering module-tree
    walking, parent resolution, conversion and the manifest;
  - `ternarize` (`bitlinear.py`);
  - the argument handling of the CPU runner (`main.cpp`).

Shared modules:

- `Wrappers`: `Option`.
- `Strings`: search, split, join, trim, decimal text.
- `JsValues`: a JSON/JavaScript value with truthiness and optional property reads.
- `StableSort`: a stable insertion sort, for Python's `sorted`.
- `Greedy`: the take-if-it-fits loop shared by the layer search and the pruner.

Effects are parameters:

- the network: a `Response` value, or a failure message;
- `process.env`: a map;
- JSON parsing and serialisation;
- the tokenizer's count;
- `parseInt` / `parseFloat`;
- the prompt patterns;
- `System.checkAuth`;
- the per-row scale of a converted layer.

## Model

| member | source | states |
|---|---|---|
| WebSearch.EngineFor | server/utils/agents/aibitat/plugins/web-browsing.js:63-96 | the engine chosen is the one whose provider id was configured; any other or missing setting falls back to Google |
| WebSearch.DispatchRoundTrip | server/utils/agents/aibitat/plugins/web-browsing.js:68-92 | every engine is reached by its own provider id: the switch has no shadowed case |
| WebSearch.UnknownProviderUsesGoogle | server/utils/agents/aibitat/plugins/web-browsing.js:93-95 | a provider id that names no engine runs Google |
| WebSearch.Handle | server/utils/agents/aibitat/plugins/web-browsing.js:49-55 | an empty query returns the "nothing we can do" text without searching; any other query runs the configured engine |
| WebSearch.RunEngine | server/utils/agents/aibitat/plugins/web-browsing.js:116-122 | an engine missing its keys narrates the setup hint and answers "disabled" without fetching; it fetches exactly when configured and, for SearXNG, when the base URL parses |
| WebSearch.Searching | server/utils/agents/aibitat/plugins/web-browsing.js:131-135 | every search first narrates the query; Google and Bing never report an error; an error report comes only from the reporting engines and carries a non-empty message |
| WebSearch.FetchJson | server/utils/agents/aibitat/plugins/web-browsing.js:136-142 | a non-2xx reply becomes the error "status - statusText. params: …"; an unreachable server yields its own message; a 2xx reply whose body does not parse yields the parser's message; a 2xx parsed body is the data, except Serply's "Unauthorized" message; data exists only for a 2xx parsed reply |
| WebSearch.StatusLine | server/utils/agents/aibitat/plugins/web-browsing.js:139-141 | the status error message is never empty |
| WebSearch.SwallowedData | server/utils/agents/aibitat/plugins/web-browsing.js:153-161 | for Google and Bing, a failure leaves no results and keeps only the message for the log |
| WebSearch.Swallowing | server/utils/agents/aibitat/plugins/web-browsing.js:136-170 | a Google or Bing failure is logged with the engine's prefix and answered as "no information found"; on data, an empty record list answers "no information found" and a non-empty one is returned as found |
| WebSearch.Reporting | server/utils/agents/aibitat/plugins/web-browsing.js:213-243 | a failure with a message is logged and returned as the search-error text; an empty message falls through to the caught TypeError; on data, an extraction that throws is the TypeError, no extracted items is "no information found" and any items are returned as found |
| WebSearch.Project | server/utils/agents/aibitat/plugins/web-browsing.js:225-233 | a result record holds exactly the source fields the item has, each under its output name |
| WebSearch.Records | server/utils/agents/aibitat/plugins/web-browsing.js:431-438 | the mapping throws exactly when some item is null; otherwise one projected record per item, in order |
| WebSearch.ForEachRecord | server/utils/agents/aibitat/plugins/web-browsing.js:502-509 | `list?.forEach` does nothing on a missing list, throws on a non-array, and maps an array item by item |
| WebSearch.EngineData | server/utils/agents/aibitat/plugins/web-browsing.js:221-233 | a null JSON body makes every reporting engine throw when it reads its result list |
| WebSearch.GoogleResults | server/utils/agents/aibitat/plugins/web-browsing.js:143-151 | a Google body whose `items` is a list of objects gives one `{title, link, snippet}` record per item, in order, and logs nothing |
| WebSearch.BingResults | server/utils/agents/aibitat/plugins/web-browsing.js:343-348 | Bing's `webPages.value` list of objects gives one record per item, in order, and logs nothing |
| WebSearch.BingRenames | server/utils/agents/aibitat/plugins/web-browsing.js:344-348 | a Bing record takes its title from `name`, its link from `url` and its snippet from `snippet` |
| WebSearch.SearchApiResults | server/utils/agents/aibitat/plugins/web-browsing.js:221-233 | SearchApi answers `knowledge_graph.description` when that key is present, then `answer_box.answer` when present, then one record per organic result |
| WebSearch.SerperResults | server/utils/agents/aibitat/plugins/web-browsing.js:291-301 | Serper answers the whole `knowledgeGraph` when present, then one record per organic result |
| WebSearch.ListExtract | server/utils/agents/aibitat/plugins/web-browsing.js:221-233 | a reporting engine's data is its leading values followed by one record per list item, in order |
| WebSearch.ListOnlyExtract | server/utils/agents/aibitat/plugins/web-browsing.js:431-438 | for Serply, SearXNG and Tavily, whose answer is only the result list, the records are exactly the list items mapped one-for-one when every item is an object |
| WebSearch.Finish | server/utils/agents/aibitat/plugins/web-browsing.js:162-170 | no data answers "no information found" without narration; data is returned and its count is narrated |
| WebSearch.DuckDuckGoRun | server/utils/agents/aibitat/plugins/web-browsing.js:594-651 | DuckDuckGo answers with its error text, "no information", or exactly the hits parsed from the page |
| WebSearch.HitsJson | server/utils/agents/aibitat/plugins/web-browsing.js:638 | each hit becomes an object with exactly its title, link and snippet |
| WebSearch.StatusFailureReported | server/utils/agents/aibitat/plugins/web-browsing.js:204-218 | a configured reporting engine that gets a non-2xx status replies with the status line, including the redacted params |
| WebSearch.SwallowingEngines | server/utils/agents/aibitat/plugins/web-browsing.js:336-356 | an unreachable server under Google or Bing is narrated, logged, and answered as "no information" |
| WebSearch.SerplyUnauthorized | server/utils/agents/aibitat/plugins/web-browsing.js:414-420 | a Serply body `{message: "Unauthorized"}` is reported as the key-check error |
| WebSearch.EmptyFailureMessageRaises | server/utils/agents/aibitat/plugins/web-browsing.js:213-221 | an error with an empty message is not reported, so reading the null result list raises a TypeError, which the handler reports |
| WebSearch.TavilyResults | server/utils/agents/aibitat/plugins/web-browsing.js:565-576 | Tavily results map one-for-one, in order, to title/link/snippet records, and an empty result list answers "no information found" |
| WebSearch.GoogleNoItems | server/utils/agents/aibitat/plugins/web-browsing.js:143-161 | a Google reply with an empty or missing `items` list answers "no information found" right after the query narration, logging nothing |
| WebSearch.EmptyListNoInformation | server/utils/agents/aibitat/plugins/web-browsing.js:221-236 | a reporting engine whose reply holds only an empty result list answers "no information found" right after the query narration |
| WebSearch.DuckDuckGoData | server/utils/agents/aibitat/plugins/web-browsing.js:608-650 | a fetched page yields "no information" or the parsed hits; there are at most as many hits as result markers |
| WebSearch.DuckDuckGoFailure | server/utils/agents/aibitat/plugins/web-browsing.js:594-608 | an unreachable server, a non-2xx status or an empty page gives the DuckDuckGo error text |
| WebSearchText.MiddleTruncate | server/utils/agents/aibitat/plugins/web-browsing.js:106-109 | short strings are unchanged; longer ones keep their first and last `n` characters around "..." (`slice(-0)` keeps the whole string) |
| WebSearchText.RedactionHidesMiddle | server/utils/agents/aibitat/plugins/web-browsing.js:106-109 | two keys with the same ends redact to the same text: the middle is not revealed |
| WebSearchText.NarratedQuery | server/utils/agents/aibitat/plugins/web-browsing.js:132-134 | a query over 100 characters is narrated as its first 100 and "..."; shorter queries verbatim |
| WebSearchText.NarrationBounded | server/utils/agents/aibitat/plugins/web-browsing.js:132-134 | the narrated query has at most 103 characters and starts with the query |
| WebSearchText.FormatCountDigits | server/utils/agents/aibitat/plugins/web-browsing.js:17-21 | removing the commas from a formatted count gives back its decimal digits |
| WebSearchText.FormatCountGroups | server/utils/agents/aibitat/plugins/web-browsing.js:17-21 | the commas split the digits into a leading group of 1 to 3 and then groups of exactly 3 |
| WebSearchText.CommasAreGroups | server/utils/agents/aibitat/plugins/web-browsing.js:21 | comma insertion is the join of the digit groups, counted from the right |
| WebSearchText.FormatCountExample | server/utils/agents/aibitat/plugins/web-browsing.js:17-21 | 1234 is "1,234" and 999 is "999" |
| DuckDuckGo.AnchorTextFrom | server/utils/agents/aibitat/plugins/web-browsing.js:618-621 | the capture comes from the leftmost `<a` at or after the start whose tag, up to its first `>`, names the class and whose text runs on one line to the first `</a>`; there is none exactly when no `<a` matches; the capture holds no line break and no `</a>` |
| DuckDuckGo.AnchorHrefFrom | server/utils/agents/aibitat/plugins/web-browsing.js:624-627 | the link comes from the leftmost `<a` whose tag holds `class="result__a"` followed by an `href="…"` closed by `">`; there is none exactly when no `<a` matches; the link holds no double quote |
| DuckDuckGo.LastHref | server/utils/agents/aibitat/plugins/web-browsing.js:624-627 | the greedy `[^>]*` settles on the last `href="` in the tag whose value is closed by `">`; there is none exactly when no start in the tag succeeds |
| DuckDuckGo.StripBold | server/utils/agents/aibitat/plugins/web-browsing.js:634 | removing `<b>` / `</b>` never adds characters, and text without `<` is unchanged |
| DuckDuckGo.StripBoldPlainPrefix | server/utils/agents/aibitat/plugins/web-browsing.js:634 | text without `<` passes through and the rest is stripped on its own |
| DuckDuckGo.StripBoldTag | server/utils/agents/aibitat/plugins/web-browsing.js:634 | a leading `<b>` or `</b>` is dropped |
| DuckDuckGo.OtherTagKept | server/utils/agents/aibitat/plugins/web-browsing.js:634 | a `<` that starts neither `<b>` nor `</b>` is kept |
| DuckDuckGo.BoldRemoved | server/utils/agents/aibitat/plugins/web-browsing.js:634 | a highlighted word loses its tags: `a<b>w</b>c` becomes `awc` |
| DuckDuckGo.ChunkHit | server/utils/agents/aibitat/plugins/web-browsing.js:615-639 | a chunk gives a hit exactly when its title, link and snippet are all non-empty, and the hit holds those three |
| DuckDuckGo.RenderedChunkHit | server/utils/agents/aibitat/plugins/web-browsing.js:615-639 | a result laid out as the page does (title anchor carrying the link, then the snippet anchor) gives back the trimmed title, the link, and the snippet without bold tags, trimmed |
| DuckDuckGo.AnchorTextAtShape | server/utils/agents/aibitat/plugins/web-browsing.js:618-621 | an `<a`, a tag naming the class, `>`, one line of text and `</a>` is matched there and captures exactly that text |
| DuckDuckGo.HrefAtShape | server/utils/agents/aibitat/plugins/web-browsing.js:624-627 | `href="link">` with no quote in the link captures exactly the link |
| DuckDuckGo.HitsOfAppend | server/utils/agents/aibitat/plugins/web-browsing.js:614-640 | the hits of two runs of pieces are the hits of the first followed by those of the second |
| DuckDuckGo.PageHits | server/utils/agents/aibitat/plugins/web-browsing.js:611-640 | a page made of a preamble and pieces joined by the result marker, none containing it, yields exactly the hits of the pieces, in order: the preamble never counts |
| DuckDuckGo.ParseResults | server/utils/agents/aibitat/plugins/web-browsing.js:611-614 | the text before the first marker is skipped, so there are fewer hits than split parts |
| DuckDuckGo.NoMarkerNoHits | server/utils/agents/aibitat/plugins/web-browsing.js:611-614 | a page without a result marker has no hits |
| JsValues.FirstTruthy | server/utils/helpers/chat/attachments.js:201-207 | a chain of logical-or operands yields the operand at the least truthy index, and nothing exactly when none is truthy |
| JsValues.Member | server/utils/helpers/chat/attachments.js:196-197 | a property read throws exactly on null or undefined; on an object holding the key it gives that key's value, and it finds a value only there |
| Workspace.Name | server/models/workspace.js:63-68 | a non-string or empty name becomes "My Workspace"; others are cut to their first 255 characters |
| Workspace.OpenAiTemp | server/models/workspace.js:69-74 | the temperature is the parsed number when it is non-negative, otherwise null |
| Workspace.OpenAiHistory | server/models/workspace.js:75-81 | history is a non-negative integer: 20 when absent or unparsable, negative values raised to 0 |
| Workspace.SimilarityThreshold | server/models/workspace.js:82-89 | the threshold is always in [0, 1], 0.25 when absent or unparsable; an in-range value is kept, one below 0 becomes 0 and one above 1 becomes 1 |
| Workspace.TopN | server/models/workspace.js:90-96 | topN is an integer of at least 1, 4 when absent or unparsable |
| Workspace.OneOf | server/models/workspace.js:97-100 | chat mode and vector search mode are always allowed values: an allowed value is kept and any other value becomes the fallback |
| Workspace.Provider | server/models/workspace.js:101-112 | a provider is null unless it is a string other than "" and "none", and then it is kept |
| Workspace.Text | server/models/workspace.js:105-124 | model names, refusal text and prompt are null unless a non-empty string, which is kept |
| Workspace.ValidateFields | server/models/workspace.js:169-181 | the result has exactly the writable keys of the update, each validated |
| Workspace.ProtectedColumns | server/models/workspace.js:41-60 | slug, vector tag, picture file name and id can never be written through an update |
| Workspace.ValidateFieldsIdempotent | server/models/workspace.js:169-181 | validating already validated fields changes nothing, when the number parsers read numbers back as themselves |
| Workspace.Update | server/models/workspace.js:228-244 | a missing id throws; no writable field means "nothing to update"; otherwise the write holds only validated writable fields and never provider "default" |
| Workspace.DefaultProviderClearsModel | server/models/workspace.js:238-243 | choosing provider "default" writes null provider and null model, and every other validated field exactly as validated |
| Workspace.UpdateWritesValidated | server/models/workspace.js:231-243 | without the "default" provider, the write is exactly the validated fields |
| Workspace.GetWithUser | server/models/workspace.js:267-299 | the workspace found matches the clause and is visible to the user; none is found only if no such workspace exists |
| Workspace.AdminSeesMore | server/models/workspace.js:270-278 | whatever a user can see, an admin with the same id can see |
| Workspace.WhereWithUser | server/models/workspace.js:343-370 | the visible matching workspaces in order, cut to the limit; an absent user gives the empty list |
| Workspace.Matching | server/models/workspace.js:350-361 | a workspace is listed exactly when it matches the clause and the user can see it |
| Workspace.GetIsFirstOfWhere | server/models/workspace.js:267-370 | for a signed-in user, `getWithUser` returns the first workspace `whereWithUser` lists |
| Workspace.UpdateUsers | server/models/workspace.js:437-458 | the member list is replaced by exactly the given ids when one of them is an admin or manager; otherwise it is refused and left unchanged |
| Attachments.CacheKey | server/utils/helpers/chat/attachments.js:37-47 | the key comes from the first truthy of location, docpath, id, document URL and file URL (the id as "doc-"+id); there is none for a non-object or when all are falsy |
| Attachments.CacheKeyPriority | server/utils/helpers/chat/attachments.js:37-47 | once a candidate is truthy, the later candidates cannot change the key |
| Attachments.CacheKeyFromId | server/utils/helpers/chat/attachments.js:42 | an attachment with only a document id is keyed "doc-" followed by the id |
| Attachments.Sentences | server/utils/helpers/chat/attachments.js:59 | each sentence match is non-empty, starts with a non-terminator and ends with a terminator |
| Attachments.SentencesAreRuns | server/utils/helpers/chat/attachments.js:59 | each match is one run of non-terminators followed by one run of terminators; with the coverage lemma this fixes where every match begins and ends |
| Attachments.SentencesCover | server/utils/helpers/chat/attachments.js:59 | the matches laid end to end are exactly the text without its leading terminators and without what follows its last terminator |
| Attachments.SentencesExist | server/utils/helpers/chat/attachments.js:59-60 | there is a sentence exactly when some non-terminator is followed later by a terminator |
| Attachments.Normalize | server/utils/helpers/chat/attachments.js:56 | normalised text keeps every non-space character of the text, in order; its only white space is single blanks, never at either end; it is empty exactly when the text is blank, text without white space is left as it is, and in general it is the text's words (maximal runs of non-white-space) joined by single blanks |
| Strings.CollapsedTrimIsJoin | server/utils/helpers/chat/attachments.js:56 | replacing every white-space run with a blank and trimming gives exactly the words of the text, in order, joined by single blanks |
| Attachments.FallbackSummary | server/utils/helpers/chat/attachments.js:54-67 | there is no summary exactly for blank text; a summary never starts with white space |
| Attachments.FallbackWith | server/utils/helpers/chat/attachments.js:57-66 | blank text has no summary; text with a sentence is summarised by its sentences; other text by its first 500 normalised characters, trimmed, followed by the marker exactly when more than 500 remain |
| Attachments.SentencesWin | server/utils/helpers/chat/attachments.js:59-63 | the summary of text with sentences is its first three sentences joined by spaces |
| Attachments.PlainTextIsCut | server/utils/helpers/chat/attachments.js:64-66 | text with no white space or terminator and over 500 characters is cut to its first 500 characters and the marker |
| Attachments.CutSummaryEndsWithEllipsis | server/utils/helpers/chat/attachments.js:64-66 | the corrected cut summary is 500 characters and one U+2026 |
| Attachments.AsWrittenMarkerIsMisencoded | server/utils/helpers/chat/attachments.js:66 | as written, 600 letters give a 503-character summary without any U+2026 |
| Attachments.AsWrittenCut | server/utils/helpers/chat/attachments.js:66 | as written, a cut summary ends in the three characters "â€¦" |
| Attachments.JoinKeepsStop | server/utils/helpers/chat/attachments.js:61-62 | joined sentences are never blank, so the sentence branch always gives a summary |
| Attachments.DedupKey | server/utils/helpers/chat/attachments.js:201-207 | the key is the first truthy of location, `embeddingIdentifiers.docId`, document id, file URL and name; the summary itself when none is; always truthy |
| Attachments.CollectItems | server/utils/helpers/chat/attachments.js:194-217 | one line per newly seen key: the seen set only grows, by exactly one key per line added |
| Attachments.CollectFromAttachments | server/utils/helpers/chat/attachments.js:190-191 | a non-array gives no lines and leaves the seen set unchanged |
| Attachments.CollectAppend | server/utils/helpers/chat/attachments.js:190-219 | two collections sharing one seen set equal one collection over the concatenated lists |
| Attachments.SeenTwiceCountedOnce | server/utils/helpers/chat/attachments.js:208-209 | the same attachment twice yields one context line |
| Attachments.HistoryIsOneCollection | server/utils/helpers/chat/attachments.js:226-243 | history contexts are one collection over all parsed attachments; unparsable records add nothing, and a document is summarised once across the history |
| Attachments.ShouldAnswerWithSummary | server/utils/helpers/chat/attachments.js:260-275 | the gate opens exactly when some attachment has a summary and the trimmed prompt is 1 to 200 characters that a summary pattern accepts |
| Attachments.Summarized | server/utils/helpers/chat/attachments.js:284-290 | the summarised attachments are taken from the input, and every attachment with a non-blank summary is among them |
| Attachments.SummarizedSingle | server/utils/helpers/chat/attachments.js:284-290 | one attachment is kept exactly when its summary is non-blank |
| Attachments.SummarizedAppend | server/utils/helpers/chat/attachments.js:284-290 | filtering two lists is filtering each and concatenating: the input order is kept |
| Attachments.NumberedLines | server/utils/helpers/chat/attachments.js:301-308 | the k-th line is numbered k+1 and labelled "Document k+1" when there is no title |
| Attachments.BuildSummaryReply | server/utils/helpers/chat/attachments.js:282-312 | no reply exactly when no attachment has a summary; one summary gives "Summary of label"; several give the header and the numbered list |
| Attachments.GateImpliesReply | server/utils/helpers/chat/attachments.js:260-312 | whenever the gate opens there is a reply to give |
| PasswordModal.TokenCheck | frontend/src/components/Modals/Password/index.jsx:95-166 | the token is checked only when present and `notry` is falsy; no login is needed exactly when that check passes; a stored token that fails is cleared with the user and timestamp |
| PasswordModal.CheckAuthReq | frontend/src/components/Modals/Password/index.jsx:79-168 | loading always ends; storage is kept or loses exactly the three auth keys, and only when login is required |
| PasswordModal.NoLoginExactly | frontend/src/components/Modals/Password/index.jsx:85-166 | no login exactly when the last check is fresh, auth is off in single-user mode, or the stored token checks out |
| PasswordModal.FreshCheckSkips | frontend/src/components/Modals/Password/index.jsx:85-92 | a still-valid check with `notry === false` reads nothing and reports no login in "multi" mode |
| PasswordModal.MultiUserWithoutToken | frontend/src/components/Modals/Password/index.jsx:117-124 | multi-user mode without a token requires login and touches no storage |
| PasswordModal.NotryDiscardsToken | frontend/src/components/Modals/Password/index.jsx:98-108 | with `notry`, a stored token is never checked: login is required and the credentials are removed |
| PasswordModal.ValidTokenKeepsSession | frontend/src/components/Modals/Password/index.jsx:109-116 | a token that checks out keeps the session and the storage |
| PasswordModal.SingleUserOpen | frontend/src/components/Modals/Password/index.jsx:128-136 | single-user mode without auth needs no login whatever is stored |
| PasswordModal.ClearedExactly | frontend/src/components/Modals/Password/index.jsx:99-108 | credentials are cleared exactly when a stored token was read and login is required |
| ColorAudit.HexToRgb | scripts/onenew-color-audit.mjs:34-39 | each channel is a byte |
| ColorAudit.ShortDigitsWhole | scripts/onenew-color-audit.mjs:36-38 | four or five digits are neither doubled nor cut: the colour is the bytes of the whole run read as one hex number |
| ColorAudit.FourDigitExample | scripts/onenew-color-audit.mjs:36-38 | `#fff8` reads as 65528, the colour (0, 255, 248) |
| ColorAudit.HexToRgbPairs | scripts/onenew-color-audit.mjs:37-38 | six or more hex digits give one channel per digit pair, in order |
| ColorAudit.ThreeDigitsDouble | scripts/onenew-color-audit.mjs:36 | a three-digit colour is its doubled six-digit form, each channel 17 times its digit |
| ColorAudit.AlphaIgnored | scripts/onenew-color-audit.mjs:37 | the alpha pair of an eight-digit colour does not change the colour |
| ColorAudit.SevenChars | scripts/onenew-color-audit.mjs:34-39 | "#rrggbb" reads as 16·high + low per channel |
| ColorAudit.ParseHex | scripts/onenew-color-audit.mjs:37 | on text with no leading white space, sign or `0x` prefix (the audit passes only hex digits), `parseInt(…, 16)` is NaN exactly when the text does not start with a hex digit, and otherwise is the hex value of the leading run of digits |
| ColorAudit.NearestFrom | scripts/onenew-color-audit.mjs:41-50 | the token found is at least as close as every palette entry and strictly closer than every earlier one |
| ColorAudit.NearestToken | scripts/onenew-color-audit.mjs:41-50 | the loop returns the first palette token at least distance, as `dist < min` keeps the first tie |
| ColorAudit.FirstLeastIsUnique | scripts/onenew-color-audit.mjs:44-48 | an entry that is closest and strictly closer than all before it is the one chosen |
| ColorAudit.ExactColourNamed | scripts/onenew-color-audit.mjs:7-20 | a colour equal to a palette colour is named by that token |
| ColorAudit.PaletteBytes | scripts/onenew-color-audit.mjs:7-20 | each palette hex reads as the colour table's bytes |
| ColorAudit.BrandPrimaryNamed | scripts/onenew-color-audit.mjs:8 | "#8a63f7" is named "--brand-primary" |
| ColorAudit.GuessUsage | scripts/onenew-color-audit.mjs:52-58 | the guess is "background" exactly when the line mentions "bg-" or "background" (any case); "text", "border" and "shadow" exactly when their keywords appear and no earlier rule's do; empty exactly when it mentions no keyword |
| ColorAudit.UsagePriority | scripts/onenew-color-audit.mjs:53-55 | background wins over border when both appear |
| ColorAudit.PlainAt | scripts/onenew-color-audit.mjs:63 | a plain match is "#" and 3 to 8 hex digits, read from the line |
| ColorAudit.BracketedAt | scripts/onenew-color-audit.mjs:64 | a bracketed match is "[#", 3 to 8 hex digits and "]", read from the line |
| ColorAudit.BracketedIsPlain | scripts/onenew-color-audit.mjs:63-64 | the digits of a bracketed match also match the plain pattern one character later |
| ColorAudit.PlainScanReaches | scripts/onenew-color-audit.mjs:74-82 | the scan reports a match that no earlier match overlaps |
| ColorAudit.BracketedScanSource | scripts/onenew-color-audit.mjs:83-91 | every bracketed capture occurs in the line |
| ColorAudit.BracketedRecordedTwice | scripts/onenew-color-audit.mjs:74-91 | a bracketed colour is also found by the plain scan, so it gets two rows |
| ColorAudit.RowFor | scripts/onenew-color-audit.mjs:76-80 | a row has the lower-cased hex, its nearest token, the 1-based line number, the usage guess and the trimmed context without commas |
| ColorAudit.LineRows | scripts/onenew-color-audit.mjs:72-92 | one row per plain and per bracketed match of the line, all on that line |
| ColorAudit.LinesRowsNameNearest | scripts/onenew-color-audit.mjs:69-93 | every row of a file names its colour's nearest token |
| ColorAudit.FileRows | scripts/onenew-color-audit.mjs:71-72 | every row's line number is a line of the file |
| ColorAudit.RowReadsBack | scripts/onenew-color-audit.mjs:80-95 | a CSV row splits on commas back into its six fields |
| ColorAudit.FieldsHaveNoComma | scripts/onenew-color-audit.mjs:80 | no field of a row contains a comma |
| ColorAudit.FileUnique | scripts/onenew-color-audit.mjs:81-96 | the unique map has exactly the file's hexes as keys, each mapped to its nearest token |
| ColorCodemod.ParseArgs | scripts/onenew-color-codemod.mjs:7-12 | without "--map" the script exits with usage status 1; otherwise the map path is the argument after the first "--map" |
| ColorCodemod.MapPathFollowsFlag | scripts/onenew-color-codemod.mjs:7-12 | the path taken is the one after the first "--map" |
| ColorCodemod.MappingEntry | scripts/onenew-color-codemod.mjs:15-17 | blank lines and lines without non-empty first two fields give no entry; otherwise the entry is the trimmed lower-cased hex and the trimmed token |
| ColorCodemod.ExtraFieldsIgnored | scripts/onenew-color-codemod.mjs:16-17 | fields after the second do not change the entry |
| ColorCodemod.OneFieldDropped | scripts/onenew-color-codemod.mjs:16-17 | a line without a comma gives no entry |
| ColorCodemod.AddLinesKeys | scripts/onenew-color-codemod.mjs:14-18 | the mapping's keys are the prior keys plus the keys of the valid lines |
| ColorCodemod.LastLineWins | scripts/onenew-color-codemod.mjs:17 | for a repeated hex, the last line's token is kept |
| ColorCodemod.UntouchedKey | scripts/onenew-color-codemod.mjs:14-18 | a key no line mentions keeps its value |
| ColorCodemod.HeaderIgnored | scripts/onenew-color-codemod.mjs:14 | the first line is a header and never becomes an entry |
| ColorCodemod.TokenName | scripts/onenew-color-codemod.mjs:34 | the name starts at the first "--" followed by a character other than ")", and runs up to the next ")" or the end; there is none exactly when no such "--" exists |
| ColorCodemod.VarTokenName | scripts/onenew-color-codemod.mjs:34 | "var(--name)" gives "--name" |
| ColorCodemod.NoDashesNoName | scripts/onenew-color-codemod.mjs:34 | a token without "-" has no name, where the script throws |
| StableSort.SortBy | triune/search/postnas.py:34 | the result is sorted by the key and is a permutation of the input |
| StableSort.InsertSorted | triune/search/postnas.py:34 | inserting into a key-sorted sequence keeps it sorted |
| StableSort.SortByIsStable | triune/search/postnas.py:34 | elements with equal keys keep their relative order |
| Greedy.Run | triune/search/postnas.py:34-41 | the items taken are picked from the order in order; the totals are their sums; with non-negative limits both totals stay within them |
| Greedy.TakenAtItsTurn | triune/search/postnas.py:35-39 | an item is taken exactly when adding its cost to the totals so far exceeds neither limit |
| Greedy.LastStep | triune/search/postnas.py:35-39 | one more item in the order adds its position exactly when its cost fits the totals so far, and leaves the earlier choices alone |
| Greedy.ZeroCostTaken | triune/moe/prune.py:23-25 | with non-negative limits, an item that costs nothing is always taken |
| Greedy.RunIsSubsequence | triune/search/postnas.py:34-39 | the selection is a subsequence of the order |
| Postnas.Order | triune/search/postnas.py:34 | layers are considered by ascending latency, a permutation of the input |
| Postnas.OrderIsStable | triune/search/postnas.py:34 | layers of equal latency are considered in input order |
| Postnas.Search | triune/search/postnas.py:30-42 | the totals are the sums of the selected layers, within both budgets when those are non-negative, and at most all layers are selected |
| Postnas.SearchIsSubsequence | triune/search/postnas.py:34-39 | the selection keeps the latency order and repeats no layer |
| Postnas.TakenIffFits | triune/search/postnas.py:35-39 | a layer is selected exactly when its memory and latency, added to the totals before it, fit both budgets |
| MoePrune.ParamsOf | triune/moe/prune.py:22 | a missing expert costs 0.0 parameters |
| MoePrune.Order | triune/moe/prune.py:21 | experts are considered by descending usage, a permutation of the input |
| MoePrune.OrderIsStable | triune/moe/prune.py:21 | experts of equal usage are considered in input order, as a reversed sort is still stable |
| MoePrune.PruneExperts | triune/moe/prune.py:18-27 | with a non-negative limit, the kept experts' parameters sum to at most the limit, and no expert is added |
| MoePrune.KeptIsSubsequence | triune/moe/prune.py:21-26 | the kept experts keep the usage order |
| MoePrune.KeptIffFits | triune/moe/prune.py:22-25 | an expert is kept exactly when the running total plus its parameters is at most the limit |
| MoePrune.ZeroCostKept | triune/moe/prune.py:22-25 | with a non-negative limit, an expert missing from the table or listed at 0 is always kept |
| Swapper.ConvertExactly | triune/models/swapper.py:40-47 | a module converts exactly when its class is allowed and not blocked, and it is a linear layer |
| Swapper.BlockBeatsAllow | triune/models/swapper.py:41-42 | a blocked class is never converted, even when allowed |
| Swapper.DefaultConvertsLinear | triune/models/swapper.py:16-22 | the default configuration converts exactly the `Linear` layers |
| Swapper.ChildPath | triune/models/swapper.py:35 | a child's path is its name at the root, otherwise the prefix, ".", and then exactly the name |
| Swapper.WalkResolves | triune/models/swapper.py:33-37 | in a tree with distinct dot-free child names, every path the walk yields resolves back to its module |
| Swapper.ResolveParent | triune/models/swapper.py:79-84 | the parent is the module reached through all but the last path part, and the attribute is the last part |
| Swapper.ResolveJoin | triune/models/swapper.py:79-84 | resolving the dotted join of names follows the names one by one |
| Swapper.SetChild | triune/models/swapper.py:69 | after `setattr` the attribute holds the replacement |
| Swapper.Step | triune/models/swapper.py:66-75 | an unconverted module changes nothing and never fails; a converted one fails exactly when its parent path does not resolve, and otherwise adds its record under its path, holding original class, "BitLinearV2" and its scale |
| Swapper.ConvertModel | triune/models/swapper.py:61-76 | every manifest record is keyed by its own path and names "BitLinearV2" as replacement |
| Swapper.ManifestKeys | triune/models/swapper.py:61-76 | the manifest has exactly the paths of the modules that should convert |
| Swapper.ConvertSucceeds | triune/models/swapper.py:61-84 | with valid distinct child names and no qualifying module below another, the loop never raises, and the manifest keys are the paths of the qualifying modules |
| Swapper.SetAtReach | triune/models/swapper.py:66-75 | after a replacement, every path that does not pass through the replaced child still resolves |
| Swapper.SequentialLinearConverted | tests/test_swapper.py:10-14 | `Sequential(Linear)` has its layer replaced, and the manifest is non-empty |
| Swapper.ScaleJson | triune/models/swapper.py:92 | the scale is written as a number list of the same length and values |
| Swapper.ManifestRoundTrip | triune/models/swapper.py:87-96 | the saved manifest has the same keys, and each entry reads back as its record |
| BitLinear.Sign | triune/models/bitlinear.py:18 | the sign is 1, -1 or 0 exactly for positive, negative or zero weights |
| BitLinear.Ternarize | triune/models/bitlinear.py:15-21 | a threshold that does not broadcast fails; otherwise the result has the broadcast row count (a one-row weight is repeated for every threshold row), the mask holds exactly where the magnitude reaches the row threshold, and the entry is the sign there and 0 elsewhere |
| BitLinear.OneRowBroadcasts | triune/models/bitlinear.py:15-21 | a one-row weight against several thresholds gives one row per threshold, each that weight row ternarized with its threshold |
| BitLinear.TernaryIsFixedPoint | triune/models/bitlinear.py:15-21 | with thresholds in (0, 1], ternarizing a ternary matrix changes nothing |
| BitLinear.HigherThresholdKeepsFewer | triune/models/bitlinear.py:19-20 | a higher threshold can only zero entries; survivors keep their value |
| BitLinear.SurvivorsKeepDirection | triune/models/bitlinear.py:18-20 | a non-zero entry has the sign of its weight |
| CpuRunner.ParseArgs | deploy/cpu_runner/main.cpp:4-22 | fewer than three arguments give the usage error; a run without a model path gives "missing --model"; both exit 1, and a parsed run has a model path |
| CpuRunner.Actions | deploy/cpu_runner/main.cpp:11-18 | each assignment is a flag followed by its value, and assignments never overlap |
| CpuRunner.ScanIsLastAssignment | deploy/cpu_runner/main.cpp:11-18 | each flag ends with the value of its last assignment |
| CpuRunner.ParsedMeaning | deploy/cpu_runner/main.cpp:11-22 | the model path and prompt are the values of the last `--model` and `--prompt` that had a value |
| CpuRunner.TrailingModelFlagIgnored | deploy/cpu_runner/main.cpp:13 | a final "--model" with no value sets nothing |
| CpuRunner.RepeatedFlagLastWins | deploy/cpu_runner/main.cpp:13-14 | a flag given twice keeps the second value |

## Left out

- Network, files and processes are not modelled. This covers `fetch`, `process.env` as a live object, `fs` reads and writes, directory walking, `.bak` copies, `console` output and `process.exit`. Each enters the model as a value or a result.
- JSON text is not modelled. `JSON.parse` and `JSON.stringify` are parameters, and `json.dumps(…, indent=2)` is modelled as the structure it writes, not its text.
- ColorAudit.ParseHex: `parseInt` also skips leading white space and accepts a sign and a `0x` prefix; the model reads only a leading run of hex digits, which is all the audit ever passes it (onenew-color-audit.mjs:35-37, 63-64).
- The tokenizer (`tiktoken.countFromString`) is a parameter. Only its number is formatted.
- `new URL(...)` for SearXNG is abstract: a valid URL or the parse failure.
- JavaScript strings are modelled as sequences of characters, not UTF-16 code units. `length`, `slice` and `substring` therefore differ on astral characters.
- `toLowerCase` and the regex `/i` flag are modelled on ASCII letters only.
- Interpolating a number into text (`${id}`) is a parameter `numText`. JavaScript's number formatting is not modelled.
- `parseInt` and `parseFloat` are parameters of the workspace validations. Their text grammar, and NaN and Infinity, are not modelled.
- Prisma queries are modelled as filters over a list of rows. `orderBy` and the include of documents and users are left out.
- `Workspace.new`, `slugify` and the other workspace methods are not part of this model.
- `hydrateAttachmentsWithDocumentData`, `loadDocumentData` and `generateSummary` are not modelled. They read files and call a model.
- The attachment `seen` set holds keys by value. JavaScript's `Set` compares objects by identity, and the model does not distinguish two equal object keys.
- SUMMARY_PATTERNS is a predicate parameter of the gate. The six regular expressions are not modelled.
- In the password modal, the `!window` guard, React state, rendering and the async scheduling are left out. The names of the three storage keys are abstract.
- The codemod's `replaceAll` rewriting is not modelled. This covers the four regex replacements and the alpha `toFixed(2)` text (lines 32-54 of the script).
- The colour audit's directory walk and its extension and exclude sets are left out.
- Python floats are modelled as reals. NaN, infinities and rounding are not modelled, and neither is torch's NaN handling in `sign`.
- Swapper.WalkResolves: assumes each child is reached through one distinct, dot-free name. A shared submodule under two names is not modelled.
- Swapper.ConvertModel: the walk is taken from the model before conversion. This matches the source as long as converted modules have no children of their own.
- WebSearch.Services: `typeErrorText` is one fixed text for every TypeError the model raises. The source reports `e.message`, which differs per throw site (web-browsing.js:153-157, 213-218); engine error texts are not modelled.
- Workspace.GetWithUser and Workspace.WhereWithUser: the source copies `clause` and then sets `OR` (admins) or `workspace_users` (others), which overwrites a caller's own key of that name (workspace.js:269-278, 350-357). The model conjoins the caller's clause with the visibility test, so it differs for a clause that already holds `OR` or `workspace_users`.
- Attachments.FallbackSummary: its own contract states only when there is a summary and how it starts. The full behaviour is stated on Attachments.FallbackWith, which it applies with U+2026.
- DuckDuckGo.RenderedChunkHit: covers pieces laid out as the page lays them out, with no quote or angle bracket in the link and no `<` in the title. Other markup is covered only by the per-pattern contracts.
- Swapper.Step: a missing attribute during resolution ends the run as an error value, and `getattr` on a non-module attribute is not modelled. The scale is a parameter `scaleOf`: `linear_to_bitlinear` (the sign copy and `abs().mean`) is not modelled.
- `BitLinearV2` initialisation and `forward` are not modelled. Its 0.05 threshold buffer is not used by the model.
- CpuRunner: the model file open, its first line and the program output after argument handling are left out.
- `WorkspaceUser.delete` and `createManyUsers` are modelled as replacing the member set. Their database errors are not modelled.

## Findings

| source | as written | input that shows it | evidently intended | confidence | as-written member | corrected member |
|---|---|---|---|---|---|---|
| server/utils/helpers/chat/attachments.js:66 | the cut marker is the three characters "â€¦", the UTF-8 bytes of an ellipsis decoded as Windows-1252 | a text of 600 letters "a" gives 500 letters followed by "â€¦" (503 characters) | a single horizontal ellipsis U+2026 after the first 500 characters | not executed | Attachments.AsWrittenMarkerIsMisencoded | Attachments.CutSummaryEndsWithEllipsis |
