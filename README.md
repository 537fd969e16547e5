# Heritage guide: the sequential core in Dafny

This project models the deterministic logic of a single-page heritage-guide
application. It has six parts.

- Reply post-processing in `services/geminiService.ts`. This covers trimming the
  recognition answer, the parse-or-fail rule of the two JSON answers, the
  case-sensitive fallback of the crowd level to "Medium", the choice of chat
  system instruction, and the chat relay. The relay forwards every chunk in
  order and turns any failure into one apology chunk.
- The nearby search of `components/NearbyMonuments.tsx`. It annotates each
  catalog entry with its distance, keeps those within the radius, and orders
  them by distance or by name with a stable sort. The panel state re-runs the
  search whenever the location, radius or sort key changes.
- The application state of `App.tsx`: the active tab, the selected monument,
  the background and the sidebar flag. It includes the case-insensitive
  reconciliation of a recognised name with the catalog and the tab-to-screen
  dispatch.
- The chat log of `components/AiChatbot.tsx`. It is reset to one greeting on
  every change of monument and allows a single send in flight. Each chunk of
  a reply grows only the message whose timestamp is that reply's id.
- The searchable select of `components/common/SearchableSelect.tsx`. It is a
  case-insensitive, order-preserving substring filter, plus its open flag and
  search term.
- The catalog and tab constants of `constants.ts`, with the facts the other
  parts rely on: ids, names distinct ignoring case, and tab ids.

The modules are as follows.

- `JsText` (`js_text.dfy`) and `Seqs` (`seqs.dfy`) hold the JavaScript
  built-ins the core calls: `trim`, `toLowerCase`, `includes`, `String(n)`,
  `localeCompare`, `encodeURIComponent` and `Array.prototype.filter`.
- `Types` holds the records of `types.ts`.
- There is one module for each core file: `Constants`, `GeminiService`,
  `NearbyMonuments`, `App`, `AiChatbot` and `SearchableSelect`.

Inputs the model does not compute are passed in as values:

- What the backend delivered is one of three replies (rejected, text
  missing, text).
- `JSON.parse` is a function parameter.
- A chat stream is its chunks, either completing or failing after them.
- `calculateDistance` is a function parameter.
- The clock readings (`Date.now()`, `new Date().toISOString()`) are
  parameters.
- Whether a mouse press landed inside the select is a parameter.

The React components whose fields change are classes:

- `NearbyMonuments.NearbyPanel`
- `App.AppState`
- `AiChatbot.Chatbot`
- `SearchableSelect.Select`

Each handler is a method that states the whole new state.

The crowd-level check is case-sensitive (`services/geminiService.ts:114-115`):
"high" is not a valid level and becomes "Medium"; see
`GeminiService.LowerCaseLevelBecomesMedium`.

## Model

| member | source | states |
|---|---|---|
| JsText.TrimStart | services/geminiService.ts:30 | the result is the suffix left after the leading whitespace; it does not start with whitespace and everything dropped is whitespace |
| JsText.TrimEnd | services/geminiService.ts:30 | the result is the prefix left before the trailing whitespace; it does not end with whitespace and everything dropped is whitespace |
| JsText.Trim | services/geminiService.ts:30 | `trim()` returns a slice of the input with only whitespace around it that neither starts nor ends with whitespace; it is empty exactly when the input is all whitespace |
| JsText.TrimIdempotent | services/geminiService.ts:30 | trimming twice equals trimming once |
| JsText.TrimIgnoresPadding | services/geminiService.ts:75 | whitespace added around a text does not change its trim |
| JsText.LowerChar | App.tsx:49 | upper-case ASCII letters map to their lower-case letters; every other character stays |
| JsText.ToLower | App.tsx:49 | `toLowerCase()`, under the ASCII approximation, keeps the length and lower-cases each character in place |
| JsText.ToLowerIdempotent | components/common/SearchableSelect.tsx:24 | lower-casing twice equals lower-casing once |
| JsText.Includes | components/common/SearchableSelect.tsx:24 | `includes(t)` holds exactly when `t` occurs at some position |
| JsText.IncludesEmpty | components/common/SearchableSelect.tsx:24 | every string includes the empty string |
| JsText.NumberToString | components/AiChatbot.tsx:46 | `String(Date.now())` is a non-empty run of decimal digits without a leading zero |
| JsText.NumberToStringRoundTrip | components/AiChatbot.tsx:46 | the printed digits read back as the number |
| JsText.NumberToStringInjective | components/AiChatbot.tsx:46 | different clock readings print differently |
| JsText.LexLe | components/NearbyMonuments.tsx:51 | `localeCompare(...) <= 0` as code order; a name compares before every name it is a prefix of, itself included |
| JsText.LexLeTotal | components/NearbyMonuments.tsx:51 | the name comparison relates every two names |
| JsText.LexLeTransitive | components/NearbyMonuments.tsx:51 | the name comparison is transitive |
| JsText.LexLeAntisymmetric | components/NearbyMonuments.tsx:51 | two names that compare as equal are the same name |
| JsText.EncodeUriComponent | App.tsx:40 | the encoded name consists only of unreserved characters and `%`, and is at least as long as the input |
| JsText.EncodeUnreservedIsIdentity | App.tsx:40 | a name made only of unreserved characters is its own encoding |
| Seqs.Filter | components/NearbyMonuments.tsx:50 | `filter` keeps only elements that pass the test and never lengthens the sequence |
| Seqs.FilterCounts | components/NearbyMonuments.tsx:50 | every passing element is kept as often as it occurs, and no other element is kept |
| Seqs.FilterMembers | components/common/SearchableSelect.tsx:23-25 | an element is kept exactly when it occurs and passes the test |
| Seqs.FilterAppend | components/common/SearchableSelect.tsx:23-25 | filtering a concatenation is concatenating the filtered parts |
| Seqs.FilterKeepsAll | components/common/SearchableSelect.tsx:23-25 | when every element passes, the filter returns the whole sequence |
| Seqs.FilterEmptyIff | components/common/SearchableSelect.tsx:82 | the filter is empty exactly when no element passes |
| Seqs.FilterIsSubsequence | components/common/SearchableSelect.tsx:23-25 | the kept elements keep their relative order |
| Seqs.DistinctOccursOnce | constants.ts:3-14 | in a sequence of pairwise distinct elements each element occurs exactly once |
| Constants.CatalogIds | constants.ts:3-14 | the catalog has ten entries with ids 1 to 10 in order |
| Constants.CatalogNamesDistinctIgnoringCase | constants.ts:4-13 | no two catalog names are equal after lower-casing |
| Constants.CatalogNameOrderIsInitialOrder | constants.ts:4-13 | catalog names start with distinct upper-case letters, and by name two entries compare by their initials alone |
| Constants.CatalogEntriesOccurOnce | constants.ts:3-14 | each catalog entry occurs exactly once |
| Constants.SentinelNotInCatalog | constants.ts:4-13 | no catalog name equals "Unknown Monument" after lower-casing both |
| Constants.CatalogCoordinatesInRange | constants.ts:4-13 | every latitude lies in [-90, 90] and every longitude in [-180, 180] |
| Constants.TabIds | constants.ts:24-30 | there are five tabs with distinct ids; "recognize", "info" and "ai-guide" are among them and "chat" is not |
| GeminiService.PromptsNameTheMonument | services/geminiService.ts:66-108 | the information prompt names the monument; the crowd prompt names the monument and the date |
| GeminiService.InfoPrompt | services/geminiService.ts:68 | the information prompt carries the monument name right after its fixed head |
| GeminiService.CrowdPrompt | services/geminiService.ts:103 | the crowd prompt carries the monument name right after its fixed head and the date right after " on the date: " |
| GeminiService.RecognitionPromptNamesSentinel | services/geminiService.ts:22 | the recognition prompt offers "Unknown Monument" as the answer for an unrecognised image, the sentinel the rest of the model checks for |
| GeminiService.IdentifyMonument | services/geminiService.ts:25-35 | a rejected call and a missing text throw; an all-whitespace answer, and only such an answer, fails with the empty-response message; any other answer is returned trimmed, and a returned name is never empty |
| GeminiService.IdentifiedNameIsTrimmedSlice | services/geminiService.ts:30-34 | a returned name is non-empty, neither starts nor ends with whitespace, and is a slice of the answer with only whitespace around it |
| GeminiService.IdentifyKeepsUnpadded | services/geminiService.ts:30-34 | a name without surrounding whitespace comes back verbatim however it is padded |
| GeminiService.IdentifyKeepsSentinel | services/geminiService.ts:21-34 | the "Unknown Monument" answer comes back verbatim however it is padded |
| GeminiService.GetMonumentInfo | services/geminiService.ts:75-81 | the parse of the trimmed text is returned unchanged and unchecked when parsing succeeds; otherwise the invalid-format error is thrown |
| GeminiService.InfoIgnoresPadding | services/geminiService.ts:75-77 | whitespace around the JSON text does not change the outcome |
| GeminiService.IsLevel | services/geminiService.ts:114 | a level is valid exactly when it is one of the strings "Low", "Medium" and "High" |
| GeminiService.NormalizeLevel | services/geminiService.ts:113-116 | a level other than exactly "Low", "Medium" or "High" becomes "Medium"; a valid level and the other two properties stay |
| GeminiService.NormalizeLevelIdempotent | services/geminiService.ts:113-116 | normalising twice equals normalising once |
| GeminiService.LowerCaseLevelBecomesMedium | services/geminiService.ts:114-115 | the check is case-sensitive: "high" is replaced by "Medium" |
| GeminiService.FocusedInstruction | services/geminiService.ts:130-132 | the focused instruction carries the monument name right after its fixed head and is longer than the general instruction `GENERAL_INSTRUCTION` of line 132 |
| GeminiService.PredictRushHour | services/geminiService.ts:110-121 | a result is returned exactly when the trimmed text parses to an object; its level is valid, and is the parsed level when that was valid and "Medium" otherwise; visitor count and recommendation are unchanged; a parse failure, `null` or a primitive fails with the invalid-format error |
| GeminiService.CreateChatSession | services/geminiService.ts:129-140 | a truthy name gives the focused instruction for that name; an absent or empty name gives the general instruction |
| GeminiService.FocusedInstructionFacts | services/geminiService.ts:130-132 | the focused instruction contains the name, differs from the general one, and determines the name |
| GeminiService.SessionsTellMonumentsApart | services/geminiService.ts:129-132 | sessions for different truthy names get different instructions |
| GeminiService.StreamChatResponse | services/geminiService.ts:148-158 | every received chunk is relayed once in arrival order; a failure adds exactly one apology chunk at the end; nothing is thrown |
| GeminiService.Relayed | services/geminiService.ts:151-156 | the relayed chunks are the received ones in order, followed by exactly one apology when the stream failed |
| NearbyMonuments.Annotate | components/NearbyMonuments.tsx:46-49 | each entry keeps its monument unchanged and gets the distance from the user to that monument's coordinates, in catalog order |
| NearbyMonuments.DistanceTo | components/NearbyMonuments.tsx:48 | the distance is taken with the user's coordinates first and the monument's second |
| NearbyMonuments.WithinRadius | components/NearbyMonuments.tsx:50 | the filter test passes an entry exactly when its distance is at most the radius, the bound included |
| NearbyMonuments.Before | components/NearbyMonuments.tsx:51 | the comparator puts entries with equal distance (by distance) or equal names (by name) on a tie |
| NearbyMonuments.BeforeTotal | components/NearbyMonuments.tsx:51 | the comparator relates every two entries under either key |
| NearbyMonuments.BeforeTransitive | components/NearbyMonuments.tsx:51 | the comparator is transitive under either key |
| NearbyMonuments.Insert | components/NearbyMonuments.tsx:51 | inserting adds exactly the one entry |
| NearbyMonuments.SortBy | components/NearbyMonuments.tsx:51 | the sort is a permutation |
| NearbyMonuments.InsertSorted | components/NearbyMonuments.tsx:51 | inserting into a sorted list keeps it sorted |
| NearbyMonuments.SortBySorted | components/NearbyMonuments.tsx:51 | the result is non-decreasing in distance, or in name order |
| NearbyMonuments.InsertStable | components/NearbyMonuments.tsx:51 | insertion places the new entry ahead of the entries it ties with and keeps their order |
| NearbyMonuments.SortByStable | components/NearbyMonuments.tsx:51 | the sort is stable: entries that tie keep their input order |
| NearbyMonuments.FindNearby | components/NearbyMonuments.tsx:46-51 | every result is within the radius, is a catalog monument with its own distance, and the result is sorted, no longer than the catalog, and a permutation of the filtered annotation |
| NearbyMonuments.FindNearbyStable | components/NearbyMonuments.tsx:46-51 | tied results keep catalog order |
| NearbyMonuments.FindNearbyCounts | components/NearbyMonuments.tsx:46-51 | an entry within the radius appears as often as in the catalog; an entry beyond it does not appear |
| NearbyMonuments.WiderRadiusKeepsMore | components/NearbyMonuments.tsx:50 | widening the radius never drops an entry from the result |
| NearbyMonuments.AnnotateCounts | components/NearbyMonuments.tsx:46-49 | each monument's annotated entry occurs as often as the monument does |
| NearbyMonuments.CatalogSearchExactlyOnce | components/NearbyMonuments.tsx:46-51 | over the shipped catalog, each entry within the radius appears exactly once |
| NearbyMonuments.NearbyPanel.constructor | components/NearbyMonuments.tsx:18-23 | no location, a radius of 50, sorted by distance, no results, loading, no error |
| NearbyMonuments.NearbyPanel.Consistent | components/NearbyMonuments.tsx:56-61 | once a location is known the shown list is sorted under the current key and lies within the current radius; before that it is empty |
| NearbyMonuments.NearbyPanel.FindMonuments | components/NearbyMonuments.tsx:41-54 | without a location the "Location not available." error is set and the list is unchanged; with one, the list becomes the search result |
| NearbyMonuments.NearbyPanel.Refresh | components/NearbyMonuments.tsx:56-61 | the search runs only once a location is present |
| NearbyMonuments.NearbyPanel.LocationFound | components/NearbyMonuments.tsx:27-33 | the location is stored, loading ends, and the list matches the new location |
| NearbyMonuments.NearbyPanel.LocationFailed | components/NearbyMonuments.tsx:34-37 | the location error is set and loading ends; nothing else changes |
| NearbyMonuments.NearbyPanel.SetRadius | components/NearbyMonuments.tsx:80 | the radius changes and the list follows it |
| NearbyMonuments.NearbyPanel.SetSortBy | components/NearbyMonuments.tsx:89 | the sort key changes and the list follows it |
| App.FindByName | App.tsx:49 | the index returned is of the first entry whose lower-cased name equals the lower-cased name; none is returned exactly when no entry matches |
| App.NameMatches | App.tsx:49 | the `find` test accepts a name equal to the entry's, and only names of the same length |
| App.BackgroundFor | App.tsx:58 | the background address is the fixed image-service prefix followed by a query of URI-safe characters only |
| App.Reconcile | App.tsx:49-56 | the first catalog entry whose name matches ignoring case is chosen when one exists; otherwise the result is the new monument with the name verbatim, at (0, 0), category "Historic" and the clock reading as id |
| App.ReconcileFindsEntry | App.tsx:49-52 | in a catalog with names distinct ignoring case, a name in any casing selects its entry unchanged |
| App.ReconcileFindsCatalogEntry | App.tsx:49-52 | over the shipped catalog, a matching name selects exactly that catalog entry |
| App.ReconcileSentinel | App.tsx:53-56 | the "Unknown Monument" answer always leads to a synthesised monument |
| App.RenderContent | App.tsx:62-77 | each of "info", "rush", "nearby" and "chat" selects its own screen; every other id shows the recognition screen |
| App.TabsNeverReachChatbot | App.tsx:63-75 | "ai-guide" shows the recognition screen and no tab leads to the chatbot |
| App.AppState.ShownScreen | App.tsx:62-77 | in every reachable state the chatbot screen is not shown |
| App.AppState.constructor | App.tsx:13-19 | the recognition tab, the first catalog entry selected, no background, the sidebar closed |
| App.AppState.HandleTabChange | App.tsx:32-35 | the tab changes and the sidebar closes; nothing else changes |
| App.AppState.HandleSelectMonument | App.tsx:37-46 | a monument is selected with its background and the information tab; `null` clears the selection and the background and keeps the tab; the sidebar closes |
| App.AppState.HandleRecognitionSuccess | App.tsx:48-60 | the reconciled monument is selected with its background, the information tab opens and the sidebar is left alone |
| App.AppState.ShowRecognised | App.tsx:57-59 | the monument is selected, its background shown and the information tab opened |
| App.AppState.OpenSidebar | App.tsx:100 | the sidebar opens; nothing else changes |
| App.AppState.CloseSidebar | components/Sidebar.tsx:33-41 | the sidebar closes; nothing else changes |
| AiChatbot.GreetingFacts | components/AiChatbot.tsx:22-24 | the greeting for a monument names it, differs from the general greeting, and determines the name |
| AiChatbot.Greeting | components/AiChatbot.tsx:22-24 | the greeting starts with the fixed opening and, for a monument, carries its name right after the focused opening |
| AiChatbot.QuickActions | components/AiChatbot.tsx:60-65 | four actions; the first asks about the monument's name when it is truthy and about "the Taj Mahal" otherwise |
| AiChatbot.NameOf | components/AiChatbot.tsx:27 | `currentMonument?.name`: the monument's name when there is a monument, and nothing otherwise |
| AiChatbot.Chatbot.QuickActionsVisible | components/AiChatbot.tsx:93 | the quick actions show exactly while the log holds no message or one |
| AiChatbot.QuickActionsAreNotBlank | components/AiChatbot.tsx:96 | every quick action passes the blank-text part of the send guard |
| AiChatbot.BotMessageIdsDiffer | components/AiChatbot.tsx:46 | sends at different clock readings get different bot ids |
| AiChatbot.BotMessageId | components/AiChatbot.tsx:46 | the bot id is "bot-" followed by the decimal clock reading |
| AiChatbot.GrowMatching | components/AiChatbot.tsx:50-54 | the list keeps its length; exactly the messages whose timestamp is the id get the chunk appended to their text |
| AiChatbot.Grow | components/AiChatbot.tsx:51-53 | a message keeps sender and timestamp; its text gains the chunk exactly when its timestamp is the id |
| AiChatbot.GrowMatchingTouchesOnlyId | components/AiChatbot.tsx:50-54 | other messages are unchanged; matching ones keep sender and timestamp |
| AiChatbot.GrowMatchingEmpty | components/AiChatbot.tsx:50-54 | an empty chunk changes nothing |
| AiChatbot.GrowMatchingCompose | components/AiChatbot.tsx:49-55 | two chunks in a row grow the messages as their concatenation does |
| AiChatbot.Concat | components/AiChatbot.tsx:50-54 | no chunks give the empty text and one chunk gives itself |
| AiChatbot.ConcatAppend | components/AiChatbot.tsx:50-54 | appending chunks in two batches gives the same text as appending them at once |
| AiChatbot.GrowFreshPlaceholder | components/AiChatbot.tsx:46-54 | when no older message carries the id, the placeholder alone receives the reply text |
| AiChatbot.ConcatRelayed | services/geminiService.ts:151-156 | the reply text is the chunks' concatenation, followed by the apology when the stream failed |
| AiChatbot.Chatbot.constructor | components/AiChatbot.tsx:14-17 | no session, no messages, empty input, not loading |
| AiChatbot.TextToSend | components/AiChatbot.tsx:38 | `messageText || userInput`: a non-empty argument is sent, otherwise the input box |
| AiChatbot.Chatbot.CanSend | components/AiChatbot.tsx:39 | a send passes the guard exactly when its text is not all whitespace, a session exists and no reply is in flight |
| AiChatbot.Chatbot.InitChat | components/AiChatbot.tsx:20-31 | the log becomes exactly the greeting and a new session is created from the monument's name; input and loading stay; the quick actions show |
| AiChatbot.Chatbot.SetUserInput | components/AiChatbot.tsx:107 | only the input changes |
| AiChatbot.Chatbot.BeginSend | components/AiChatbot.tsx:37-47 | the text is `messageText` when truthy, else the input; a blank text, a missing session or a send in flight changes nothing; otherwise the user message and an empty `bot-<now>` message are appended, the input clears and loading starts |
| AiChatbot.Chatbot.ReceiveChunk | components/AiChatbot.tsx:49-54 | the chunk grows exactly the messages with the bot id |
| AiChatbot.Chatbot.FinishSend | components/AiChatbot.tsx:57 | loading ends; nothing else changes |
| AiChatbot.Chatbot.SendMessage | components/AiChatbot.tsx:37-58 | a refused send changes nothing; an accepted one ends with the user message and the bot message holding the relayed chunks in order, an empty input and loading over |
| SearchableSelect.FilteredOptions | components/common/SearchableSelect.tsx:22-25 | exactly the options whose lower-cased name contains the lower-cased term, in their offered order |
| SearchableSelect.MatchesTerm | components/common/SearchableSelect.tsx:23-24 | an option passes exactly when its lower-cased name includes the lower-cased term |
| SearchableSelect.FilteredOptionsCounts | components/common/SearchableSelect.tsx:22-25 | a matching option is listed as often as it is offered; others are not listed |
| SearchableSelect.EmptyTermListsAll | components/common/SearchableSelect.tsx:22-25 | an empty term lists every option |
| SearchableSelect.TermCaseIgnored | components/common/SearchableSelect.tsx:24 | the term's case does not matter |
| SearchableSelect.Rows | components/common/SearchableSelect.tsx:82-94 | the list is the lone "No results found" row exactly when the filter is empty; otherwise it is one row per filtered option, in order, and the placeholder is a row of its own kind that no option can be mistaken for |
| SearchableSelect.NoResultsIff | components/common/SearchableSelect.tsx:82-94 | the placeholder is the only row exactly when no offered option matches the term |
| SearchableSelect.Select.constructor | components/common/SearchableSelect.tsx:17-18 | closed, with an empty term |
| SearchableSelect.Select.HandleSelect | components/common/SearchableSelect.tsx:46-50 | the chosen option is reported, the term cleared and the list closed |
| SearchableSelect.Select.HandleToggle | components/common/SearchableSelect.tsx:52-54 | the open flag flips and the term stays |
| SearchableSelect.Select.HandleMouseDown | components/common/SearchableSelect.tsx:28-33 | a press outside closes the list and clears the term; a press inside changes nothing |
| SearchableSelect.Select.SetSearchTerm | components/common/SearchableSelect.tsx:77 | only the term changes |

## Left out

- The generative backend (`generateContent`, `chats.create`, `sendMessageStream`) is not modelled. It is a remote asynchronous library, so its results are inputs.
- `JSON.parse` is a parameter and is not reimplemented. A parsed crowd value is told apart only as object, `null` or primitive. An array counts as an object whose properties are missing. A parsed primitive reaches the error because assigning `level` on it throws; this holds because the service is an ES module and so runs in strict mode.
- GeminiService.PredictRushHour: the in-place assignment to `prediction.level` is modelled as a record update. Object identity and aliasing of the parsed value are not captured.
- GeminiService.StreamChatResponse: `chunk.text` is taken to be a string. A chunk without text, which the browser would append as "undefined", is not modelled.
- `calculateDistance` (`utils/location`) is a parameter. utils/location is not part of this model, and its floating-point haversine is not reasoned about.
- JsText.LowerChar: only ASCII letters are lower-cased. This is weaker than the Unicode mapping of `toLowerCase`.
- JsText.ToLower: it maps `LowerChar` over the string, so it keeps the length. The real `toLowerCase` need not: "İ" (U+0130) becomes two characters. The length is kept only under the ASCII approximation.
- JsText.LexLe: `localeCompare` is taken as lexicographic order of character codes, which differs from locale collation: "Zebra" comes before "apple" in code order, but `localeCompare` puts "apple" first. Ties therefore occur only between equal names. For the shipped catalog the two orders agree. Its names start with distinct upper-case letters (constants.ts:4-13, `Constants.CatalogNameOrderIsInitialOrder`), and both orders rank those letters alphabetically.
- JsText.EncodeUriComponent: it is stated by its output alphabet and its length. No decoding round trip is proved.
- Text is modelled as a sequence of Unicode scalar values, whereas JavaScript strings are UTF-16. So a lone surrogate cannot occur, and the `URIError` that `encodeURIComponent` throws on one (App.tsx:40, App.tsx:58) is not modelled.
- NearbyMonuments.NearbyPanel.SetRadius: the slider's bounds of 10 to 1000 in steps of 10 are not imposed on the radius.
- The clock (`Date.now()`, `toISOString()`) is read by the caller and passed in.
- React effect timing, state batching and async interleaving are not modelled. Each handler is one atomic step. A send is split into its synchronous start, one step per chunk and its end; `SendMessage` runs them back to back.
- The monument list the nearby panel hands to `onSelectMonument` carries an extra `distance` field. The model passes on the monument only.
- Dark mode, `localStorage` and `document` updates, scrolling into view and focusing the input are browser I/O.
- `components/MonumentRecognition.tsx`, `components/RushHourPrediction.tsx`, `components/MonumentInformation.tsx`, `components/Sidebar.tsx` (apart from its two close actions, `App.AppState.CloseSidebar`), `components/common/Button.tsx` and `components/common/Card.tsx` are not part of this model. They are camera and file I/O, loading flags around backend calls, and presentation.
- `LANGUAGES` in `constants.ts` is not used by the core.
