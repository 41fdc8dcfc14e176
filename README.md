# CricAI core, modelled in Dafny

The application is a React front end over the Gemini API for cricket. It
has a news page, a match centre with a points table, a player
encyclopedia and an analyst chat. The remote model does the substantive
work. What the repository decides for itself is modelled here and proved
about:

- **Response cleaning** (`cleanJsonString`). The model strips Markdown code fences from a reply, trims it, and selects the text between the first opening and the last closing bracket. It keeps JavaScript `substring`'s argument swapping.
- **The four fetchers.** Each maps an abstract call outcome, and a parse into the declared record type, to a result or to a fallback value, following their `try`/`catch` blocks. The player prompt interpolates the name verbatim.
- **Match centre:**
  - the column-sort toggle;
  - the comparator;
  - the stable sort of the points table;
  - the tab chosen after fixtures load;
  - the standings cache guard;
  - the match-card fallbacks.
- **Analyst chat.** The message log, the input box, the typing flag and the chat session, under send and reset.
- **News page:**
  - the source links kept from the grounding chunks;
  - the title default;
  - the placeholder rule;
  - the paragraphs split from the text;
  - the load outcome.
- **Player encyclopedia.** The search guard, the loading / error / profile transitions, and the `'N/A'` and `'-'` display fallbacks.

Layout, one module per file:

| file | module | contents |
|---|---|---|
| `wrappers.dfy` | `Wrappers` | `Option`, `Result` |
| `js_text.dfy` | `JsText` | the JavaScript string operations used: `||` on optional strings, `trim`, `indexOf`, `lastIndexOf`, `substring`, `includes`, global `replace` by `""`, `split`, `join`, `toLowerCase` |
| `types.dfy` | `Types` | the records of `types.ts` |
| `gemini_service.dfy` | `GeminiService` | `cleanJsonString`, the fetchers, the player prompt |
| `standings_sort.dfy` | `StandingsSort` | the comparator of `getSortedStandings` and a stable sort |
| `match_center.dfy` | `MatchCenter` | `MatchCenter.tsx`: pure rules plus the `MatchCenterState` class |
| `chat_analyst.dfy` | `ChatAnalyst` | `ChatAnalyst.tsx`: the `ChatAnalystState` class |
| `news_feed.dfy` | `NewsFeed` | `NewsFeed.tsx`: derivations plus the `NewsFeedState` class |
| `player_profile.dfy` | `PlayerProfile` | `PlayerProfile.tsx`: fallbacks plus the `PlayerProfileState` class |

Modelling choices:

- **The remote calls.** A `generateContent` call appears as a `Completion`: it either failed in transport, or completed with optional text and optional grounding chunks. A chat `sendMessage` call appears as a `Reply`.
- **`JSON.parse`** followed by the code's cast (`as`) is a function parameter `string -> Option<T>`. `None` means the parse threw. A value the parameter returns always has the declared record shape; the code itself checks no shape.
- **The React components** are classes whose fields are their `useState` variables, or the `useRef` value for the chat session. Each async handler is split into a `Begin…` method, which runs up to the `await`, and a `Complete…` method, which runs after it. A composite method runs both in order.
- **What each component renders** is a function of its state (`View`), reduced to the parts with logic.

Behaviour worth noting:

- **A profile payload without `name`** is returned, because the code only casts the parsed object (`GeminiService.NameNotChecked`).
- **A profile payload with a truthy `error`** never reaches the caller with its own message. The code's `throw new Error(data.error)` is caught by the enclosing `catch`, which throws the generic "Could not generate a valid profile for this player." instead (`GeminiService.SentinelMessageDiscarded`). The page then shows its own fixed not-found message whatever the fetcher said (`PlayerProfile.Settled`).
- **A player name with quotes** is interpolated into the prompt without escaping, so it can close the quotes around it (`GeminiService.PlayerPrompt`).
- **A closer before the opener.** The code calls `substring(start, end + 1)` whenever both brackets exist, and `substring` swaps out-of-order arguments, so the cleaner returns the text strictly between the last closer and the first opener rather than the whole text (`GeminiService.CleanReversed`, `GeminiService.CleanSwappedExample`).
- **A malformed source URL** is not dropped: the code calls `new URL(uri)` while rendering, with no guard (see "Left out").
- **Missing profile fields** stay absent after the fetch and are defaulted only at display time (`PlayerProfile.StyleText`, `PlayerProfile.FigureText`).
- **The tab rule after a load** tests the tab the load began on, not the current one: a click on the standings tab during a load begun on a match tab is undone when the load completes (`MatchCenter.MatchCenterState.CompleteLoadMatches`).

## Model

| member | source | states |
|---|---|---|
| JsText.Truthy | components/NewsFeed.tsx:82 | a string property is truthy when present and non-empty, as JavaScript's `!!` treats strings |
| JsText.Or | components/NewsFeed.tsx:92 | `s || fallback`: the value when truthy, the fallback otherwise; never empty when the fallback is not |
| JsText.SkipBlanks | services/geminiService.ts:11 | the scan for the start of the trim stops at the first character other than whitespace, or at the end, having passed only whitespace |
| JsText.SkipBlanksBack | services/geminiService.ts:11 | the scan back for the end of the trim stops just after a character other than whitespace, or at its lower bound, having passed only whitespace |
| JsText.Trim | services/geminiService.ts:11 | `trim` gives a slice of its input that neither starts nor ends with whitespace; it is empty exactly when the input is all whitespace (that nothing but the two ends is removed is `JsText.TrimRemovesEnds`) |
| JsText.TrimRemovesEnds | services/geminiService.ts:11 | `trim` removes only leading and trailing whitespace: with `k` the length of the leading whitespace, the trim is the slice of the input from `k`, and the text before and after that slice is all whitespace |
| JsText.TrimUnchanged | services/geminiService.ts:11 | a string without surrounding whitespace is its own trim |
| JsText.RemoveAll | services/geminiService.ts:11 | global replacement of a pattern by `""` never lengthens the text |
| JsText.RemoveAllAbsent | services/geminiService.ts:11 | a text that does not include the pattern is left unchanged |
| JsText.RemoveAllSkipsPrefix | services/geminiService.ts:11 | a prefix that cannot start a match passes through the replacement untouched |
| JsText.RemoveAllDropsHead | services/geminiService.ts:11 | an occurrence of the pattern at the head is deleted and the scan resumes after it |
| JsText.IndexOf | services/geminiService.ts:12-13 | `indexOf` of a character is -1 exactly when it is absent, otherwise the index of its first occurrence |
| JsText.LastIndexOf | services/geminiService.ts:18-19 | `lastIndexOf` of a character is -1 exactly when it is absent, otherwise the index of its last occurrence |
| JsText.Substring | services/geminiService.ts:24 | `substring` never fails and never returns more than the string holds, whatever its arguments |
| JsText.SubstringIsSlice | services/geminiService.ts:24 | whatever its arguments, `substring` returns a contiguous slice of the string |
| JsText.SubstringInOrder | services/geminiService.ts:24 | `substring(start, end)` with in-range, ordered bounds is the slice between them |
| JsText.SubstringSwapped | services/geminiService.ts:24 | `substring(start, end)` with `end < start` is the slice from `end` to `start` (the arguments are swapped) |
| JsText.Split | components/NewsFeed.tsx:62 | `split('\n')` gives at least one segment, no segment holds the separator, and joining them with it gives back the text |
| JsText.SplitAfterFirst | components/NewsFeed.tsx:62 | splitting `a + "\n" + b`, where `a` has no line break, yields `a` and then the segments of `b` |
| JsText.ToLower | components/MatchCenter.tsx:93 | `toLowerCase` keeps the length and lower-cases each character |
| GeminiService.Defence | services/geminiService.ts:11 | the two global replacements never lengthen the text and leave no "```" in it |
| GeminiService.Prepared | services/geminiService.ts:11 | the de-fenced, trimmed text is no longer than the raw text and neither starts nor ends with whitespace (that it holds no "```" is `GeminiService.CleanHasNoFence`'s concern for the output) |
| GeminiService.FirstOpener | services/geminiService.ts:12-16 | `start` is -1 when the text has no `{` or `[`; otherwise it is the index of the first of them, whichever comes first |
| GeminiService.LastCloser | services/geminiService.ts:18-21 | `end` is -1 when the text has no `}` or `]`; otherwise it is the index of the last of them, whichever comes last |
| GeminiService.Extract | services/geminiService.ts:23-25 | without an opener or a closer the text is kept; with the opener at or before the closer the result is the inclusive slice between them; with the closer before the opener it is the text strictly between them |
| GeminiService.ExtractIsSlice | services/geminiService.ts:23-25 | the selection is always a contiguous slice of the de-fenced, trimmed text |
| GeminiService.CleanJsonString | services/geminiService.ts:10-27 | the output is never longer than the input |
| GeminiService.CleanHasNoFence | services/geminiService.ts:10-27 | the output never contains "```" |
| GeminiService.FenceRemovalLeavesNoFence | services/geminiService.ts:11 | one left-to-right pass deleting every "```" leaves no "```" behind |
| GeminiService.DefenceUnchanged | services/geminiService.ts:11 | a text without "```" is left unchanged by both replacements |
| GeminiService.CleanWithoutBrackets | services/geminiService.ts:12-26 | when the de-fenced, trimmed text lacks every opener or every closer, the output is exactly that text |
| GeminiService.CleanBracketed | services/geminiService.ts:16-25 | when the first opener is at or before the last closer, the output is the inclusive slice between them; it starts with `{` or `[` and ends with `}` or `]` |
| GeminiService.ExtractBracketed | services/geminiService.ts:16-25 | the inclusive selection is non-empty, starts with an opener and ends with a closer |
| GeminiService.CleanReversed | services/geminiService.ts:24 | when the last closer comes before the first opener, the output is the text strictly between them and holds no bracket |
| GeminiService.CleanIsBracketed | services/geminiService.ts:16-25 | in the ordered case the output starts with an opener, ends with a closer and holds no fence |
| GeminiService.CleanOfBracketed | services/geminiService.ts:10-27 | a bracketed, fence-free text is its own clean form |
| GeminiService.CleanIdempotent | services/geminiService.ts:10-27 | in the ordered case, cleaning twice equals cleaning once |
| GeminiService.CleanIgnoresFences | services/geminiService.ts:11 | removing the fences beforehand does not change the output |
| GeminiService.DefenceOfFencedBlock | services/geminiService.ts:11 | a reply of the form prose, "```json", body, "```", prose, with no other backticks and closing prose that does not begin with "j", is de-fenced to the three parts joined |
| GeminiService.CleanOfFencedBlock | services/geminiService.ts:10-27 | for such a reply whose de-fenced text has its first opener and last closer at `i <= j`, the output is the inclusive slice from `i` to `j` of the de-fenced text, whatever whitespace surrounds it (the trim in between keeps both brackets) |
| GeminiService.CleanBareFenceExample | services/geminiService.ts:10-27 | a reply that is only the block, "```json\n{}\n```", cleans to exactly `{}` |
| GeminiService.CleanFencedExample | services/geminiService.ts:10-27 | "Here you go:\n```json\n{\"a\":1}\n```\nThanks" cleans to exactly `{"a":1}` |
| GeminiService.ExtractBetweenSwapped | services/geminiService.ts:23-25 | for a closer, then bracket-free text, then an opener, the selection is exactly the text between them |
| GeminiService.CleanSwappedExample | services/geminiService.ts:24 | "} x {" cleans to " x " through `substring`'s argument swapping |
| GeminiService.FetchCricketNews | services/geminiService.ts:45-55 | fails exactly on a transport failure, always with "Failed to fetch latest cricket news."; otherwise the text is the reply text or "No news available at the moment." when that is empty, and missing chunks become `[]` |
| GeminiService.FetchPlayerProfile | services/geminiService.ts:99-118 | a transport failure is rethrown as it is; empty text fails with "Empty response from AI"; a parse failure and a truthy `error` field both fail with "Could not generate a valid profile for this player."; it succeeds exactly when the payload parses with a falsy `error`, and then returns the cast payload |
| GeminiService.SentinelMessageDiscarded | services/geminiService.ts:102-113 | a `{"error": "Player not found"}` payload yields the generic failure, not its own message |
| GeminiService.NameNotChecked | services/geminiService.ts:110 | a payload with a falsy `error` is returned even when its `name` is empty |
| GeminiService.FetchMatchData | services/geminiService.ts:157-170 | never fails: the parsed value unchanged, or `{live:[],recent:[],upcoming:[]}` on empty text, parse failure or transport failure |
| GeminiService.MatchDataParseFailure | services/geminiService.ts:160-166 | when nothing parses, the result is the three empty buckets whatever the text |
| GeminiService.FetchStandings | services/geminiService.ts:198-211 | never fails: the parsed rows unchanged, or `[]` on empty text, parse failure or transport failure |
| GeminiService.PlayerPrompt | services/geminiService.ts:64-89 | the prompt is the fixed head, then the player name verbatim and unescaped, then the fixed tail |
| GeminiService.PlayerPromptInjective | services/geminiService.ts:64-89 | different names give different prompts |
| StandingsSort.StrLess | components/MatchCenter.tsx:71-72 | string `<`: it never holds between equal strings, and a proper prefix comes first |
| StandingsSort.StrLessTotal | components/MatchCenter.tsx:71-72 | string `<` orders any two different strings one way or the other |
| StandingsSort.StrLessTransitive | components/MatchCenter.tsx:71-72 | string `<` is transitive |
| StandingsSort.KeyLessStrictTotal | components/MatchCenter.tsx:71-72 | within one column `<` is irreflexive, transitive and total |
| StandingsSort.NrrComparesAsText | components/MatchCenter.tsx:71-72 | the `nrr` column compares as text: "+10.5" sorts before "+9.0" |
| StandingsSort.Compare | components/MatchCenter.tsx:70-74 | the comparator returns -1, 0 or 1; negative exactly when the first row's value is smaller under `asc` (greater under `desc`), positive exactly in the opposite case |
| StandingsSort.CompareTies | components/MatchCenter.tsx:70-74 | the comparator returns 0 exactly for rows that hold equal values in the column |
| StandingsSort.CompareAntisymmetric | components/MatchCenter.tsx:70-74 | swapping the rows negates the comparator |
| StandingsSort.CompareTransitive | components/MatchCenter.tsx:70-74 | "not after" is transitive, so the comparator is consistent |
| StandingsSort.InsertPermutes | components/MatchCenter.tsx:70 | insertion adds exactly the inserted row |
| StandingsSort.InsertSorted | components/MatchCenter.tsx:70 | inserting into a sorted sequence keeps it sorted |
| StandingsSort.SortStandings | components/MatchCenter.tsx:70-74 | the sort returns a permutation of its input that is ordered by the comparator |
| StandingsSort.SortStable | components/MatchCenter.tsx:70-74 | for every column value, the rows holding it come out in the order they went in |
| StandingsSort.SortedAscending | components/MatchCenter.tsx:71-72 | under `asc` no row is followed by a row with a smaller value |
| StandingsSort.SortedDescending | components/MatchCenter.tsx:71-72 | under `desc` no row is followed by a row with a greater value |
| StandingsSort.SortedStandings | components/MatchCenter.tsx:68-75 | without a configuration the rows come back as they are; with one they come back sorted; either way a permutation |
| MatchCenter.NextSortConfig | components/MatchCenter.tsx:60-66 | after a click on `key` the key is `key`; the direction is `desc` exactly when the previous configuration was `key` ascending |
| MatchCenter.ToggleTwice | components/MatchCenter.tsx:61-65 | two clicks on the column sorted ascending give descending, then ascending again |
| MatchCenter.OtherColumnAscending | components/MatchCenter.tsx:61-65 | a click on a column other than the sorted one sorts it ascending |
| MatchCenter.ToggleAlternates | components/MatchCenter.tsx:61-65 | a second click on the same column always flips the direction |
| MatchCenter.AutoTab | components/MatchCenter.tsx:25-29 | the standings tab stays; another tab becomes live when there are live matches, else upcoming when there are upcoming ones, else recent |
| MatchCenter.AutoTabShowsMatches | components/MatchCenter.tsx:25-29 | when live or upcoming matches exist, the tab chosen shows a non-empty list |
| MatchCenter.AutoTabEmptyOnlyIfNoLiveOrUpcoming | components/MatchCenter.tsx:25-29 | the tab chosen shows an empty list only when all three buckets are empty |
| MatchCenter.FailedLoadShowsRecent | components/MatchCenter.tsx:25-29 | after a load that degraded to empty buckets, a match tab becomes recent |
| MatchCenter.AutoTabIdempotent | components/MatchCenter.tsx:25-29 | choosing the tab again for the same data changes nothing |
| MatchCenter.MatchesFor | components/MatchCenter.tsx:215 | before any data has loaded the list is empty |
| MatchCenter.IsLive | components/MatchCenter.tsx:93 | the badge test: the lower-cased status includes "live" |
| MatchCenter.CardText | components/MatchCenter.tsx:108 | a card shows the score, else the result, else "Match scheduled"; never empty text |
| MatchCenter.RenderCard | components/MatchCenter.tsx:89-113 | the badge is live exactly when the lower-cased status includes "live"; the card carries the status, the teams and the fallback text |
| MatchCenter.RenderMatchList | components/MatchCenter.tsx:79-117 | "No matches found in this category." exactly for an empty list; otherwise one card per match, in order |
| MatchCenter.LiveIgnoresCase | components/MatchCenter.tsx:93 | the live badge does not depend on the case of the status |
| MatchCenter.LiveWhenMentioned | components/MatchCenter.tsx:93 | a status containing "live" in any case gets the live badge |
| MatchCenter.NotLiveWithoutL | components/MatchCenter.tsx:93 | a status with no letter l never gets the live badge |
| MatchCenter.MatchCenterState.constructor | components/MatchCenter.tsx:10-17 | the initial state: no data, no standings, loading, on the live tab, sorted by rank ascending |
| MatchCenter.MatchCenterState.HandleSort | components/MatchCenter.tsx:60-66 | the configuration becomes the next one for the clicked column |
| MatchCenter.MatchCenterState.SelectTab | components/MatchCenter.tsx:145 | a tab click selects that tab |
| MatchCenter.MatchCenterState.BeginLoadMatches | components/MatchCenter.tsx:19-20 | loading starts, and the tab the closure will test is the tab held now |
| MatchCenter.MatchCenterState.CompleteLoadMatches | components/MatchCenter.tsx:22-34 | the fetched data is stored; a load begun on the standings tab leaves the tab alone, one begun on a match tab sets the tab by the auto-tab rule whatever was clicked meanwhile; loading ends |
| MatchCenter.MatchCenterState.LoadMatches | components/MatchCenter.tsx:19-35 | the whole `loadMatches` with no click while it waits: data stored, tab chosen by the auto-tab rule, loading ended |
| MatchCenter.MatchCenterState.BeginLoadStandings | components/MatchCenter.tsx:38-39 | the fetch goes ahead exactly when no rows are held, and only then is the spinner raised |
| MatchCenter.MatchCenterState.CompleteLoadStandings | components/MatchCenter.tsx:41-46 | the fetched rows are stored and the spinner is lowered |
| MatchCenter.MatchCenterState.LoadStandings | components/MatchCenter.tsx:37-48 | with rows held nothing changes; otherwise the fetched rows are stored |
| MatchCenter.MatchCenterState.SortedRows | components/MatchCenter.tsx:68-77 | the displayed rows are a permutation of the stored rows, sorted under the configuration; the stored rows are only read |
| MatchCenter.MatchCenterState.View | components/MatchCenter.tsx:159-216 | spinner while the active pane loads; the standings pane shows the sorted rows and "No standings data found." exactly when there are none; a match tab shows the list for that tab |
| ChatAnalyst.Accepts | components/ChatAnalyst.tsx:32 | a send goes ahead exactly when the trimmed input is non-empty and no reply is awaited |
| ChatAnalyst.ReplyMessage | components/ChatAnalyst.tsx:46-52 | a model turn: the reply text, "I'm stumped! Could you rephrase that?" for an empty reply, or the apology flagged as an error for a rejected send |
| ChatAnalyst.UserMessage | components/ChatAnalyst.tsx:34-38 | the user turn is a non-empty, error-free turn holding the trimmed input |
| ChatAnalyst.AfterExchange | components/ChatAnalyst.tsx:38-52 | a completed exchange keeps the whole earlier log as a prefix and adds a user turn and then a model turn |
| ChatAnalyst.ChatAnalystState.constructor | components/ChatAnalyst.tsx:8-15 | the log is exactly the greeting; the input is empty; nothing is awaited; there is no session yet |
| ChatAnalyst.ChatAnalystState.CreateSession | components/ChatAnalyst.tsx:21 | a new session with a handle not used before |
| ChatAnalyst.ChatAnalystState.Mount | components/ChatAnalyst.tsx:19-23 | a session exists afterwards; an existing one is kept |
| ChatAnalyst.ChatAnalystState.SetInput | components/ChatAnalyst.tsx:134 | typing replaces the input |
| ChatAnalyst.ChatAnalystState.CanSend | components/ChatAnalyst.tsx:140 | the send button is enabled exactly when the guard of `handleSend` accepts |
| ChatAnalyst.ChatAnalystState.BeginSend | components/ChatAnalyst.tsx:30-46 | a refused send changes nothing; an accepted one clears the input, appends the trimmed text as a user turn, raises the typing flag, keeps the existing session (creating none) or, when there is none, creates exactly one with the next handle, and hands the trimmed text to that session |
| ChatAnalyst.ChatAnalystState.CompleteSend | components/ChatAnalyst.tsx:47-55 | exactly one model turn is appended and typing ends; the log stays non-empty |
| ChatAnalyst.ChatAnalystState.HandleSend | components/ChatAnalyst.tsx:30-56 | the whole send: refused with nothing changed, or the log extended by the user turn and the reply turn, the input cleared and typing ended, the existing session kept (or exactly one created with the next handle), and the trimmed text sent to that session |
| ChatAnalyst.ChatAnalystState.HandleReset | components/ChatAnalyst.tsx:58-61 | the log becomes the single reset notice, a fresh session replaces the old one, and the input and the typing flag are untouched |
| NewsFeed.HasUri | components/NewsFeed.tsx:82 | a chunk renders a link exactly when `chunk.web?.uri` is truthy |
| NewsFeed.SourceTitle | components/NewsFeed.tsx:92 | the title, or "Web Source" when it is empty or missing |
| NewsFeed.LinkOf | components/NewsFeed.tsx:85-95 | a link carries the chunk's URI and its defaulted title |
| NewsFeed.Sources | components/NewsFeed.tsx:79-100 | at most one link per chunk, each with a non-empty URI and title; none when no chunk has a URI |
| NewsFeed.SourcesAppend | components/NewsFeed.tsx:79-100 | the links of two runs of chunks are the links of each, in order |
| NewsFeed.SourcesOfOne | components/NewsFeed.tsx:82 | a single chunk renders one link exactly when its `web.uri` is truthy |
| NewsFeed.SourcesKeepOrder | components/NewsFeed.tsx:79-100 | every chunk with a URI contributes its link at its own place among the others |
| NewsFeed.RenderSources | components/NewsFeed.tsx:77-104 | "No direct source links returned." exactly when the chunk list is empty; otherwise the list of links |
| NewsFeed.NoUriNoPlaceholder | components/NewsFeed.tsx:77-104 | chunks that all lack a URI give an empty list and no placeholder |
| NewsFeed.NonBlank | components/NewsFeed.tsx:63 | only segments that are not all whitespace are kept |
| NewsFeed.Paragraphs | components/NewsFeed.tsx:62-64 | no paragraph shown is blank |
| NewsFeed.ParagraphsAreLines | components/NewsFeed.tsx:62 | no paragraph holds a line break |
| NewsFeed.NonBlankAppend | components/NewsFeed.tsx:62-64 | filtering two runs of segments filters each, in order |
| NewsFeed.OneLine | components/NewsFeed.tsx:62-63 | a non-blank line is one paragraph, shown untrimmed |
| NewsFeed.BlankLine | components/NewsFeed.tsx:62-63 | a blank line gives no paragraph |
| NewsFeed.ParagraphsOfLines | components/NewsFeed.tsx:62-64 | the paragraphs of a text are those of its first line followed by those of the rest |
| NewsFeed.NewsFeedState.constructor | components/NewsFeed.tsx:7-9 | loading, with no news and no error |
| NewsFeed.NewsFeedState.CompleteLoad | components/NewsFeed.tsx:12-20 | a successful load stores the news; a failed one sets "Unable to load live news. Please try again later."; loading ends either way |
| NewsFeed.NewsFeedState.View | components/NewsFeed.tsx:26-108 | spinner while loading; then the error box when there is an error, replacing the content; otherwise the paragraphs and the sources panel of the news |
| PlayerProfile.StyleText | components/PlayerProfile.tsx:91-95 | a style, or "N/A" when it is empty or missing |
| PlayerProfile.FigureText | components/PlayerProfile.tsx:136-171 | a figure, or "-" when the block or the figure is missing or empty |
| PlayerProfile.Figures | components/PlayerProfile.tsx:133-173 | one non-empty cell per column of a stats block, all "-" when the block is missing |
| PlayerProfile.FigureShownVerbatim | components/PlayerProfile.tsx:140 | a run total returned as text is shown as it is |
| PlayerProfile.RenderProfile | components/PlayerProfile.tsx:74-171 | the card shows the name, country and role as given, the styles and figures with their fallbacks, and no teams when the list is missing |
| PlayerProfile.CardHasNoEmptyCell | components/PlayerProfile.tsx:91-171 | no style or figure cell of the card is empty text |
| PlayerProfile.Settled | components/PlayerProfile.tsx:21-25 | after a fetch exactly one of profile and error is set: the profile on success, the fixed not-found message on any failure |
| PlayerProfile.PlayerProfileState.constructor | components/PlayerProfile.tsx:8-11 | an empty query, no profile, no error, not loading |
| PlayerProfile.PlayerProfileState.View | components/PlayerProfile.tsx:59-67 | the error banner exactly when the error is truthy; the card exactly when there is a profile |
| PlayerProfile.PlayerProfileState.SetQuery | components/PlayerProfile.tsx:44 | typing replaces the query |
| PlayerProfile.PlayerProfileState.SubmitDisabled | components/PlayerProfile.tsx:50 | the search button is disabled while loading or while the trimmed query is empty |
| PlayerProfile.PlayerProfileState.BeginSearch | components/PlayerProfile.tsx:15-22 | nothing happens for a blank query; otherwise loading starts, error and profile are cleared, and the untrimmed query is handed to the fetch |
| PlayerProfile.PlayerProfileState.CompleteSearch | components/PlayerProfile.tsx:21-28 | profile and error become the settled pair of the fetch result and loading ends |
| PlayerProfile.PlayerProfileState.HandleSearch | components/PlayerProfile.tsx:13-29 | the whole search: nothing for a blank query; otherwise the raw query is requested, exactly one of profile and error is set, and loading ends |

## Left out

- The remote calls (`generateContent`, `chats.create`, `sendMessage`) are foreign network calls. Their outcomes are inputs: `Completion` and `Reply`. The code that builds the news, match and standings prompts and the client configuration is not modelled.
- `JSON.parse` is library parsing. It is a function parameter returning an `Option` of the declared record type.
- GeminiService.FetchMatchData and MatchCenter.MatchCenterState.CompleteLoadMatches: `parse` only returns values of the declared record shape, so a reply such as `null`, `[]` or `{"live":[]}` is not modelled. In the code it is stored, then `matchData.live.length` or `matchData.upcoming.length` throws (components/MatchCenter.tsx:26-27); the throw is caught at :30-31, the tab is kept and loading ends.
- GeminiService.FetchStandings and GeminiService.FetchPlayerProfile take the same kind of parse parameter, so a payload of another shape (a standings value that is not an array, a profile whose fields have other types) is not modelled either.
- `new URL(uri).hostname` (components/NewsFeed.tsx:95) is a foreign URL parser that can throw. The hostname line of a link is not modelled.
- JavaScript numbers are doubles. Table columns hold `int`, so `NaN`, fractions and mixed-type values in a column are not modelled.
- String `<` compares UTF-16 code units. The model compares Dafny characters (code points), which agrees except for characters outside the Basic Multilingual Plane.
- `toLowerCase` is modelled for ASCII letters only. `trim` uses ECMAScript's whitespace and line-terminator set, with the Unicode space separators listed explicitly.
- Async interleavings are modelled only through the split into a begin step and a complete step, which a caller may separate by other steps. The tab captured by `loadMatches` is modelled (`MatchCenter.MatchCenterState.BeginLoadMatches` returns it). React's batching of state updates, a reply that arrives after a reset, and two overlapping loads are not modelled.
- The `useEffect` mount triggers, auto-scroll, JSX markup, icons and styling are presentation. Only what each view selects is modelled.
- App.tsx and Navbar.tsx are view routing and a menu toggle. They are not part of this model.
- The `console.error` calls are not modelled.
- The `catch` in `loadStandings` (components/MatchCenter.tsx:43-44) is unreachable, because `fetchStandings` never rejects and storing its result cannot throw. The model has no path for it.
- The `news && …` guard (components/NewsFeed.tsx:55) is false after loading only when no load has stored news; the model shows the header alone then (the `Header` view).
- GeminiService.PlayerPrompt: it states where the name sits in the prompt and that nothing is escaped. It does not state where the quotes around the name sit in the fixed text.
- StandingsSort.SortStandings: the built-in sort is not modelled step by step. It is modelled by a stable insertion sort. Both give the same result, because a stable sort under a consistent comparator has exactly one possible output.
- NewsFeed.NewsFeedState.View: an absent `groundingChunks` on the stored news cannot happen, because the fetcher always supplies `[]`. The placeholder is therefore stated for the empty list only.
