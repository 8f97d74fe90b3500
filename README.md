# A verified model of the research agent's core

This project models, in Dafny, the control logic of a small web-research
agent. A language model is prompted to reply with a `Thought:` and a few
`Action:` lines. The agent runs one of the tools they name:

- Search the web;
- Open a URL;
- Find a keyword in the open page;
- Crawl a site into a TF-IDF index;
- Recall similar pages from it;
- Done, which writes the final answer.

The agent feeds the observation back into the conversation history. It stops
on an accepted Done, or after four turns.

| module (Dafny file) | what it models |
|---|---|
| `Options` (options.dfy) | the optional value used for Python's value-or-`None` results |
| `PyStr` (pystr.dfy) | the Python string built-ins the code relies on: `isspace`, `lower`, `strip`/`lstrip`, `startswith`, `find`, `in`, `splitlines`, `split()`, `join`, `str(int)`, slicing with index clamping |
| `Collecting` (collect.dfy) | the "append, then stop at the limit or at a Done" walk that `_extract_actions`, `parse_actions` and the streaming consumer share |
| `AgentActions` (agent_actions.dfy) | the strict action grammar of agent.py, plus several of its helpers: `_parse_single_action`, `_extract_actions`, `_has_valid_format`, `_select_actions` and the streaming consumer `_stream_until_actions` |
| `Agent` (agent.dfy) | `run_research_agent` of agent.py: the system prompt, the tool dispatch, history growth and trimming, the Done guard, and the summary |
| `SessionMemory` (memory.dfy) | the `Memory` class of memory.py: page cache, evidence list, trace, last opened page, `open_or_fetch` |
| `Rag` (rag.dfy) | from rag.py: the tokenizer, TF-IDF vectors, the guarded cosine, and the `MiniVectorStore` class with lazy finalisation and a stable top-k search |
| `Utils` (utils.dfy) | from utils.py: the loose action parser `parse_action`, `parse_actions`, `validate_action_format`, `format_search_results` |
| `Parser` (parser.dfy) | from parser.py: the sentence splitter, the relevant-sentence snippet builder, `find_chunks` |
| `WebSearch` (web_search.dfy) | from web_search.py: the `_clean_hit` filter, the capped hit loop of both providers, the DuckDuckGo → Startpage → empty fallback |
| `LlmInterface` (llm_interface.dfy) | from llm_interface.py: `_budget`, the calls `call_llm` and `call_llm_long` issue, and the self-consistency vote |

## How the model is written

The model follows each file's own form.

**Functions and lemmas.** Pure helpers are functions, proved against what
they mean. Examples: the regex matchers are hand-written scanners with
round-trip and if-and-only-if lemmas, and the sentence splitter has a
lossless-recombination lemma.

**Methods against specifications.** Loops are methods proved against a
specification function:

- `Parser.FindChunks` against `Parser.Chunks`;
- `Collecting.CollectLines` against `Collecting.Collect`;
- `AgentActions.ConsumeStream` against the `Consumed` predicate;
- `WebSearch.CollectHits` against `WebSearch.CappedHits`;
- `Rag.Vectorise` and `Rag.FinaliseWeights` against the finalised store.

Properties of the specification functions are separate lemmas.

**Classes.** `SessionMemory.Memory` and `Rag.MiniVectorStore` are classes.
Their methods keep a `Valid()` invariant, which ties the document-frequency
table and the vectors to the documents.

- The methods of `Memory` and of `MiniVectorStore` state every field they
  change, one by one.
- The agent's tool methods state the memory after them as one value,
  `Memory.State()`. It holds the cache, the trace, the evidence, the open
  page, and the store's documents and table.
- That value leaves out two fields: the ghost log of fetched URLs, and the
  store's count of vectorised documents.

**Oracles.** The language model, the search providers, the fetcher, the HTML
parser, the crawler, `math.log`, `math.sqrt` and score printing are function
parameters bundled in `Agent.Oracles`:

- a token stream oracle takes the turn number and the request, because
  sampling makes two calls with the same prompt differ;
- a provider oracle either raises, or yields its result page's candidate
  anchors in document order;
- `fetch` returns `None` when the fetcher gives up.

**The run.** `Agent.RunResearchAgent` returns the final answer or the
max-loops summary, together with a ghost trace of the turns. The trace
records:

- each turn's history;
- the streamed tokens and how many were consumed;
- the stripped reply;
- the action chosen;
- the history it left.

Every recorded turn satisfies `Agent.TurnFollows`:

- its tokens are the stream oracle's answer for its turn number and history;
- its reply is the stripped text the consumer read;
- the action it runs is the reply's first Search, or else its first action;
- its observation and the memory after it are those `Agent.Executed` assigns
  to that action and the memory the turn started from.

What each tool makes of the fetch, search, parse and crawl oracles is stated
by that tool's own lemmas. An accepted Done is tied to the summary of the
evidence gathered so far.

### Where the code and its description differ

The model follows the code.

- **Trimming.** The code keeps the last `MAX_HISTORY_CHARS` characters of the
  history, so a trim can cut mid-line or mid-record (agent.py:255-256).
  `Agent.TrimCanCutMidLine` exhibits such a history.
- **Corrective retries.** A malformed reply gets a corrective note. The note
  is appended without trimming and uses up a loop iteration (agent.py:174-176).
  `Agent.NextHistCases` shows that such a history can exceed the bound.
- **Streaming.** Streaming stops at `ACTION_LIMIT` action lines or at a Done
  line (agent.py:154), not at the first action.
- **Lazy finalisation.** The store is finalised only when `docs[0]` has no
  vector (rag.py:43-44). Documents added after the store was first
  finalised keep no vector and are never scored. A search over an empty
  store finalises nothing (`Rag.LateDocsNeverScored`).
- **Unreachable branch.** The "No valid Action detected" branch
  (agent.py:179-181) cannot be reached: a reply that passes
  `_has_valid_format` always yields actions. The model has no such branch.

## Model

| member | source | states |
|---|---|---|
| PyStr.Lower | parser.py:10 | lower-casing keeps the length, leaves no upper-case ASCII letter, turns each upper-case letter into its lower-case partner and keeps every other character |
| PyStr.LowerAppend | parser.py:12 | lower-casing distributes over concatenation |
| PyStr.LowerIdempotent | parser.py:10 | lower-casing twice is lower-casing once |
| PyStr.LowerSlice | agent.py:38-46 | lower-casing commutes with slicing, so an index found in the lowered text is an index of the text |
| PyStr.LeadingSpaces | utils.py:68 | the count of leading whitespace: all of it is whitespace and the next character is not |
| PyStr.TrailingSpaces | agent.py:46 | the count of trailing whitespace, with the character before it not whitespace |
| PyStr.Strip | agent.py:63 | the stripped text is the middle part of the input, neither end is whitespace, and only whitespace is cut away on either side |
| PyStr.StripIdempotent | agent.py:70 | stripping twice is stripping once |
| PyStr.StripOfUnpadded | agent.py:63 | a string with no whitespace at either end is its own strip |
| PyStr.StripPadded | utils.py:41 | whitespace around an unpadded core strips back to that core |
| PyStr.CiPrefixIsLowerPrefix | agent.py:71 | the case-blind prefix test holds exactly when the lowered text starts with the lowered literal |
| PyStr.FindFrom | agent.py:41 | `find` from `pos`: the result is an occurrence at or after `pos` with none between, and none is missed when it returns -1 |
| PyStr.ContainsIff | parser.py:12 | substring containment holds exactly when there is an occurrence index |
| PyStr.LineEnd | agent.py:69 | the end of the line starting at `i`: no line break before it and a line break (or the end) at it |
| PyStr.SplitLines | agent.py:69 | no line returned by `splitlines` holds a line-break character; that they are all of the text's lines, split at every terminator, is stated by PyStr.SplitLinesLossless, PyStr.SplitLinesTerminated and PyStr.SplitLinesKeepsCrLf |
| PyStr.SplitLinesLossless | agent.py:69 | putting each line's removed terminator back after it gives the text: `splitlines` loses nothing else |
| PyStr.SplitLinesTerminated | agent.py:69 | every removed terminator is `\r\n` or one line-break character, except after a non-empty last line that runs to the end, so a final terminator opens no empty line |
| PyStr.SplitLinesKeepsCrLf | agent.py:69 | a `\r` directly followed by `\n` is never split into two terminators |
| PyStr.WordLength | parser.py:10 | the length of the leading run of non-whitespace, followed by whitespace or the end |
| PyStr.SplitWords | parser.py:10 | `split()` yields only non-empty words free of whitespace; that they are all the maximal non-whitespace runs of the text, in order, is stated by PyStr.SplitWordsLossless and PyStr.SplitWordsMaximal |
| PyStr.SplitWordsLossless | parser.py:10 | putting back the whitespace runs around and between the words gives the text: `split()` loses only whitespace |
| PyStr.SplitWordsMaximal | parser.py:10 | the runs around the words are all whitespace and every run between two words is non-empty, so every word is a maximal non-whitespace run |
| PyStr.SplitWordsOfSpace | parser.py:10 | an all-whitespace query splits into no words |
| PyStr.JoinHasPart | agent.py:219 | every part occurs inside the joined string |
| PyStr.NatToString | agent.py:243 | `str(n)` is a non-empty string of decimal digits |
| PyStr.DecimalRoundTrip | agent.py:243 | reading the digits of `str(n)` back gives `n` |
| PyStr.ClampIndex | parser.py:13 | a Python slice bound is clamped into the string and an in-range bound is kept |
| PyStr.Slice | agent.py:46 | the clamped slice is never longer than the string and is the ordinary slice for in-range bounds |
| PyStr.Prefix | memory.py:31 | `s[:k]` is the first `k` elements, or all of them when there are fewer, and never longer than `k` |
| Collecting.CollectShape | agent.py:66-78 | the collection walk yields a prefix of all actions, at most max(limit, 1) long, with a stopping action only last, cut short only by the limit or a stopping action |
| Collecting.StoppedShape | agent.py:76-77 | an action that reaches the limit or stops ends the collection with that shape |
| Collecting.CollectShapeFromStart | agent.py:66-78 | the same shape for a walk that starts empty |
| Collecting.CollectFirst | agent.py:66-78 | nothing is collected exactly when no line parses, and otherwise the first parsed action comes first |
| Collecting.SomesAppend | agent.py:69-75 | the actions of two line runs are the actions of each, in order |
| Collecting.SomesSnoc | agent.py:73-75 | one more line adds its action, if it parses |
| Collecting.SomesEmptyIff | agent.py:73-75 | there are no actions exactly when no line parses |
| Collecting.CollectAll | agent.py:66-78 | under the limit and with no stopping action, every action is collected |
| Collecting.SomesLast | agent.py:73-75 | when the last line parses, its action is the last action |
| Collecting.CollectStopped | agent.py:76-77 | once the walk has stopped, later lines change nothing |
| Collecting.CollectSkip | agent.py:73-77 | a line that does not parse is skipped without ending the walk |
| Collecting.CollectGoesOn | agent.py:73-77 | a kept action that neither reaches the limit nor stops lets the walk go on, with the later lines deciding the end |
| Collecting.Parses | agent.py:69-73 | one parse per line |
| Collecting.ParsesAt | agent.py:69-73 | parse `i` is the parse of line `i` |
| Collecting.ParsesAgree | agent.py:69-73 | two parsers that agree on every line give the same parses |
| Collecting.ParsesSnoc | agent.py:69-73 | the parses of one more line extend the parses by that line's parse |
| Collecting.ParsesPrefix | agent.py:145-156 | the parses of a prefix of the lines are a prefix of the parses |
| Collecting.CollectLines | utils.py:52-59 | the append-and-break loop computes the collection walk over the parsed lines |
| Collecting.CollectLineStep | utils.py:54-58 | the loop step: a line that does not parse is skipped, and a kept action ends the walk at the limit or at a stopping action |
| Collecting.CollectNonEmptyIff | agent.py:81 | something is collected exactly when some line parses |
| Collecting.CollectStoppedPrefix | agent.py:150-155 | when a prefix of the lines already ends the walk, the whole walk gives that prefix's actions |
| AgentActions.VerbAt | agent.py:52 | a recognised tool name is one of Search, Open, Find, Crawl, Recall, spelled case-blind at the start |
| AgentActions.LazyEnd | agent.py:52 | the lazy `(.*?)` argument ends at or after `g`, within the line, and before any line break |
| AgentActions.LazyEndFirst | agent.py:52 | the lazy argument ends at the first position where the tail pattern matches after `g` |
| AgentActions.LazyEndAt | agent.py:52 | conversely, the first matching position is where the lazy argument ends |
| AgentActions.CallArgument | agent.py:52 | a parsed call argument is stripped and lies on one line |
| AgentActions.StripNoNewline | agent.py:63 | stripping a one-line string keeps it on one line |
| AgentActions.ParseToolCall | agent.py:60-63 | a parsed tool call names a tool other than Done, spelled case-blind after optional whitespace, with a stripped one-line argument |
| AgentActions.ParseSingleAction | agent.py:57-64 | a parsed line starts case-blind with `action:`, its argument is stripped and on one line, and a tool call spells its tool name after the tag |
| AgentActions.ParseDoneIff | agent.py:55-59 | Done with an empty argument is the result exactly for `Action:`, optional whitespace, `Done!` and trailing whitespace, in any case |
| AgentActions.IsAgentDoneLine | agent.py:55 | the Done pattern of agent.py; AgentActions.ParseDoneIff states it |
| AgentActions.ParseDoneLine | agent.py:55-59 | every such padded Done line parses as Done |
| AgentActions.NotArgTail | agent.py:52 | a tail whose `)` follows a non-space character other than a quote does not end the argument earlier |
| AgentActions.ParseOfToolCall | agent.py:57-63 | a non-Done `action:` line parses as the tool call after its tag |
| AgentActions.VerbAtSpelled | agent.py:52 | any case-blind spelling of a tool name is recognised as that tool |
| AgentActions.ToolCallOfVerb | agent.py:52-63 | a spelled tool followed by a call parses exactly when the call argument parses, with that argument |
| AgentActions.CallArgumentOfParen | agent.py:52 | the argument of `(…)` is the stripped text up to the lazy end, after the optional quote |
| AgentActions.ToolCallOf | agent.py:52-63 | an `Action:` line with a spelled tool and a parenthesised call parses to that tool and the stripped lazy argument, or to nothing when no end matches |
| AgentActions.ToolLineNotDone | agent.py:55-60 | a line naming a tool is an `action:` line and not a Done line |
| AgentActions.QuotedArgEnd | agent.py:52 | a quoted one-line argument ends just before its closing quote |
| AgentActions.NoTailInside | agent.py:52 | no position inside a quoted argument can end it |
| AgentActions.QuoteTail | agent.py:52 | a closing quote followed by `)` ends the argument |
| AgentActions.QuotedCallRoundTrip | agent.py:51-64 | `Action: Tool("arg")`, with any quotes and any case of the tool name, parses back to that tool and the stripped argument |
| AgentActions.BareArgEnd | agent.py:52 | an unquoted, unpadded one-line argument ends just before the `)` |
| AgentActions.BareCallRoundTrip | agent.py:51-64 | `Action: Tool(arg)` without quotes parses back to that tool and exactly that argument |
| AgentActions.FilterRedundant | agent.py:70-73 | the `action:` pre-filter of the extractor changes no parse: the parser itself rejects every other line |
| AgentActions.ExtractedShape | agent.py:66-78 | the extracted actions are the first action lines in order, at most `limit` (one when the limit is below one), a Done only last, cut short only by the limit or a Done |
| AgentActions.ExtractedActions | agent.py:66-78 | `_extract_actions`; AgentActions.ExtractedShape and AgentActions.ActionLineIff state it |
| AgentActions.ExtractActions | agent.py:66-78 | the extraction loop computes the extracted actions and has that shape |
| AgentActions.ActionLineIff | agent.py:66-78 | some action is extracted exactly when some stripped line parses |
| AgentActions.ValidFormatIff | agent.py:80-81 | a reply is well formed exactly when it starts with `Thought:` after leading whitespace and some stripped line parses as an action |
| AgentActions.HasValidFormat | agent.py:80-81 | `_has_valid_format`; AgentActions.ValidFormatIff states it |
| AgentActions.ExtractedNone | agent.py:66-78 | nothing is extracted exactly when no line of the block is an action |
| AgentActions.FirstSearch | agent.py:85-87 | the index of the first Search action, with none before it, or none at all |
| AgentActions.SelectActions | agent.py:83-88 | exactly one action is selected: the first Search when there is one, and otherwise the first action |
| AgentActions.StreamLinesLossless | agent.py:145-156 | the checked lines followed by the pending current line are exactly the concatenated tokens |
| AgentActions.StreamLinesEnd | agent.py:150 | every checked line ends in a line feed: a line is only checked when a token ends one |
| AgentActions.NoNewlineNoLines | agent.py:150 | tokens that never end in a line feed give no checked line, and everything stays pending |
| AgentActions.StreamLinesSnoc | agent.py:145-156 | one more token either closes the pending line or extends it |
| AgentActions.StreamLinesPrefix | agent.py:145-156 | the lines checked on a prefix of the stream are a prefix of all checked lines |
| AgentActions.ConsumeStream | agent.py:131-159 | the consumer reads a prefix of the tokens, returns their concatenation, and its actions are the collection over the checked lines; it stops early only right after the line that reached the limit or was a Done |
| AgentActions.StreamUntilActions | agent.py:131-159 | `_stream_until_actions` returns the stripped text of the consumed tokens, with the consumption described above |
| AgentActions.StreamEnd | agent.py:136-159 | a stream that ends without reaching the limit or a Done has been consumed whole |
| AgentActions.StreamStep | agent.py:145-156 | one token updates the buffers and the actions as the checked lines say, and a stop happens exactly at the limit or a Done |
| AgentActions.CheckedLine | agent.py:150-153 | a token ending in a line feed checks the stripped current line, adding its action if it parses |
| AgentActions.StreamStopped | agent.py:154-155 | stopping after the line that hit the limit or a Done leaves exactly the collected actions |
| Agent.SummaryPromptCitesSources | agent.py:119 | the summary prompt holds the numbered line of every source |
| Agent.Summarise | agent.py:118-128 | the summary is the stripped output of one long call with the summary prompt, temperature 0.20, reserve 256, cap 2048 and no streaming |
| Agent.SystemPromptShape | agent.py:91-116 | the system prompt starts with the instructions, and the question follows them, quoted, after `User question: ` |
| Agent.SystemPrompt | agent.py:91-116 | the dedented system prompt; Agent.SystemPromptShape states its shape |
| Agent.Trim | agent.py:255-256 | the trimmed history is a suffix of at most 12000 characters, the whole history when it fits, and exactly 12000 characters otherwise |
| Agent.TrimForgetsOlderText | agent.py:255-256 | when the newest text alone fills the bound, the trim keeps only its last 12000 characters |
| Agent.TrimCanCutMidLine | agent.py:255-256 | some history is trimmed to a piece that starts in the middle of a line |
| Agent.GrowsTrans | agent.py:196 | evidence growth composes: bounded appends of capped snippets add up |
| Agent.GrowsCapped | memory.py:31 | appending capped snippets keeps every snippet within 200 characters |
| Agent.SearchObservationCases | agent.py:188-209 | the observation starts with the printed results and carries an auto-open note exactly when the first result has a non-empty URL; that note opens the page with the search query |
| Agent.SearchTool | agent.py:188-209 | the observation is the printed results plus the auto-open note for the first result's URL, opened with the search query from the cache as it was; the memory value after it is the memory after opening that URL, or the memory before when there is none |
| Agent.SearchRecordsOpenedPage | agent.py:192-208 | with no URL to open the memory is unchanged; when the first result's page can be had it becomes the open page and one capped snippet for the search query is added, and the note shows that snippet; when it cannot, evidence and open page stay, and the note shows the failure message |
| Agent.SearchGrows | agent.py:188-209 | a Search adds at most one capped snippet of evidence and keeps the trace |
| Agent.FindObservationCases | agent.py:214-220 | with no open page the observation is the "Nothing open" note, with no occurrence it is the "No occurrences" note, and otherwise it joins one to three excerpts |
| Agent.FindTool | agent.py:214-220 | the find tool reports the find observation for the page opened last |
| Agent.CachePagesLast | agent.py:225-226 | after caching the crawled pages, a URL holds the markup of its last occurrence |
| Agent.CachePagesUntouched | agent.py:225-226 | a URL not crawled keeps its cache entry |
| Agent.PageDocsShape | agent.py:225-226 | at most one document per crawled page is indexed, each unvectorised, with tokens, and for a crawled URL |
| Agent.CrawlSnoc | agent.py:225-226 | one more crawled page adds its cache entry, and, when its text has tokens, one document and one document-frequency bump |
| Agent.CrawlTool | agent.py:223-227 | crawling caches every page, indexes each page with tokens in order, reports the page count, and leaves the evidence and the open page alone |
| Agent.JoinStartsWithFirst | agent.py:238 | the joined recall entries start with the first one |
| Agent.OpenHits | agent.py:234-237 | the recalled pages are opened one after another in rank order, each from the memory the previous one left; entry `i` is the score, the URL and 160 characters of page `i`'s snippet |
| Agent.OpenedHits | agent.py:234-237 | one snippet per recalled page |
| Agent.OpenedHitsGrows | agent.py:234-237 | opening the recalled pages adds at most one capped snippet per page, each for one of their URLs, and keeps every cached page and the trace |
| Agent.OpenHit | agent.py:236-237 | a recalled page is opened with the query and `auto_snippet` from the current cache, and its entry is the score, the URL and 160 characters of that snippet |
| Agent.RecallTool | agent.py:229-238 | the hits are the five best of the store after its own finalisation; with none the observation is the "No relevant docs yet" note and the memory is the finalised store; otherwise the entries of the opened hits, joined by blank lines, with the memory those openings leave |
| Agent.RecallShape | agent.py:229-238 | at most five hits, sorted by descending score, each a document with a vector once the search has finalised the store; the "No relevant docs yet" note exactly when there is no hit; at most one capped snippet per hit, each for a hit's URL |
| Agent.RecallGrows | agent.py:229-238 | a Recall adds at most five capped snippets and keeps the trace |
| Agent.RecallHitsShape | rag.py:52 | the first five of the sorted scores are at most five, sorted, and each names a scored document |
| Agent.Execute | agent.py:187-251 | running an action gives exactly the outcome `Agent.Executed` assigns to it from the memory before: the tool's observation and memory after, or, for Done, the summary when there is enough evidence and the rejection note otherwise |
| Agent.ExecutedEffects | agent.py:187-251 | only a Done with at least one source ends the run, with the summary of the evidence and the memory untouched; an early Done is rejected with the count; Find and Done change no memory, Crawl adds no evidence, Search and Open add at most one capped snippet and Recall at most five; no action touches the trace |
| Agent.NextHistCases | agent.py:174-176 | a malformed reply appends the corrective note untrimmed; an executed turn leaves a suffix of at most 12000 characters of the history plus its reply and observation |
| Agent.PlayTurn | agent.py:167-256 | one loop pass records a turn that follows from its number, history and memory through `Agent.TurnFollows`; it finishes exactly on an accepted Done, with at least one source, the memory unchanged and the summary as answer; otherwise it yields the next history; a rejected Done only happens with no evidence |
| Agent.ChainAt | agent.py:167 | every turn of a recorded chain links its history to the next one |
| Agent.ChainSnoc | agent.py:167 | a linked turn extends a chain |
| Agent.TraceAt | agent.py:167-256 | turn `k` of a run is turn `k + 1`, follows from the history before it, leaves the history after it, and did not end the run |
| Agent.TraceSnoc | agent.py:167-256 | a turn that follows from where the loop stands and does not end it extends the trace by that turn and the stage it leaves |
| Agent.TurnEvidence | agent.py:187-251 | within one turn the evidence only grows, by at most five capped snippets, and the trace stays empty |
| Agent.TraceStep | agent.py:167-256 | between consecutive stages of a run the evidence grows by at most five capped snippets |
| Agent.TraceGrows | agent.py:167-256 | the same for every pair of consecutive stages |
| Agent.EvidenceAlong | agent.py:167-256 | evidence that grows at every step from none grows from any step to any later one, and every snippet is at most 200 characters |
| Agent.TraceEvidence | agent.py:163-256 | along a run from an empty memory the evidence of every stage extends that of every earlier stage, and every snippet is at most 200 characters |
| Agent.SummaryCitesTrace | agent.py:118-128 | the summary prompt at the end of a run holds the numbered line of every piece of evidence recorded at any stage |
| Agent.RunResearchAgent | agent.py:162-261 | starting from the system prompt and an empty memory, the run records at most four turns, each following from the stage before it; a final answer comes from a further turn that follows from the last stage, before the fourth turn runs out, and is the summary of the at least one source held then; otherwise four turns ran and the result is the summary of the evidence held after them |
| Agent.RunFrom | agent.py:165-261 | the same loop, from any starting history |
| SessionMemory.PageSnippetCases | memory.py:73-76 | the snippet is the relevant-sentence extract when a query is given, snippets are wanted and some sentence matches; otherwise it is the first 400 characters |
| SessionMemory.PageSnippet | memory.py:73-76 | the snippet of a parsed page; SessionMemory.PageSnippetCases states its cases |
| SessionMemory.Memory.constructor | memory.py:17-27 | a fresh memory has an empty cache, log and evidence, no page open, and an empty store |
| SessionMemory.Memory.AddSource | memory.py:29-31 | exactly one `(url, snippet[:200])` is appended, and nothing else changes |
| SessionMemory.Memory.LogStep | memory.py:34-36 | the message is appended to the log, and nothing else changes |
| SessionMemory.Memory.AddWebContent | memory.py:39-44 | the markup is cached under the URL; the page is indexed as one unvectorised document, with each distinct token counted once, exactly when its text is non-empty and has tokens, and otherwise the store is unchanged; nothing else changes |
| SessionMemory.Memory.GetWebContent | memory.py:46-47 | the lookup gives the cached markup exactly for cached URLs |
| SessionMemory.Memory.OpenOrFetch | memory.py:50-79 | the fetcher is asked exactly on a cache miss. A non-empty fetch is cached, and it is indexed as one unvectorised document, its distinct tokens counted once, exactly when its text is non-empty and has tokens; a cache hit indexes nothing. Empty or missing markup gives the failure message and keeps the evidence and the open page. Otherwise the page becomes the open page, its snippet is returned, and exactly one `(url, snippet[:200])` source is added, also on a cache hit |
| SessionMemory.OpenAgain | memory.py:50-79 | opening the same URL again with the same query gives the same snippet, fetches and indexes nothing new, keeps the same page open, and records the same evidence once more |
| SessionMemory.OpenGrows | memory.py:50-79 | an open records at most one capped snippet, for its URL, indexes at most one document, for an uncached URL, and keeps every cached page and the trace |
| SessionMemory.OpenedSnippet | memory.py:60-79 | the snippet `open_or_fetch` returns from a given cache; SessionMemory.Memory.OpenOrFetch and SessionMemory.OpenAgain state its cases |
| Parser.FirstSplit | parser.py:7 | the leftmost whitespace after a sentence terminator, at or after `from`, or none at all |
| Parser.SentenceTokens | parser.py:5-7 | the splitter always returns at least one piece |
| Parser.SentenceTokensLossless | parser.py:5-7 | interleaving the pieces with the removed whitespace runs gives the text back |
| Parser.SentenceGapsAreWhitespace | parser.py:7 | each removed gap is a non-empty whitespace run |
| Parser.SentencePiecesUnsplittable | parser.py:7 | no piece contains a split point |
| Parser.SentencePiecesTerminated | parser.py:7 | every piece but the last ends with `.`, `!` or `?` |
| Parser.SentencePiecesUnpadded | parser.py:7 | no piece after the first starts with whitespace |
| Parser.SentenceTokensHead | parser.py:7 | the first piece is a prefix of the text |
| Parser.HitsExactlyRelevant | parser.py:12 | the kept sentences are an ordered subsequence, and a sentence is kept exactly when a lowered query word occurs in its lowered text |
| Parser.HitsEmpty | parser.py:12 | with no relevant sentence nothing is kept |
| Parser.SnippetsEmptyWithoutMatch | parser.py:9-13 | the snippet is empty when the query is blank or no sentence matches |
| Parser.HitsHeadRelevant | parser.py:12 | when some sentence matches, the first kept one is relevant |
| Parser.SnippetsNonEmptyWithMatch | parser.py:9-13 | with at least one sentence wanted and one matching, the snippet is not empty |
| Parser.ExtractRelevantSnippets | parser.py:9-13 | `extract_relevant_snippets`; Parser.HitsExactlyRelevant, Parser.SnippetsEmptyWithoutMatch and Parser.SnippetsNonEmptyWithMatch state it |
| Parser.RelevantNonEmpty | parser.py:12 | a sentence matched by non-empty words is not empty |
| Parser.Excerpts | parser.py:35-37 | one excerpt per occurrence |
| Parser.ExcerptsSnoc | parser.py:37 | one more occurrence appends its excerpt |
| Parser.ExcerptsAt | parser.py:35-37 | excerpt `j` is the stripped context window around occurrence `j` |
| Parser.HitStartsStep | parser.py:31-38 | the next occurrence is found from the current position, and the search then resumes just past it |
| Parser.HitStartsAdvance | parser.py:31-38 | the loop step preserves "the found starts plus the starts still to come are all the starts" |
| Parser.HitStartsDone | parser.py:31-34 | when the budget is spent or nothing more is found, the found starts are all of them |
| Parser.HitStartsBound | parser.py:31 | at most `max_hits` occurrences are taken |
| Parser.HitStartsOccur | parser.py:32 | every start is an occurrence of the lowered needle, at or after where the search began |
| Parser.HitStartsApart | parser.py:38 | the occurrences are increasing and do not overlap |
| Parser.HitStartsFirst | parser.py:32 | no occurrence lies before the first one found |
| Parser.HitStartsNoneSkipped | parser.py:31-38 | no occurrence is skipped between two consecutive ones taken |
| Parser.HitStartsExhaustive | parser.py:31-38 | when fewer than `max_hits` were taken, no occurrence follows the last one |
| Parser.ChunksBound | parser.py:31 | at most `max_hits` excerpts are returned, none for a negative limit |
| Parser.ChunksEmptyIffAbsent | parser.py:27-39 | the result is empty exactly when the needle does not occur case-blind |
| Parser.Chunks | parser.py:27-39 | the excerpts `find_chunks` returns; Parser.ChunksBound, Parser.ChunksEmptyIffAbsent and Parser.FindChunks state it |
| Parser.FindChunks | parser.py:27-39 | the find loop returns the stripped windows around the occurrences taken left to right, at most `max_hits` of them |
| Rag.TokenRun | rag.py:6 | the length of the leading run of token characters, followed by a non-token character or the end |
| Rag.Tokens | rag.py:8-9 | every token is a non-empty, lower-case run of `[A-Za-z0-9']` |
| Rag.TokensOfRun | rag.py:9 | a single run of token characters is one token, lower-cased |
| Rag.TokenRunAll | rag.py:6 | a string of token characters is one maximal run |
| Rag.TokenRunStops | rag.py:6 | a run ends at the first non-token character |
| Rag.TokensSplit | rag.py:8-9 | a non-token character separates: the tokens of the two sides are concatenated |
| Rag.TokenRunPrefix | rag.py:6 | a run of token characters before a non-token character is a whole run |
| Rag.TokensEmptyIff | rag.py:28-30 | text has no tokens exactly when it has no token character |
| Rag.CountPositive | rag.py:12 | a term is counted exactly when it occurs |
| Rag.Dedup | rag.py:12-13 | the distinct tokens: each token of the input exactly once, and nothing else, ordered by the position of its first occurrence |
| Rag.FirstIndex | rag.py:12 | the first position of a present token: it is there and not before |
| Rag.DedupPositions | rag.py:12 | one more token keeps the first positions of the earlier ones and, when new, takes the last position |
| Rag.TfIdfKeys | rag.py:11-13 | the vector's keys are exactly the distinct document tokens, in first-occurrence order |
| Rag.TfIdfWeights | rag.py:13 | each weight is the term count times the idf weight, and a term missing from the table weighs 0 |
| Rag.TfIdfEmpty | rag.py:11-13 | the vector is empty exactly when there are no tokens |
| Rag.TfIdf | rag.py:11-13 | `_tfidf_vector`; Rag.TfIdfKeys, Rag.TfIdfWeights and Rag.TfIdfEmpty state it |
| Rag.Cosine | rag.py:15-20 | the similarity is 0 when either vector is empty or the product of the norms is 0, and otherwise it times that product is the dot product |
| Rag.GetMissing | rag.py:18 | `b.get(t, 0.0)` is 0 for a missing key |
| Rag.DotDisjoint | rag.py:18 | vectors with no common term have dot product 0 |
| Rag.CosineDisjoint | rag.py:15-20 | vectors with no common term have similarity 0 |
| Rag.Bump | rag.py:32 | counting a token set adds those tokens to the table's keys |
| Rag.AddCountsValues | rag.py:32 | after adding documents, a term's count grows by the number of documents containing it |
| Rag.AddCountsSnoc | rag.py:32 | adding one more document bumps each of its distinct tokens once |
| Rag.AddCountsNonNegative | rag.py:32 | document-frequency counts stay non-negative |
| Rag.DocFreqCounts | rag.py:25-32 | from an empty table, a term's count is exactly the number of documents containing it |
| Rag.InsertPermutes | rag.py:52 | insertion into the sorted list keeps every element |
| Rag.InsertSorted | rag.py:52 | insertion keeps the list sorted by descending score |
| Rag.WithScoreAppend | rag.py:52 | the hits with any one score of a concatenation are those of each part, in order |
| Rag.InsertStable | rag.py:52 | an inserted hit goes after every equal-scored hit already there |
| Rag.InsertStableStep | rag.py:52 | insertion passes a hit whose score is not lower, keeping ties in order |
| Rag.InsertStableFront | rag.py:52 | a hit placed in front passes no hit with its own score |
| Rag.WithScoreAbsent | rag.py:52 | a score that no hit carries selects none |
| Rag.SortDescCorrect | rag.py:52 | the sort is descending, a permutation, and stable: the hits with each score keep their order |
| Rag.SortDesc | rag.py:52 | the stable descending sort; Rag.SortDescCorrect states it |
| Rag.ScoredFrom | rag.py:48-51 | every scored hit names a document with a non-empty vector |
| Rag.FinaliseWeights | rag.py:36-37 | the idf loop replaces every count by its log-weight from the document count |
| Rag.Vectorise | rag.py:39-40 | every document gets the TF-IDF vector of its tokens under the final table, and keeps its URL and tokens |
| Rag.FinalisedInv | rag.py:34-40 | vectorising every document restores the store invariant with all documents vectorised |
| Rag.UnfinalisedCounts | rag.py:32 | before finalising, the table holds only non-negative counts |
| Rag.MiniVectorStore.constructor | rag.py:23-25 | a fresh store has no documents, an empty table and nothing vectorised |
| Rag.MiniVectorStore.Add | rag.py:27-32 | text with no tokens changes nothing; otherwise exactly one unvectorised document is appended and each distinct token is counted once |
| Rag.MiniVectorStore.Finalize | rag.py:34-40 | every count becomes its log-weight over the document count (1 for an empty store), and every document gets its vector under the new table |
| Rag.MiniVectorStore.ScoreDocs | rag.py:47-51 | the scoring loop computes the similarity of each document that has a non-empty vector, in insertion order |
| Rag.MiniVectorStore.SimilaritySearch | rag.py:42-52 | the store is finalised exactly when its first document has no vector, and otherwise left alone; the result is the first `k` of the stably sorted scores |
| Rag.StoreSearchable | rag.py:34-44 | a store that keeps its invariant still holds document counts whenever it is about to be finalised |
| Rag.SearchResultShape | rag.py:42-52 | the search returns at most `k` hits, sorted by descending score, none from an empty store, each naming a document with a non-empty vector |
| Rag.LateDocsNeverScored | rag.py:43-49 | only documents vectorised at the last finalisation are scored; documents added after it never are |
| Utils.JoinHead | utils.py:26 | a join of non-empty parts starts with the first part's first character |
| Utils.JoinSnoc | utils.py:26 | joining one more part appends the separator and that part |
| Utils.FormatEmptyIff | utils.py:24-31 | the listing is "No results found." exactly when there are no hits |
| Utils.FormatAppend | utils.py:26-31 | one more hit appends a line break and its numbered block |
| Utils.FormatSingle | utils.py:26-31 | a single hit prints as its number, title, URL and body lines, with the defaults |
| Utils.FormatSearchResults | utils.py:22-31 | `format_search_results`; Utils.FormatEmptyIff, Utils.FormatAppend and Utils.FormatSingle state it |
| Utils.WordRun | utils.py:14 | the length of the leading `\w` run, followed by a non-word character or the end |
| Utils.BareArgEnd | utils.py:16-17 | the lazy bare argument ends at the first position from `m` where an optional `)` and the end of the line follow, with no quote, `)` or line break before it |
| Utils.ParseAction | utils.py:34-42 | a parsed line starts case-blind with `action:`, its verb is a word, and its argument is stripped |
| Utils.ParseCall | utils.py:12-18 | a parsed call has a word verb and a stripped argument |
| Utils.WordRunOf | utils.py:14 | a word followed by a non-word character is one whole verb |
| Utils.ParseCallOf | utils.py:38-41 | a word verb followed by a parsable argument gives the lower-cased verb and the stripped argument |
| Utils.ParseActionOfCall | utils.py:36-41 | an `action:` line that is not a Done line parses as its call part |
| Utils.NotDoneLine | utils.py:11 | a word verb followed by punctuation other than `!` is not a Done line |
| Utils.ParseOfCall | utils.py:36-41 | `Action: verb…` parses exactly when its argument does, and then to the lower-cased verb and the stripped argument |
| Utils.ParseQuotedRoundTrip | utils.py:12-18 | `Action: verb("arg")` parses back to the lower-cased verb and `arg`, for any stripped, non-empty, quote-free argument |
| Utils.QuotedArgument | utils.py:16 | a quoted argument is the text between the quotes |
| Utils.TailOkFails | utils.py:17 | the end of the pattern cannot match where no `)` follows before a non-space end of the line |
| Utils.BareArgWhole | utils.py:16-17 | an argument free of quotes, `)` and line breaks, with no trailing space, runs to the end of the line |
| Utils.ParseBareRoundTrip | utils.py:12-18 | `Action: verb arg` without parentheses parses back to the lower-cased verb and `arg` |
| Utils.ParseDoneLine | utils.py:11 | `Action:`, optional whitespace and `Done` with or without `!` parse as ("done", "") |
| Utils.DoneLineParses | utils.py:36-37 | every line the Done pattern matches parses as ("done", "") |
| Utils.DoneLineShape | utils.py:11 | such lines are matched by the Done pattern |
| Utils.IsDoneLine | utils.py:11 | the Done pattern of utils.py; Utils.DoneLineParses and Utils.DoneLineShape state it |
| Utils.EmptyQuotedRejected | utils.py:16-18 | `Action: verb("")` does not parse: the quoted form needs one character and the bare form no quotes |
| Utils.EmptyQuotedText | utils.py:16 | the argument text `("")` matches neither argument form |
| Utils.ParenText | utils.py:15 | the opening parenthesis is skipped before the argument |
| Utils.EmptyParensAccepted | utils.py:15-17 | `Action: verb()` parses with an empty argument |
| Utils.EmptyParensText | utils.py:15-17 | the argument text `()` gives the empty argument |
| Utils.ParsedActionsShape | utils.py:45-59 | the parsed actions are the first ones in line order, at most the limit (3 by default, one when the limit is below one), a "done" only last, cut short only by the limit or a "done" |
| Utils.ParseActions | utils.py:45-59 | the loop computes those parsed actions and has that shape |
| Utils.ValidateIff | utils.py:62-75 | a reply is valid exactly when it starts with `Thought:` after leading whitespace, yields some action, and that action is not "find" when Find is disallowed |
| Utils.ValidateActionFormat | utils.py:62-75 | `validate_action_format`; Utils.ValidateIff states it |
| WebSearch.CleanHitIff | web_search.py:22-27 | a URL is dropped exactly when it does not start with `http` or contains one of the four ad and tracker fragments |
| WebSearch.CleanHit | web_search.py:22-27 | `_clean_hit`; WebSearch.CleanHitIff states it |
| WebSearch.AllHits | web_search.py:44-56 | the clean hits are never more than the candidates |
| WebSearch.AllHitsAppend | web_search.py:44-56 | the clean hits of two candidate runs are those of each, in order |
| WebSearch.AllHitsClean | web_search.py:44-56 | every kept hit has a clean URL and comes from a kept candidate |
| WebSearch.CappedHits | web_search.py:44-58 | the capped hits are a prefix of the clean hits in page order |
| WebSearch.CollectHits | web_search.py:44-58 | the provider loop computes the capped hits |
| WebSearch.CappedHitsShape | web_search.py:44-58 | at most `k` hits (for `k` of at least one), each with a clean URL, and none exactly when no candidate is kept |
| WebSearch.KeptGivesHit | web_search.py:49-56 | a kept candidate yields a hit |
| WebSearch.SearchWeb | web_search.py:84-102 | the search returns the printed results and the results of the fallback chain |
| WebSearch.FallbackOnlyOnFailure | web_search.py:90-91 | when DuckDuckGo answers, Startpage is never consulted |
| WebSearch.BothFail | web_search.py:92-98 | when both providers raise, there are no results and the listing is "No results found." |
| WebSearch.NoResultsText | web_search.py:102 | the listing is "No results found." exactly when there are no results |
| WebSearch.SearchResults | web_search.py:90-98 | the results of the fallback chain; WebSearch.FallbackOnlyOnFailure and WebSearch.BothFail state it |
| LlmInterface.Budget | llm_interface.py:27-32 | the budget is at least 64, at most a cap of 64 or more, and with no cap the room left whenever that is at least 64 |
| LlmInterface.MostFrequent | llm_interface.py:90 | the chosen candidate is one of them and no candidate occurs more often |
| LlmInterface.MajorityVoteUnanimous | llm_interface.py:90 | identical outputs vote for themselves |
| LlmInterface.MajorityVote | llm_interface.py:90 | the vote is one of the outputs, and no output occurs more often |
| LlmInterface.CallLlm | llm_interface.py:68-90 | with `self_consistency` at most 1, the stripped output of one call at temperature 0.32 with reserve 400 and no cap, streamed as asked; otherwise one of the `n` outputs of the planned block calls with no output more frequent |
| LlmInterface.CallLlmLong | llm_interface.py:92-108 | the same for the long call, at temperature 0.20 with reserve 256 and the given cap |
| LlmInterface.CallPlanShape | llm_interface.py:68-90 | `call_llm` makes one call (streaming as asked, temperature 0.32) or, for `n > 1`, `n` block calls at rising temperatures; every call has reserve 400 and no cap |
| LlmInterface.LongCallPlanShape | llm_interface.py:92-108 | `call_llm_long` makes one call at temperature 0.20 or `n` block calls; every call has reserve 256 and the given cap |
| LlmInterface.AnswerIsVoted | llm_interface.py:82-90 | the answer is one of the outputs: the single call's, or one of maximal count under self-consistency |
| LlmInterface.LongCallBudget | llm_interface.py:99-102 | each long call's budget lies between 64 and its cap |

## Left out

- The language model (`Llama`, its loading, `tokenize`, `_call_block` and `_call_stream` bodies): foreign library calls. They are the `gen`, `stream` and `tokens` oracles.
- `top_p`, `repeat_penalty`, the `stop=["Observation:"]` sequence and sampling temperatures as numbers. These are sampling parameters of the oracle. The model records only which temperature each call asks for.
- The fetcher, the crawler, BeautifulSoup, `requests`, `html.unescape` and `parse_html`: network or third-party behaviour. They are the `fetch`, `crawl`, `ddg`, `startpage`, `unescape` and `parse` oracles. fetcher.py, crawler.py and main.py are not part of this model.
- The crawl result is a dictionary. The model takes it as the sequence of its items; every property holds whatever their order.
- `math.log`, `math.sqrt`, the real division of the cosine, and the `{score:.2f}` formatting: floating point. Weights are Dafny reals, and the numeric functions and the score printer are oracles.
- The thread pool of the Search auto-open. With `AUTO_OPEN_TOP_K = 1`, at most one page is opened, so the model runs it sequentially.
- `THREAD_POOL_WORKERS` and `SELF_CONSISTENCY_N`: the agent never uses either value in a way that changes the result.
- `print`, `verbose`, `time.sleep`, `random` jitter and the timing in `search_web`: they have no effect on the state.
- `_words` in agent.py: no code calls it.
- Unicode case mapping: `lower()` maps only ASCII letters here, so lowering keeps lengths, and `_find_chunks` is the same function as `find_chunks`.
- Utils.IsWordChar: `\w` is the ASCII class `[A-Za-z0-9_]` here, while Python 3's `re` matches any Unicode letter or digit. With a non-ASCII verb, `parse_action` accepts lines that the model rejects.
- Utils.WordRun: counts ASCII word characters only, for the same reason, so a verb stops at its first non-ASCII letter.
- The oracles are fixed functions. A fetch that fails for a URL fails whenever it is repeated. A search, crawl or fetch asked the same question twice gives the same answer. The model does not capture pages that change between calls, or a network that recovers.
- Agent.RunResearchAgent: the system prompt is modelled after `textwrap.dedent` on the assumption that the question holds no line break (a multi-line question would change the common indent).
- AgentActions.SelectActions: requires a non-empty list, as `actions[0]` does in the source. The agent only calls it on a well-formed reply, whose action list is never empty.
- Agent.Execute: has no "Unknown action" branch (agent.py:250-251). The model's action type has exactly the six verbs its ASCII grammar accepts. The source reaches that branch through the non-ASCII spellings below: `Action: Fınd("x")` passes the `lower().startswith("action:")` filter, matches agent.py:52 and yields the verb `"fınd"`, grammar the model rejects. The model treats that reply as malformed and appends the corrective note instead of the "Unknown action" observation.
- AgentActions.VerbAt: the tool names are compared case-blind over ASCII only. Python's `re.IGNORECASE` (agent.py:51-54) also lets `ı` (dotless i) and `İ` (dotted capital I) match `i`, and `ſ` (long s) match `s`, so it accepts `Fınd`, `FİND` and `ſearch`, which the model rejects.
- AgentActions.ParseToolCall: the `Action:` tag and the tool name are compared case-blind over ASCII only, for the same reason, so `Actıon: Open(u)` and `Action: Fınd(x)` parse in the source and not in the model.
- AgentActions.ParseSingleAction: the same ASCII-only comparison. In the stream consumer (agent.py:151), which has no pre-filter, a line such as `Actıon: Search("x")` counts as an action in the source and can stop the stream earlier than in the model.
- AgentActions.IsAgentDoneLine: the `Action:` tag and `Done` are compared over ASCII case only, while `re.I` also accepts `Actıon: Done!`.
- AgentActions.FilterRedundant: holds only for the ASCII grammar. In the source the `lower().startswith("action:")` filter (agent.py:71) drops `Actıon:` lines that `_parse_single_action` would accept, because `lower()` keeps `ı`.
- Utils.ParseAction: the `Action:` tag is compared over ASCII case only, while `re.I` (utils.py:11-18) also accepts `Actıon:` and `ACTİON:`.
- Utils.IsDoneLine: the `Action:` tag and `Done` are compared over ASCII case only, while `re.I` also accepts `Actıon: Done`.
- LlmInterface.MajorityVote: does not fix which of several equally frequent outputs wins. Python's choice depends on set iteration order, so the model only promises a most frequent output.
