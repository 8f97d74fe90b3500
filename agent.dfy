/**
 * The research loop of `run_research_agent`: a system prompt, at most four
 * turns, each of which streams a reply, checks its format, picks one action
 * and runs it against the session memory, and a final summary written from
 * the evidence gathered.
 *
 * The language model, the search providers, the fetcher, the HTML parser,
 * the crawler, the numeric functions of the vector store and the printing
 * of scores are oracles bundled in `Oracles`. The streamed tokens of a turn
 * depend on the turn number as well as on the request, since sampling makes
 * two calls with the same prompt differ.
 */
module Agent {
  import opened Options
  import opened PyStr
  import opened AgentActions
  import opened SessionMemory
  import Utils
  import WebSearch
  import LlmInterface
  import Rag
  import Parser

  const MAX_LOOPS: nat := 4
  const MIN_SUPPORT_SOURCES: nat := 1
  const AUTO_OPEN_TOP_K: int := 1
  const MAX_HISTORY_CHARS: nat := 12000
  const CRAWL_MAX_PAGES: int := 40
  /** A Search asks for this many results. */
  const SEARCH_MAX_RESULTS: int := 8
  /** `_find_chunks`' defaults: 120 characters of context, at most 3 excerpts. */
  const FIND_CONTEXT: int := 120
  const FIND_MAX_HITS: int := 3
  /** A Recall looks at this many stored pages and previews 160 characters of each. */
  const RECALL_K: int := 5
  const RECALL_PREVIEW_CHARS: int := 160
  /** The streaming call of a turn: 400 tokens kept free of the prompt, temperature 0.32, no cap. */
  const STREAM_RESERVE: int := 400
  const STREAM_TEMPERATURE: real := 0.32
  /** The summary is a long call capped at 2048 tokens. */
  const SUMMARY_CAP: int := 2048

  /** Everything the loop consults but does not compute itself. */
  datatype Oracles = Oracles(
    stream: (nat, LlmInterface.Request) -> seq<string>,
    gen: LlmInterface.Request -> string,
    fetch: string -> Option<string>,
    parse: string -> string,
    ddg: string -> WebSearch.Outcome,
    startpage: string -> WebSearch.Outcome,
    unescape: string -> string,
    crawl: (string, int) -> seq<(string, string)>,
    ln: real -> real,
    sqrt: real -> real,
    scoreText: real -> string)

  // ---------------------------------------------------------------- prompts

  /**
   * `_build_system_prompt(q)` after `textwrap.dedent` has removed the
   * common eight-space margin: the fixed instructions, then the question.
   */
  function SystemPrompt(q: string): string {
    INSTRUCTIONS + (QUESTION_TAG + q + "\"") + "\nBegin.\n"
  }

  const QUESTION_TAG: string := "User question: \""

  /** The system prompt opens with the instructions, and the question follows them, quoted. */
  lemma SystemPromptShape(q: string)
    ensures StartsWith(SystemPrompt(q), INSTRUCTIONS)
    ensures OccursAt(SystemPrompt(q), QUESTION_TAG + q + "\"", |INSTRUCTIONS|)
  {
    PromptShape(INSTRUCTIONS, QUESTION_TAG + q + "\"", "\nBegin.\n");
  }

  lemma PromptShape(a: string, b: string, c: string)
    ensures StartsWith(a + b + c, a) && OccursAt(a + b + c, b, |a|)
  {
    assert (a + b + c)[..|a|] == a;
    assert (a + b + c)[|a|..|a| + |b|] == b;
  }

  /** The tool list and the rules that open every system prompt. */
  const INSTRUCTIONS: string :=
    "You are an AI web-research agent.\n\nTools you can call (multiple per turn):\n"
    + "  \U{2022} Action: Search(\"query\")   \U{2013} search the web\n"
    + "  \U{2022} Action: Open(\"url\")       \U{2013} open a URL\n"
    + "  \U{2022} Action: Find(\"keyword\")   \U{2013} keyword search in the open page\n"
    + "  \U{2022} Action: Crawl(\"site\")     \U{2013} crawl that site; add pages to memory\n"
    + "  \U{2022} Action: Recall(\"query\")   \U{2013} retrieve pages similar to query\n"
    + "  \U{2022} Action: Done!             \U{2013} when you have enough evidence\n\n"
    + "Output every turn (exactly one Thought then \U{2264}" + NatToString(ACTION_LIMIT) + " Action lines):\n"
    + "  Thought: <multi-sentence reasoning>\n  Action:  <tool call>\n  \U{2026}\n\nRules:\n"
    + "  0-a. First turn MUST be Action: Search(\"query\") (paraphrase allowed).\n"
    + "  0-b. After each Search, immediately Open one promising URL.\n"
    + "  1. Gather evidence from \U{2265}" + NatToString(MIN_SUPPORT_SOURCES) + " distinct URLs.\n"
    + "  2. The agent will execute at most **one** Action per cycle.\n\n"

  /** The `i`-th line of the source block, numbered from 1. */
  function SourceLine(i: nat, s: Source): string {
    "[" + NatToString(i + 1) + "] " + s.0 + " \U{2014} " + s.1
  }

  function SourceLines(sources: seq<Source>): seq<string> {
    seq(|sources|, i requires 0 <= i < |sources| => SourceLine(i, sources[i]))
  }

  const SUMMARY_HEAD: string := "Write a concise answer (3\U{2013}6 bullet points or a short paragraph).\nQuestion:\n"

  /** `_summarise`'s prompt: the question, then the numbered sources. */
  function SummaryPrompt(q: string, sources: seq<Source>): string {
    SUMMARY_HEAD + q + "\n\nSources:\n" + Join("\n", SourceLines(sources)) + "\n\nAnswer:"
  }

  /**
   * `_summarise(q, sources)`: the stripped output of a single block call
   * with the summary prompt at temperature 0.20 that keeps 256 tokens free
   * and is capped at 2048.
   */
  function Summarise(q: string, sources: seq<Source>, gen: LlmInterface.Request -> string): (r: string)
    ensures r == Strip(gen(LlmInterface.Request(SummaryPrompt(q, sources), 0.20, 256, Some(SUMMARY_CAP), false)))
  {
    LlmInterface.CallLlmLong(SummaryPrompt(q, sources), 1, Some(SUMMARY_CAP), false, gen)
  }

  /** Every piece of evidence is cited, with its number, in the summary prompt. */
  lemma SummaryPromptCitesSources(q: string, sources: seq<Source>, k: nat)
    requires k < |sources|
    ensures Contains(SummaryPrompt(q, sources), SourceLine(k, sources[k]))
  {
    var lines := SourceLines(sources);
    var block := Join("\n", lines);
    JoinHasPart("\n", lines, k);
    var i: nat :| OccursAt(block, lines[k], i);
    var head := SUMMARY_HEAD + q + "\n\nSources:\n";
    OccursWithin(head, block, "\n\nAnswer:", lines[k], i);
    assert SummaryPrompt(q, sources) == head + block + "\n\nAnswer:";
    ContainsAt(SummaryPrompt(q, sources), lines[k], |head| + i);
  }

  // ---------------------------------------------------------------- history

  const FORMAT_FIX: string := "Observation: Reply must start with Thought: and contain an Action.\n"

  /** `hist[-12000:]` once the history is longer than 12000 characters. */
  function Trim(h: string): (r: string)
    ensures |r| <= MAX_HISTORY_CHARS && |r| <= |h| && r == h[|h| - |r|..]
    ensures |h| <= MAX_HISTORY_CHARS ==> r == h
    ensures |h| > MAX_HISTORY_CHARS ==> |r| == MAX_HISTORY_CHARS
  {
    if |h| > MAX_HISTORY_CHARS then h[|h| - MAX_HISTORY_CHARS..] else h
  }

  /** What a turn that ran an action appends to the history. */
  function TurnRecord(reply: string, observations: seq<string>): string {
    reply + "\n\nObservation: " + Join("\n----\n", observations) + "\n"
  }

  /** Once 12000 characters have followed a text, trimming keeps none of it. */
  lemma TrimForgetsOlderText(older: string, newer: string)
    requires |newer| >= MAX_HISTORY_CHARS
    ensures Trim(older + newer) == newer[|newer| - MAX_HISTORY_CHARS..]
  {
    var h := older + newer;
    assert h[|h| - MAX_HISTORY_CHARS..] == newer[|newer| - MAX_HISTORY_CHARS..];
  }

  /** The cut is by characters, so the kept history can start in the middle of a line. */
  lemma TrimCanCutMidLine()
    ensures exists h: string :: |Trim(h)| < |h| && h[|h| - |Trim(h)| - 1] != '\n' && Trim(h)[0] != '\n'
  {
    var h := seq(MAX_HISTORY_CHARS + 1, i => 'a');
    assert Trim(h) == h[1..];
    assert h[0] == 'a' && Trim(h)[0] == h[1];
  }

  // ---------------------------------------------------------------- evidence

  /** Every recorded snippet is at most 200 characters long. */
  predicate SnippetsCapped(sources: seq<Source>) {
    forall i | 0 <= i < |sources| :: |sources[i].1| <= SOURCE_SNIPPET_CHARS
  }

  /** `after` is `before` plus at most `n` further pieces of evidence, each cut to 200 characters. */
  predicate Grows(before: seq<Source>, after: seq<Source>, n: nat) {
    && before <= after && |after| <= |before| + n
    && forall i | |before| <= i < |after| :: |after[i].1| <= SOURCE_SNIPPET_CHARS
  }

  lemma GrowsTrans(a: seq<Source>, b: seq<Source>, c: seq<Source>, m: nat, n: nat)
    requires Grows(a, b, m) && Grows(b, c, n)
    ensures Grows(a, c, m + n)
  {
    forall i | |a| <= i < |c|
      ensures |c[i].1| <= SOURCE_SNIPPET_CHARS
    {
      if i < |b| {
        assert c[i] == b[i];
      }
    }
  }

  /** Growth keeps every snippet within the cap. */
  lemma GrowsCapped(a: seq<Source>, b: seq<Source>, n: nat)
    requires SnippetsCapped(a) && Grows(a, b, n)
    ensures SnippetsCapped(b)
  {
    forall i | 0 <= i < |b|
      ensures |b[i].1| <= SOURCE_SNIPPET_CHARS
    {
      if i < |a| {
        assert b[i] == a[i];
      }
    }
  }

  // ---------------------------------------------------------------- Search

  /** The results of a Search for `arg`. */
  function SearchedHits(arg: string, o: Oracles): seq<Utils.SearchHit> {
    WebSearch.SearchResults(arg, SEARCH_MAX_RESULTS, o.ddg, o.startpage, o.unescape)
  }

  /** The URL a Search opens: the first result's `href`, when it has a non-empty one. */
  function AutoOpenUrl(results: seq<Utils.SearchHit>): Option<string> {
    if results == [] then None
    else match results[0].href
      case None => None
      case Some(u) => if u == "" then None else Some(u)
  }

  function AutoOpenNote(url: string, snippet: string): string {
    "\n\n[Auto-opened] " + url + "\nSnippet: " + snippet + "\U{2026}"
  }

  /** The observation of a Search, given the cache it starts from. */
  function SearchObservation(arg: string, cache: map<string, string>, o: Oracles): string {
    var results := SearchedHits(arg, o);
    Utils.FormatSearchResults(results)
    + match AutoOpenUrl(results)
      case None => ""
      case Some(u) => AutoOpenNote(u, OpenedSnippet(cache, u, Some(arg), true, o.fetch, o.parse))
  }

  /**
   * A Search observation starts with the printed results; it adds an
   * auto-open note exactly when the first result carries a URL, and that
   * note opens the page with the search query.
   */
  lemma SearchObservationCases(arg: string, cache: map<string, string>, o: Oracles)
    ensures var results := SearchedHits(arg, o);
      var listing := Utils.FormatSearchResults(results);
      && listing <= SearchObservation(arg, cache, o)
      && (AutoOpenUrl(results).None? <==> SearchObservation(arg, cache, o) == listing)
      && (results != [] && results[0].href.Some? && results[0].href.value != "" ==>
            var u := results[0].href.value;
            SearchObservation(arg, cache, o)
              == listing + AutoOpenNote(u, OpenedSnippet(cache, u, Some(arg), true, o.fetch, o.parse)))
  {
    var results := SearchedHits(arg, o);
    var listing := Utils.FormatSearchResults(results);
    var obs := SearchObservation(arg, cache, o);
    if AutoOpenUrl(results).Some? {
      var u := AutoOpenUrl(results).value;
      var note := AutoOpenNote(u, OpenedSnippet(cache, u, Some(arg), true, o.fetch, o.parse));
      assert obs == listing + note;
      assert |note| > 0;
    } else {
      assert obs == listing + "";
    }
  }

  /** The memory after a Search: the first result's page opened with the query, when it has a URL. */
  function SearchedMemory(arg: string, s: MemState, o: Oracles): MemState {
    match AutoOpenUrl(SearchedHits(arg, o))
    case None => s
    case Some(u) => AfterOpen(s, u, Some(arg), true, o.fetch, o.parse)
  }

  /**
   * A Search whose first result opens records that page as the one open
   * and as one more piece of evidence, with the snippet for the query; a
   * Search whose first result has no URL, or whose page cannot be had,
   * records no evidence and leaves the open page as it was.
   */
  lemma SearchRecordsOpenedPage(arg: string, s: MemState, o: Oracles)
    ensures var s1 := SearchedMemory(arg, s, o);
      match AutoOpenUrl(SearchedHits(arg, o))
      case None => s1 == s
      case Some(u) =>
        var html := Lookup(s.cache, u, o.fetch);
        if html.Some? && html.value != "" then
          var text := ParseHtml(html.value, o.parse);
          && s1.lastOpenedUrl == Some(u) && s1.lastPageText == Some(text)
          && s1.sources == s.sources + [(u, Prefix(PageSnippet(text, Some(arg), true), SOURCE_SNIPPET_CHARS))]
          && OpenedSnippet(s.cache, u, Some(arg), true, o.fetch, o.parse) == PageSnippet(text, Some(arg), true)
        else
          && s1.sources == s.sources && s1.lastOpenedUrl == s.lastOpenedUrl && s1.lastPageText == s.lastPageText
          && OpenedSnippet(s.cache, u, Some(arg), true, o.fetch, o.parse) == FailureMessage(u)
  {
  }

  /**
   * Search: print the results, then open the first result's page (the
   * thread pool fetches at most `AUTO_OPEN_TOP_K` = 1 page, so it runs one
   * call or none) and append its snippet.
   */
  method SearchTool(arg: string, mem: Memory, o: Oracles) returns (obs: string)
    requires mem.Valid()
    modifies mem, mem.vstore
    ensures mem.Valid()
    ensures obs == SearchObservation(arg, old(mem.cache), o)
    ensures mem.State() == SearchedMemory(arg, old(mem.State()), o)
  {
    var formatted, results := WebSearch.SearchWeb(arg, SEARCH_MAX_RESULTS, o.ddg, o.startpage, o.unescape);
    obs := formatted;
    var top := Prefix(results, AUTO_OPEN_TOP_K);
    if top != [] && top[0].href.Some? && top[0].href.value != "" {
      var u := top[0].href.value;
      var sn := mem.OpenOrFetch(u, Some(arg), true, o.fetch, o.parse);
      obs := obs + AutoOpenNote(u, sn);
    }
  }

  // ---------------------------------------------------------------- Find

  const NOTHING_OPEN: string := "Nothing open\U{2014}use Open(url) first."

  function NoOccurrences(needle: string): string {
    "No occurrences of \U{201C}" + needle + "\U{201D}."
  }

  /** The observation of a Find, given the text of the page opened last. */
  function FindObservation(page: Option<string>, needle: string): string {
    match page
    case None => NOTHING_OPEN
    case Some(text) =>
      var hits := Parser.Chunks(text, needle, FIND_CONTEXT, FIND_MAX_HITS);
      if hits != [] then Join("\U{2026}\n", hits) else NoOccurrences(needle)
  }

  /**
   * A Find without an open page asks for one; on an open page it reports
   * no occurrence when the needle is absent (ignoring case), and otherwise
   * joins the one to three excerpts around its first occurrences.
   */
  lemma FindObservationCases(page: Option<string>, needle: string)
    ensures page.None? ==> FindObservation(page, needle) == NOTHING_OPEN
    ensures page.Some? && !Contains(Lower(page.value), Lower(needle)) ==>
      FindObservation(page, needle) == NoOccurrences(needle)
    ensures page.Some? && Contains(Lower(page.value), Lower(needle)) ==>
      var hits := Parser.Chunks(page.value, needle, FIND_CONTEXT, FIND_MAX_HITS);
      1 <= |hits| <= FIND_MAX_HITS && FindObservation(page, needle) == Join("\U{2026}\n", hits)
  {
    if page.Some? {
      Parser.ChunksEmptyIffAbsent(page.value, needle, FIND_CONTEXT, FIND_MAX_HITS);
      Parser.ChunksBound(page.value, needle, FIND_CONTEXT, FIND_MAX_HITS);
    }
  }

  /** Find: excerpts of the page opened last; nothing changes. */
  method FindTool(arg: string, mem: Memory) returns (obs: string)
    ensures obs == FindObservation(mem.lastPageText, arg)
  {
    if mem.lastPageText.None? {
      obs := NOTHING_OPEN;
    } else {
      var hits := Parser.FindChunks(mem.lastPageText.value, arg, FIND_CONTEXT, FIND_MAX_HITS);
      obs := if hits != [] then Join("\U{2026}\n", hits) else NoOccurrences(arg);
    }
  }

  // ---------------------------------------------------------------- Crawl

  /** The cache after storing each crawled page in turn. */
  function CachePages(cache: map<string, string>, pages: seq<(string, string)>): map<string, string>
    decreases |pages|
  {
    if pages == [] then cache
    else
      var last := pages[|pages| - 1];
      CachePages(cache, pages[..|pages| - 1])[last.0 := last.1]
  }

  /** The documents the crawled pages add to the store, in order. */
  function PageDocs(pages: seq<(string, string)>, parse: string -> string): seq<Rag.Doc>
    decreases |pages|
  {
    if pages == [] then []
    else
      var last := pages[|pages| - 1];
      var text := ParseHtml(last.1, parse);
      PageDocs(pages[..|pages| - 1], parse) + (if Indexable(text) then [Rag.Doc(last.0, Rag.Tokens(text), None)] else [])
  }

  /** The document frequencies after the crawled pages are added. */
  function PageIdf(idf: map<string, real>, pages: seq<(string, string)>, parse: string -> string): map<string, real>
    decreases |pages|
  {
    if pages == [] then idf
    else
      var last := pages[|pages| - 1];
      var text := ParseHtml(last.1, parse);
      var before := PageIdf(idf, pages[..|pages| - 1], parse);
      if Indexable(text) then Rag.Bump(before, Rag.TokenSet(Rag.Tokens(text))) else before
  }

  /** After a crawl each crawled URL holds the markup of its last occurrence in the crawl. */
  lemma {:induction false} CachePagesLast(cache: map<string, string>, pages: seq<(string, string)>, i: nat)
    requires i < |pages|
    requires forall j | i < j < |pages| :: pages[j].0 != pages[i].0
    ensures pages[i].0 in CachePages(cache, pages) && CachePages(cache, pages)[pages[i].0] == pages[i].1
    decreases |pages|
  {
    var n := |pages| - 1;
    if i < n {
      CachePagesLast(cache, pages[..n], i);
    }
  }

  /** A URL the crawl did not return keeps its cache entry, or its absence. */
  lemma {:induction false} CachePagesUntouched(cache: map<string, string>, pages: seq<(string, string)>, u: string)
    requires forall j | 0 <= j < |pages| :: pages[j].0 != u
    ensures (u in CachePages(cache, pages)) == (u in cache)
    ensures u in cache ==> CachePages(cache, pages)[u] == cache[u]
    decreases |pages|
  {
    if pages != [] {
      CachePagesUntouched(cache, pages[..|pages| - 1], u);
    }
  }

  /** The crawl adds at most one unvectorised document per page, each for a crawled URL. */
  lemma {:induction false} PageDocsShape(pages: seq<(string, string)>, parse: string -> string)
    ensures |PageDocs(pages, parse)| <= |pages|
    ensures forall d | d in PageDocs(pages, parse) ::
      d.vec.None? && d.toks != [] && exists j | 0 <= j < |pages| :: d.url == pages[j].0
    decreases |pages|
  {
    if pages != [] {
      var init := pages[..|pages| - 1];
      PageDocsShape(init, parse);
      forall d | d in PageDocs(pages, parse)
        ensures d.vec.None? && d.toks != [] && exists j | 0 <= j < |pages| :: d.url == pages[j].0
      {
        if d in PageDocs(init, parse) {
          var j :| 0 <= j < |init| && d.url == init[j].0;
          assert pages[j] == init[j];
        } else {
          assert d.url == pages[|pages| - 1].0;
        }
      }
    }
  }

  const PAGES_FROM: string := " pages from "

  function CrawlObservation(n: nat, site: string): string {
    "Crawled " + NatToString(n) + PAGES_FROM + site
  }

  /** One more crawled page: its text is cached, and indexed when it has tokens. */
  lemma CrawlSnoc(cache: map<string, string>, idf: map<string, real>, pages: seq<(string, string)>, i: nat,
                  parse: string -> string)
    requires i < |pages|
    ensures var p, text := pages[i], ParseHtml(pages[i].1, parse);
      && CachePages(cache, pages[..i + 1]) == CachePages(cache, pages[..i])[p.0 := p.1]
      && PageDocs(pages[..i + 1], parse) ==
           PageDocs(pages[..i], parse) + (if Indexable(text) then [Rag.Doc(p.0, Rag.Tokens(text), None)] else [])
      && PageIdf(idf, pages[..i + 1], parse) ==
           (if Indexable(text) then Rag.Bump(PageIdf(idf, pages[..i], parse), Rag.TokenSet(Rag.Tokens(text)))
            else PageIdf(idf, pages[..i], parse))
  {
    var w := pages[..i + 1];
    assert w[..i] == pages[..i] && w[i] == pages[i];
  }

  /** The memory after a Crawl: every crawled page cached, and indexed when it has tokens. */
  function CrawledMemory(arg: string, s: MemState, o: Oracles): MemState {
    var pages := o.crawl(arg, CRAWL_MAX_PAGES);
    s.(cache := CachePages(s.cache, pages), docs := s.docs + PageDocs(pages, o.parse),
       idf := PageIdf(s.idf, pages, o.parse))
  }

  /** Crawl: store every crawled page in memory and report how many there were. */
  method CrawlTool(arg: string, mem: Memory, o: Oracles) returns (obs: string)
    requires mem.Valid()
    modifies mem, mem.vstore
    ensures mem.Valid()
    ensures obs == CrawlObservation(|o.crawl(arg, CRAWL_MAX_PAGES)|, arg)
    ensures mem.State() == CrawledMemory(arg, old(mem.State()), o)
  {
    var pages := o.crawl(arg, CRAWL_MAX_PAGES);
    var i := 0;
    while i < |pages|
      invariant 0 <= i <= |pages|
      invariant mem.Valid()
      invariant mem.cache == CachePages(old(mem.cache), pages[..i])
      invariant mem.vstore.docs == old(mem.vstore.docs) + PageDocs(pages[..i], o.parse)
      invariant mem.vstore.idf == PageIdf(old(mem.vstore.idf), pages[..i], o.parse)
      invariant mem.sources == old(mem.sources) && mem.lastPageText == old(mem.lastPageText)
      invariant mem.lastOpenedUrl == old(mem.lastOpenedUrl) && mem.researchLog == old(mem.researchLog)
    {
      mem.AddWebContent(pages[i].0, pages[i].1, o.parse);
      CrawlSnoc(old(mem.cache), old(mem.vstore.idf), pages, i, o.parse);
      i := i + 1;
    }
    assert pages[..i] == pages;
    obs := CrawlObservation(|pages|, arg);
  }

  // ---------------------------------------------------------------- Recall

  const NO_DOCS: string := "No relevant docs yet \U{2013} crawl first?"

  /** One entry of a Recall observation: the score, the URL, and 160 characters of the page's snippet. */
  function RecallEntry(h: Rag.Hit, snippet: string, scoreText: real -> string): string {
    "[" + scoreText(h.1) + "] " + h.0 + "\n" + Prefix(snippet, RECALL_PREVIEW_CHARS) + "\U{2026}"
  }

  function RecallEntries(hits: seq<Rag.Hit>, snippets: seq<string>, scoreText: real -> string): seq<string>
    requires |snippets| == |hits|
  {
    seq(|hits|, i requires 0 <= i < |hits| => RecallEntry(hits[i], snippets[i], scoreText))
  }

  lemma JoinStartsWithFirst(sep: string, parts: seq<string>)
    requires parts != []
    ensures parts[0] <= Join(sep, parts)
  {
  }

  /** The store a Recall searches: finalised first when its first document has no vector. */
  function SearchedStore(s: MemState, o: Oracles): MemState
    requires Searchable(s)
  {
    var st := Rag.StoreAfterSearch(s.docs, s.idf, o.ln);
    s.(docs := st.0, idf := st.1)
  }

  /** The hits of a Recall: the five stored pages most similar to the query, best first. */
  function RecallHits(arg: string, s: MemState, o: Oracles): seq<Rag.Hit>
    requires Searchable(s)
  {
    var st := SearchedStore(s, o);
    Prefix(Rag.SortDesc(Rag.Scored(st.docs, Rag.TfIdf(Rag.Tokens(arg), st.idf), o.sqrt)), RECALL_K)
  }

  /** Opening the hits in rank order, each with the query: their snippets, and the memory after. */
  function OpenedHits(s: MemState, hits: seq<Rag.Hit>, arg: string, o: Oracles): (r: (seq<string>, MemState))
    ensures |r.0| == |hits|
    decreases |hits|
  {
    if hits == [] then ([], s)
    else
      var before := OpenedHits(s, hits[..|hits| - 1], arg, o);
      var u := hits[|hits| - 1].0;
      (before.0 + [OpenedSnippet(before.1.cache, u, Some(arg), true, o.fetch, o.parse)],
       AfterOpen(before.1, u, Some(arg), true, o.fetch, o.parse))
  }

  /** The observation of a Recall and the memory after it. */
  function RecallOutcome(arg: string, s: MemState, o: Oracles): (string, MemState)
    requires Searchable(s)
  {
    var hits := RecallHits(arg, s, o);
    if hits == [] then (NO_DOCS, SearchedStore(s, o))
    else
      var opening := OpenedHits(SearchedStore(s, o), hits, arg, o);
      (Join("\n\n", RecallEntries(hits, opening.0, o.scoreText)), opening.1)
  }

  /**
   * Opening `hits` records at most one piece of evidence per hit, each for
   * the URL of one of the hits and cut to 200 characters, and keeps every
   * cached page.
   */
  lemma {:induction false} OpenedHitsGrows(s: MemState, hits: seq<Rag.Hit>, arg: string, o: Oracles)
    ensures var after := OpenedHits(s, hits, arg, o).1;
      && Grows(s.sources, after.sources, |hits|)
      && (forall i | |s.sources| <= i < |after.sources| :: exists j | 0 <= j < |hits| :: after.sources[i].0 == hits[j].0)
      && (forall u | u in s.cache :: u in after.cache && after.cache[u] == s.cache[u])
      && after.researchLog == s.researchLog
    decreases |hits|
  {
    if hits != [] {
      var n := |hits| - 1;
      var init := hits[..n];
      OpenedHitsGrows(s, init, arg, o);
      var mid := OpenedHits(s, init, arg, o).1;
      var after := OpenedHits(s, hits, arg, o).1;
      OpenGrows(mid, hits[n].0, Some(arg), true, o.fetch, o.parse);
      GrowsTrans(s.sources, mid.sources, after.sources, n, 1);
      forall i | |s.sources| <= i < |after.sources|
        ensures exists j | 0 <= j < |hits| :: after.sources[i].0 == hits[j].0
      {
        if i < |mid.sources| {
          var j :| 0 <= j < n && mid.sources[i].0 == init[j].0;
          assert after.sources[i] == mid.sources[i] && hits[j] == init[j];
        } else {
          assert after.sources[i].0 == hits[n].0;
        }
      }
    }
  }

  /**
   * A Recall returns at most five hits, best first, each the URL of a
   * document that carries a vector once the search has finalised the store;
   * it reports that there is nothing to recall exactly when there is no hit,
   * and every piece of evidence it records is for one of its hits.
   */
  lemma RecallShape(arg: string, s: MemState, o: Oracles)
    requires Searchable(s)
    ensures var hits, st := RecallHits(arg, s, o), SearchedStore(s, o);
      var out := RecallOutcome(arg, s, o);
      && |hits| <= RECALL_K && Rag.SortedDesc(hits)
      && (forall h | h in hits :: exists i | 0 <= i < |st.docs| :: st.docs[i].vec.Some? && h.0 == st.docs[i].url)
      && (hits == [] <==> out.0 == NO_DOCS)
      && Grows(s.sources, out.1.sources, |hits|)
      && (forall i | |s.sources| <= i < |out.1.sources| :: exists j | 0 <= j < |hits| :: out.1.sources[i].0 == hits[j].0)
  {
    var hits, st := RecallHits(arg, s, o), SearchedStore(s, o);
    RecallHitsShape(st.docs, Rag.TfIdf(Rag.Tokens(arg), st.idf), o.sqrt, hits);
    if hits != [] {
      var opening := OpenedHits(st, hits, arg, o);
      OpenedHitsGrows(st, hits, arg, o);
      var entries := RecallEntries(hits, opening.0, o.scoreText);
      JoinStartsWithFirst("\n\n", entries);
      assert Join("\n\n", entries)[0] == '[' != NO_DOCS[0];
    }
  }

  /** Open each recalled page with the query, in rank order, and write its entry. */
  method OpenHits(hits: seq<Rag.Hit>, arg: string, mem: Memory, o: Oracles) returns (entries: seq<string>)
    requires mem.Valid()
    modifies mem, mem.vstore
    ensures mem.Valid()
    ensures var opening := OpenedHits(old(mem.State()), hits, arg, o);
      entries == RecallEntries(hits, opening.0, o.scoreText) && mem.State() == opening.1
  {
    entries := [];
    ghost var snippets: seq<string> := [];
    var i := 0;
    while i < |hits|
      invariant 0 <= i <= |hits| && |entries| == i
      invariant (snippets, mem.State()) == OpenedHits(old(mem.State()), hits[..i], arg, o)
      invariant forall j | 0 <= j < i :: entries[j] == RecallEntry(hits[j], snippets[j], o.scoreText)
      invariant mem.Valid()
    {
      assert hits[..i + 1][..i] == hits[..i];
      var entry;
      ghost var snip;
      entry, snip := OpenHit(hits[i], arg, mem, o);
      entries := entries + [entry];
      snippets := snippets + [snip];
      i := i + 1;
    }
    assert hits[..i] == hits;
  }

  /** Open one recalled page with the query and preview it under its score. */
  method OpenHit(h: Rag.Hit, arg: string, mem: Memory, o: Oracles) returns (entry: string, ghost snip: string)
    requires mem.Valid()
    modifies mem, mem.vstore
    ensures mem.Valid()
    ensures snip == OpenedSnippet(old(mem.cache), h.0, Some(arg), true, o.fetch, o.parse)
    ensures entry == RecallEntry(h, snip, o.scoreText)
    ensures mem.State() == AfterOpen(old(mem.State()), h.0, Some(arg), true, o.fetch, o.parse)
  {
    var s := mem.OpenOrFetch(h.0, Some(arg), true, o.fetch, o.parse);
    snip := s;
    entry := RecallEntry(h, s, o.scoreText);
  }

  /**
   * Recall: the five stored pages most similar to the query, best first,
   * each opening with the query and previewed. An empty answer from the
   * store asks for a crawl.
   */
  method RecallTool(arg: string, mem: Memory, o: Oracles) returns (obs: string, hits: seq<Rag.Hit>)
    requires mem.Valid()
    modifies mem, mem.vstore
    ensures mem.Valid()
    ensures Searchable(old(mem.State()))
    ensures hits == RecallHits(arg, old(mem.State()), o)
    ensures (obs, mem.State()) == RecallOutcome(arg, old(mem.State()), o)
  {
    Rag.StoreSearchable(mem.vstore.docs, mem.vstore.idf, mem.vstore.vectorised, mem.vstore.baseIdf);
    ghost var s := mem.State();
    hits := mem.vstore.SimilaritySearch(arg, RECALL_K, o.ln, o.sqrt);
    assert mem.State() == SearchedStore(s, o);
    if hits == [] {
      obs := NO_DOCS;
      return;
    }
    var entries := OpenHits(hits, arg, mem, o);
    obs := Join("\n\n", entries);
  }

  lemma RecallHitsShape(docs: seq<Rag.Doc>, q: Rag.Vector, sqrt: real -> real, hits: seq<Rag.Hit>)
    requires hits == Prefix(Rag.SortDesc(Rag.Scored(docs, q, sqrt)), RECALL_K)
    ensures |hits| <= RECALL_K && Rag.SortedDesc(hits)
    ensures forall h | h in hits :: exists i | 0 <= i < |docs| :: docs[i].vec.Some? && h.0 == docs[i].url
  {
    forall h | h in hits
      ensures exists i | 0 <= i < |docs| :: docs[i].vec.Some? && h.0 == docs[i].url
    {
      Rag.SearchResultShape(docs, q, sqrt, RECALL_K, h);
    }
    Rag.SearchResultShape(docs, q, sqrt, RECALL_K, ("", 0.0));
  }

  // ---------------------------------------------------------------- one action

  /** The observation of a Done that comes too early. */
  const NEED_SOURCES: string := " source(s); need " + NatToString(MIN_SUPPORT_SOURCES) + "."

  function DoneRejection(n: nat): string {
    "Only " + NatToString(n) + NEED_SOURCES
  }

  /** What running one action gives: its observation, whether the run ends, the answer, and the memory after. */
  datatype Outcome = Outcome(obs: string, finished: bool, answer: string, mem: MemState)

  /** Running action `a` for question `q` from memory `s`. */
  function Executed(a: Action, q: string, s: MemState, o: Oracles): Outcome
    requires Searchable(s)
  {
    match a.verb
    case Search => Outcome(SearchObservation(a.arg, s.cache, o), false, "", SearchedMemory(a.arg, s, o))
    case Open =>
      Outcome(OpenedSnippet(s.cache, a.arg, Some(q), true, o.fetch, o.parse), false, "",
              AfterOpen(s, a.arg, Some(q), true, o.fetch, o.parse))
    case Find => Outcome(FindObservation(s.lastPageText, a.arg), false, "", s)
    case Crawl => Outcome(CrawlObservation(|o.crawl(a.arg, CRAWL_MAX_PAGES)|, a.arg), false, "", CrawledMemory(a.arg, s, o))
    case Recall =>
      var r := RecallOutcome(a.arg, s, o);
      Outcome(r.0, false, "", r.1)
    case Done =>
      if |s.sources| < MIN_SUPPORT_SOURCES then Outcome(DoneRejection(|s.sources|), false, "", s)
      else Outcome("", true, Summarise(q, s.sources, o.gen), s)
  }

  /**
   * Only a Done with enough evidence ends the run, with the summary of the
   * evidence and the memory untouched; an early Done is rejected with the
   * count. Find and Done change nothing, Crawl records no evidence, and every
   * other tool adds at most one piece of evidence, except Recall, which opens
   * up to five pages. No action touches the trace.
   */
  lemma ExecutedEffects(a: Action, q: string, s: MemState, o: Oracles)
    requires Searchable(s)
    ensures var out := Executed(a, q, s, o);
      && (out.finished <==> a.verb == Done && |s.sources| >= MIN_SUPPORT_SOURCES)
      && (out.finished ==> out.answer == Summarise(q, s.sources, o.gen))
      && (a.verb == Done && !out.finished ==> out.obs == DoneRejection(|s.sources|))
      && (a.verb in {Find, Done} ==> out.mem == s)
      && (a.verb == Crawl ==> out.mem.sources == s.sources)
      && Grows(s.sources, out.mem.sources, if a.verb == Recall then RECALL_K else 1)
      && out.mem.researchLog == s.researchLog
  {
    match a.verb
    case Search => SearchGrows(a.arg, s, o);
    case Open => OpenGrows(s, a.arg, Some(q), true, o.fetch, o.parse);
    case Find =>
    case Crawl =>
    case Recall => RecallGrows(a.arg, s, o);
    case Done =>
  }

  /** A Search adds at most the evidence of the page it opens, and leaves the trace alone. */
  lemma SearchGrows(arg: string, s: MemState, o: Oracles)
    ensures var s1 := SearchedMemory(arg, s, o);
      Grows(s.sources, s1.sources, 1) && s1.researchLog == s.researchLog
  {
    var u := AutoOpenUrl(SearchedHits(arg, o));
    if u.Some? {
      OpenGrows(s, u.value, Some(arg), true, o.fetch, o.parse);
    }
  }

  /** A Recall adds the evidence of at most five pages, and leaves the trace alone. */
  lemma RecallGrows(arg: string, s: MemState, o: Oracles)
    requires Searchable(s)
    ensures var s1 := RecallOutcome(arg, s, o).1;
      Grows(s.sources, s1.sources, RECALL_K) && s1.researchLog == s.researchLog
  {
    RecallShape(arg, s, o);
    var hits := RecallHits(arg, s, o);
    if hits != [] {
      OpenedHitsGrows(SearchedStore(s, o), hits, arg, o);
    }
  }

  /** Run one action and report the outcome. */
  method Execute(a: Action, q: string, mem: Memory, o: Oracles) returns (obs: string, finished: bool, answer: string)
    requires mem.Valid()
    modifies mem, mem.vstore
    ensures mem.Valid()
    ensures Searchable(old(mem.State()))
    ensures Outcome(obs, finished, answer, mem.State()) == Executed(a, q, old(mem.State()), o)
  {
    Rag.StoreSearchable(mem.vstore.docs, mem.vstore.idf, mem.vstore.vectorised, mem.vstore.baseIdf);
    finished, answer := false, "";
    match a.verb
    case Search =>
      obs := SearchTool(a.arg, mem, o);
    case Open =>
      obs := mem.OpenOrFetch(a.arg, Some(q), true, o.fetch, o.parse);
    case Find =>
      obs := FindTool(a.arg, mem);
    case Crawl =>
      obs := CrawlTool(a.arg, mem, o);
    case Recall =>
      var hits;
      obs, hits := RecallTool(a.arg, mem, o);
    case Done =>
      if |mem.sources| < MIN_SUPPORT_SOURCES {
        obs := DoneRejection(|mem.sources|);
      } else {
        obs := "";
        answer := Summarise(q, mem.sources, o.gen);
        finished := true;
      }
  }

  // ---------------------------------------------------------------- the loop

  /** What a turn did with its reply. */
  datatype Step =
    | Malformed                                         // the reply failed the format check
    | Ran(action: Action, observations: seq<string>)    // one action ran; the history grew
    | Answered(answer: string)                          // an accepted Done ended the run

  /**
   * One pass of the loop: its number, the history and the memory it started
   * from, the streamed tokens, how many were read, the actions seen, the
   * reply, what it did, and the memory it left.
   */
  datatype Turn = Turn(n: nat, hist: string, mem: MemState, tokens: seq<string>, consumed: nat, streamed: seq<Action>,
                       reply: string, step: Step, after: MemState)

  /** Where the loop stands between turns: the history and the memory. */
  datatype Stage = Stage(hist: string, mem: MemState)

  datatype RunResult = FinalAnswer(answer: string) | MaxLoopsReached(summary: string)

  /** The request of `_stream_until_actions(hist)`. */
  function StreamRequest(h: string): LlmInterface.Request {
    LlmInterface.Request(h, STREAM_TEMPERATURE, STREAM_RESERVE, None, true)
  }

  /** The action a well-formed reply runs: its first Search, or else its first action. */
  function ChosenAction(reply: string): Action
    requires HasValidFormat(reply)
  {
    SelectActions(ExtractedActions(reply, ACTION_LIMIT))[0]
  }

  /**
   * Turn `t.n` for question `q`: the tokens are streamed for its history,
   * the reply is the stripped text read before the consumer stopped, a reply
   * is malformed exactly when it fails the format check and then leaves the
   * memory alone; otherwise the chosen action runs from the turn's memory,
   * its observation is the one recorded, its memory is the one left, and the
   * turn ends the run exactly when the action does, with its answer.
   */
  ghost predicate TurnFollows(o: Oracles, q: string, t: Turn) {
    && t.tokens == o.stream(t.n, StreamRequest(t.hist))
    && t.consumed <= |t.tokens|
    && t.reply == Strip(Concat(t.tokens[..t.consumed]))
    && Consumed(t.tokens, LineAction, t.streamed, t.consumed)
    && Searchable(t.mem)
    && (t.step.Malformed? <==> !HasValidFormat(t.reply))
    && (t.step.Malformed? ==> t.after == t.mem)
    && (!t.step.Malformed? ==>
          var out := Executed(ChosenAction(t.reply), q, t.mem, o);
          && t.after == out.mem
          && (t.step.Answered? <==> out.finished)
          && (t.step.Ran? ==> t.step.action == ChosenAction(t.reply) && t.step.observations == [out.obs])
          && (t.step.Answered? ==> t.step.answer == out.answer))
  }

  /** The history after a turn that did not end the run. */
  function NextHist(t: Turn): string {
    match t.step
    case Malformed => t.hist + FORMAT_FIX
    case Ran(_, observations) => Trim(t.hist + TurnRecord(t.reply, observations))
    case Answered(_) => t.hist
  }

  /** Where a turn that did not end the run leaves the loop. */
  function NextStage(t: Turn): Stage {
    Stage(NextHist(t), t.after)
  }

  /**
   * A turn that ran an action leaves a history of at most 12000
   * characters ending in its reply and observation; a malformed reply only
   * appends the corrective note, untrimmed, so the history can then exceed
   * the bound.
   */
  lemma NextHistCases(t: Turn)
    ensures t.step.Malformed? ==> NextHist(t) == t.hist + FORMAT_FIX && |NextHist(t)| > |t.hist|
    ensures t.step.Ran? ==>
      var full := t.hist + TurnRecord(t.reply, t.step.observations);
      |NextHist(t)| <= MAX_HISTORY_CHARS && NextHist(t) == full[|full| - |NextHist(t)|..]
      && (|full| <= MAX_HISTORY_CHARS ==> NextHist(t) == full)
    ensures t.step.Malformed? && |t.hist| == MAX_HISTORY_CHARS ==> |NextHist(t)| > MAX_HISTORY_CHARS
  {
  }

  /**
   * One pass of the loop body from history `h`: stream a reply, check its
   * format, run the chosen action, and compute the next history.
   */
  method PlayTurn(n: nat, h: string, q: string, mem: Memory, o: Oracles)
    returns (next: string, finished: bool, answer: string, ghost t: Turn)
    requires mem.Valid()
    modifies mem, mem.vstore
    ensures mem.Valid()
    ensures t.n == n && t.hist == h && t.mem == old(mem.State()) && t.after == mem.State() && TurnFollows(o, q, t)
    ensures finished <==> t.step.Answered?
    ensures finished ==>
      && |t.mem.sources| >= MIN_SUPPORT_SOURCES && mem.State() == old(mem.State())
      && answer == Summarise(q, t.mem.sources, o.gen) && t.step == Answered(answer)
    ensures !finished ==> next == NextHist(t)
    ensures RejectedWithoutEvidence(t)
  {
    ghost var s := mem.State();
    Rag.StoreSearchable(mem.vstore.docs, mem.vstore.idf, mem.vstore.vectorised, mem.vstore.baseIdf);
    var tokens := o.stream(n, StreamRequest(h));
    var reply, streamed;
    ghost var consumed;
    reply, streamed, consumed := StreamUntilActions(tokens);
    finished, answer := false, "";
    if !HasValidFormat(reply) {
      t := Turn(n, h, s, tokens, consumed, streamed, reply, Malformed, s);
      next := h + FORMAT_FIX;
      return;
    }
    var actions := ExtractActions(reply, ACTION_LIMIT);
    if actions == [] {
      // the format check has already demanded an action line
      assert false;
    }
    var toRun := SelectActions(actions);
    var action := toRun[0];
    var obs;
    obs, finished, answer := Execute(action, q, mem, o);
    ExecutedEffects(action, q, s, o);
    if finished {
      t := Turn(n, h, s, tokens, consumed, streamed, reply, Answered(answer), mem.State());
      next := h;
      return;
    }
    var observations := [obs];
    t := Turn(n, h, s, tokens, consumed, streamed, reply, Ran(action, observations), mem.State());
    next := Trim(h + TurnRecord(reply, observations));
  }

  /** A Done is rejected only while no evidence has been gathered. */
  predicate RejectedWithoutEvidence(t: Turn) {
    t.step.Ran? && t.step.action.verb == Done ==> t.step.observations == [DoneRejection(0)]
  }

  /**
   * Turn `turns[k]` is turn `k + 1`, started from `stages[k]`, is acceptable
   * to `ok`, and leaves `stages[k + 1]` as computed by `next`.
   */
  ghost predicate Chain(ok: Turn -> bool, next: Turn -> Stage, turns: seq<Turn>, stages: seq<Stage>)
    requires |stages| == |turns| + 1
    decreases |turns|
  {
    turns == [] ||
      var n := |turns| - 1;
      Chain(ok, next, turns[..n], stages[..n + 1]) && Links(ok, next, n, turns[n], stages[n], stages[n + 1])
  }

  ghost predicate Links(ok: Turn -> bool, next: Turn -> Stage, k: nat, t: Turn, st: Stage, st': Stage) {
    t.n == k + 1 && t.hist == st.hist && t.mem == st.mem && ok(t) && st' == next(t)
  }

  lemma {:induction false} ChainAt(ok: Turn -> bool, next: Turn -> Stage, turns: seq<Turn>, stages: seq<Stage>, k: nat)
    requires |stages| == |turns| + 1 && Chain(ok, next, turns, stages) && k < |turns|
    ensures Links(ok, next, k, turns[k], stages[k], stages[k + 1])
    decreases |turns|
  {
    var n := |turns| - 1;
    if k < n {
      ChainAt(ok, next, turns[..n], stages[..n + 1], k);
      assert turns[..n][k] == turns[k] && stages[..n + 1][k] == stages[k] && stages[..n + 1][k + 1] == stages[k + 1];
    }
  }

  lemma ChainSnoc(ok: Turn -> bool, next: Turn -> Stage, turns: seq<Turn>, stages: seq<Stage>, t: Turn, st: Stage)
    requires |stages| == |turns| + 1 && Chain(ok, next, turns, stages)
    requires Links(ok, next, |turns|, t, stages[|turns|], st)
    ensures Chain(ok, next, turns + [t], stages + [st])
  {
    assert (turns + [t])[..|turns|] == turns;
    assert (stages + [st])[..|turns| + 1] == stages;
  }

  /** A turn that follows from where the loop stood and did not end the run. */
  ghost predicate Continues(o: Oracles, q: string, t: Turn) {
    TurnFollows(o, q, t) && !t.step.Answered? && RejectedWithoutEvidence(t)
  }

  /**
   * `turns` are the turns of a run for question `q` that did not end it,
   * `stages[k]` the history and memory turn `k` started from, and
   * `stages[|turns|]` where the loop stood after the last of them.
   */
  ghost predicate Trace(o: Oracles, q: string, turns: seq<Turn>, stages: seq<Stage>)
    requires |stages| == |turns| + 1
  {
    Chain(t => Continues(o, q, t), NextStage, turns, stages)
  }

  lemma TraceSnoc(o: Oracles, q: string, turns: seq<Turn>, stages: seq<Stage>, t: Turn, st: Stage)
    requires |stages| == |turns| + 1 && Trace(o, q, turns, stages)
    requires t.n == |turns| + 1 && t.hist == stages[|turns|].hist && t.mem == stages[|turns|].mem
    requires Continues(o, q, t) && st == NextStage(t)
    ensures Trace(o, q, turns + [t], stages + [st])
  {
    ChainSnoc(t => Continues(o, q, t), NextStage, turns, stages, t, st);
  }

  /** Each turn of a trace follows from the stage before it and produces the stage after it. */
  lemma TraceAt(o: Oracles, q: string, turns: seq<Turn>, stages: seq<Stage>, k: nat)
    requires |stages| == |turns| + 1 && Trace(o, q, turns, stages) && k < |turns|
    ensures turns[k].n == k + 1 && turns[k].hist == stages[k].hist && turns[k].mem == stages[k].mem
    ensures TurnFollows(o, q, turns[k])
    ensures stages[k + 1] == Stage(NextHist(turns[k]), turns[k].after)
    ensures !turns[k].step.Answered? && RejectedWithoutEvidence(turns[k])
  {
    ChainAt(t => Continues(o, q, t), NextStage, turns, stages, k);
  }

  /** What one turn does to the evidence: it only grows, by at most five capped snippets, and the trace stays empty. */
  lemma TurnEvidence(o: Oracles, q: string, t: Turn)
    requires TurnFollows(o, q, t)
    ensures Grows(t.mem.sources, t.after.sources, RECALL_K) && t.after.researchLog == t.mem.researchLog
  {
    if !t.step.Malformed? {
      var a := ChosenAction(t.reply);
      ExecutedEffects(a, q, t.mem, o);
      assert Grows(t.mem.sources, t.after.sources, if a.verb == Recall then RECALL_K else 1);
    }
  }

  /**
   * Along a trace the evidence only grows: every stage's evidence extends
   * that of every earlier stage, and when the run starts from an empty
   * memory every snippet is at most 200 characters long.
   */
  lemma TraceEvidence(o: Oracles, q: string, turns: seq<Turn>, stages: seq<Stage>, j: nat, k: nat)
    requires |stages| == |turns| + 1 && Trace(o, q, turns, stages) && j <= k <= |turns|
    requires stages[0].mem.sources == []
    ensures stages[j].mem.sources <= stages[k].mem.sources
    ensures SnippetsCapped(stages[k].mem.sources)
  {
    TraceGrows(o, q, turns, stages);
    var ev := seq(|stages|, i requires 0 <= i < |stages| => stages[i].mem.sources);
    EvidenceAlong(ev, j, k);
  }

  lemma TraceGrows(o: Oracles, q: string, turns: seq<Turn>, stages: seq<Stage>)
    requires |stages| == |turns| + 1 && Trace(o, q, turns, stages)
    ensures forall i | 0 <= i < |turns| :: Grows(stages[i].mem.sources, stages[i + 1].mem.sources, RECALL_K)
  {
    forall i | 0 <= i < |turns|
      ensures Grows(stages[i].mem.sources, stages[i + 1].mem.sources, RECALL_K)
    {
      TraceStep(o, q, turns, stages, i);
    }
  }

  lemma TraceStep(o: Oracles, q: string, turns: seq<Turn>, stages: seq<Stage>, k: nat)
    requires |stages| == |turns| + 1 && Trace(o, q, turns, stages) && k < |turns|
    ensures Grows(stages[k].mem.sources, stages[k + 1].mem.sources, RECALL_K)
  {
    TraceAt(o, q, turns, stages, k);
    TurnEvidence(o, q, turns[k]);
  }

  /** Evidence that grows at every step grows from any step to any later one and stays capped. */
  lemma {:induction false} EvidenceAlong(ev: seq<seq<Source>>, j: nat, k: nat)
    requires j <= k < |ev| && ev[0] == []
    requires forall i | 0 <= i < |ev| - 1 :: Grows(ev[i], ev[i + 1], RECALL_K)
    ensures ev[j] <= ev[k] && SnippetsCapped(ev[k])
    decreases k
  {
    if k > 0 {
      EvidenceAlong(ev, if j == k then k - 1 else j, k - 1);
      assert Grows(ev[k - 1], ev[k], RECALL_K);
      GrowsCapped(ev[k - 1], ev[k], RECALL_K);
    }
  }

  /** The summary that ends a run cites every piece of evidence recorded at any stage, under its number. */
  lemma SummaryCitesTrace(o: Oracles, q: string, turns: seq<Turn>, stages: seq<Stage>, j: nat, i: nat)
    requires |stages| == |turns| + 1 && Trace(o, q, turns, stages) && j <= |turns|
    requires stages[0].mem.sources == [] && i < |stages[j].mem.sources|
    ensures var all := stages[|turns|].mem.sources;
      i < |all| && Contains(SummaryPrompt(q, all), SourceLine(i, stages[j].mem.sources[i]))
  {
    TraceEvidence(o, q, turns, stages, j, |turns|);
    var all := stages[|turns|].mem.sources;
    assert all[i] == stages[j].mem.sources[i];
    SummaryPromptCitesSources(q, all, i);
  }

  /**
   * `run_research_agent(q)`. The returned trace records every turn that
   * did not end the run and the history and memory each one started from,
   * beginning with the system prompt and an empty memory. The run ends with
   * the summary of an accepted Done, in the turn after the trace, or after
   * four turns with the summary of the evidence the memory then holds.
   */
  method RunResearchAgent(q: string, o: Oracles)
    returns (result: RunResult, ghost turns: seq<Turn>, ghost stages: seq<Stage>, ghost final: Turn)
    ensures |turns| <= MAX_LOOPS && |stages| == |turns| + 1
    ensures stages[0] == Stage(SystemPrompt(q), EMPTY_MEMORY) && Trace(o, q, turns, stages)
    ensures result.FinalAnswer? ==>
      && |turns| < MAX_LOOPS
      && final.n == |turns| + 1 && final.hist == stages[|turns|].hist && final.mem == stages[|turns|].mem
      && TurnFollows(o, q, final) && final.step == Answered(result.answer)
      && |final.mem.sources| >= MIN_SUPPORT_SOURCES && result.answer == Summarise(q, final.mem.sources, o.gen)
    ensures result.MaxLoopsReached? ==>
      |turns| == MAX_LOOPS && result.summary == Summarise(q, stages[|turns|].mem.sources, o.gen)
  {
    result, turns, stages, final := RunFrom(q, SystemPrompt(q), o);
  }

  /** The loop of `run_research_agent(q)`, from the initial history `start`. */
  method RunFrom(q: string, start: string, o: Oracles)
    returns (result: RunResult, ghost turns: seq<Turn>, ghost stages: seq<Stage>, ghost final: Turn)
    ensures |turns| <= MAX_LOOPS && |stages| == |turns| + 1
    ensures stages[0] == Stage(start, EMPTY_MEMORY) && Trace(o, q, turns, stages)
    ensures result.FinalAnswer? ==>
      && |turns| < MAX_LOOPS
      && final.n == |turns| + 1 && final.hist == stages[|turns|].hist && final.mem == stages[|turns|].mem
      && TurnFollows(o, q, final) && final.step == Answered(result.answer)
      && |final.mem.sources| >= MIN_SUPPORT_SOURCES && result.answer == Summarise(q, final.mem.sources, o.gen)
    ensures result.MaxLoopsReached? ==>
      |turns| == MAX_LOOPS && result.summary == Summarise(q, stages[|turns|].mem.sources, o.gen)
  {
    var mem := new Memory();
    var hist := start;
    var loop: nat := 0;
    turns, stages := [], [Stage(hist, mem.State())];
    while loop < MAX_LOOPS
      invariant loop == |turns| <= MAX_LOOPS
      invariant |stages| == |turns| + 1 && stages[|turns|] == Stage(hist, mem.State())
      invariant stages[0] == Stage(start, EMPTY_MEMORY)
      invariant Trace(o, q, turns, stages)
      invariant fresh(mem) && fresh(mem.vstore) && mem.Valid()
    {
      loop := loop + 1;
      var next, finished, answer;
      ghost var t;
      next, finished, answer, t := PlayTurn(loop, hist, q, mem, o);
      if finished {
        result, final := FinalAnswer(answer), t;
        return;
      }
      TraceSnoc(o, q, turns, stages, t, Stage(next, mem.State()));
      turns, stages := turns + [t], stages + [Stage(next, mem.State())];
      hist := next;
    }
    final := Turn(0, "", EMPTY_MEMORY, [], 0, [], "", Malformed, EMPTY_MEMORY);
    result := MaxLoopsReached(Summarise(q, mem.sources, o.gen));
  }
}
