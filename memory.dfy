/**
 * The session memory of one research run: a cache from URL to page markup,
 * the vector store the pages are indexed in, a trace of steps, the evidence
 * list the final answer is written from, and the page opened last.
 *
 * Fetching a page and turning markup into text are oracles: `fetch` gives
 * what the fetcher returns for a URL (`None` when it gives up) and
 * `parse` the text the HTML parser extracts from non-empty markup.
 */
module SessionMemory {
  import opened Options
  import opened PyStr
  import Parser
  import opened Rag

  /** Evidence snippets are cut to this many characters. */
  const SOURCE_SNIPPET_CHARS: int := 200
  /** A page with no relevant sentence is previewed by this many leading characters. */
  const PAGE_PREVIEW_CHARS: int := 400
  /** The number of relevant sentences a snippet joins. */
  const SNIPPET_SENTENCES: int := 4

  type Source = (string, string)

  /** `parse_html(html)`: empty markup gives empty text; anything else is the parser's business. */
  function ParseHtml(html: string, parse: string -> string): string {
    if html == "" then "" else parse(html)
  }

  /** What `open_or_fetch` returns when no markup is available. */
  function FailureMessage(url: string): string {
    "\U{26A0}\U{FE0F} Failed to fetch " + url
  }

  /** The markup `open_or_fetch` works with: the cached copy, or what the fetcher returns. */
  function Lookup(cache: map<string, string>, url: string, fetch: string -> Option<string>): Option<string> {
    if url in cache then Some(cache[url]) else fetch(url)
  }

  /**
   * The snippet of an opened page: its relevant sentences when a non-empty
   * query is given and snippets are wanted and some sentence matches,
   * otherwise its first 400 characters.
   */
  function PageSnippet(text: string, query: Option<string>, autoSnippet: bool): string {
    if query.Some? && query.value != "" && autoSnippet then
      var s := Parser.ExtractRelevantSnippets(text, query.value, SNIPPET_SENTENCES);
      if s != "" then s else Prefix(text, PAGE_PREVIEW_CHARS)
    else Prefix(text, PAGE_PREVIEW_CHARS)
  }

  /**
   * A snippet falls back to the page's first 400 characters exactly when
   * no sentence mentions a query word (or no query or snippet is wanted),
   * and otherwise it is the join of the relevant sentences.
   */
  lemma PageSnippetCases(text: string, query: Option<string>, autoSnippet: bool)
    ensures var wanted := query.Some? && query.value != "" && autoSnippet;
      && (!wanted ==> PageSnippet(text, query, autoSnippet) == Prefix(text, PAGE_PREVIEW_CHARS))
      && (wanted && Parser.NoneRelevant(Parser.SentenceTokens(text), Parser.QueryWords(query.value)) ==>
            PageSnippet(text, query, autoSnippet) == Prefix(text, PAGE_PREVIEW_CHARS))
      && (wanted && !Parser.NoneRelevant(Parser.SentenceTokens(text), Parser.QueryWords(query.value)) ==>
            PageSnippet(text, query, autoSnippet) == Parser.ExtractRelevantSnippets(text, query.value, SNIPPET_SENTENCES)
            && PageSnippet(text, query, autoSnippet) != "")
  {
    if query.Some? && query.value != "" && autoSnippet {
      var q := query.value;
      if Parser.NoneRelevant(Parser.SentenceTokens(text), Parser.QueryWords(q)) {
        Parser.SnippetsEmptyWithoutMatch(text, q, SNIPPET_SENTENCES);
      } else {
        Parser.SnippetsNonEmptyWithMatch(text, q, SNIPPET_SENTENCES);
      }
    }
  }

  /** A page's text goes into the vector store when it is not empty and has tokens. */
  predicate Indexable(text: string) {
    text != "" && Tokens(text) != []
  }

  /** The snippet `open_or_fetch` returns, given the cache it starts from. */
  function OpenedSnippet(cache: map<string, string>, url: string, query: Option<string>, autoSnippet: bool,
                         fetch: string -> Option<string>, parse: string -> string): string {
    var html := Lookup(cache, url, fetch);
    if html.None? || html.value == "" then FailureMessage(url)
    else PageSnippet(ParseHtml(html.value, parse), query, autoSnippet)
  }

  /** Everything a session memory holds that the program can see: its fields and the store's. */
  datatype MemState = MemState(cache: map<string, string>, researchLog: seq<string>, sources: seq<Source>,
                               lastOpenedUrl: Option<string>, lastPageText: Option<string>,
                               docs: seq<Doc>, idf: map<string, real>)

  /** A search of the store of `s` may finalise it. */
  predicate Searchable(s: MemState) {
    Rag.Searchable(s.docs, s.idf)
  }

  /** The state of a new `Memory()`. */
  const EMPTY_MEMORY: MemState := MemState(map[], [], [], None, None, [], map[])

  /** The state after `add_web_content(url, html)`. */
  function AfterAdd(s: MemState, url: string, html: string, parse: string -> string): MemState {
    var text := ParseHtml(html, parse);
    if Indexable(text) then
      s.(cache := s.cache[url := html], docs := s.docs + [Doc(url, Tokens(text), None)],
         idf := Bump(s.idf, TokenSet(Tokens(text))))
    else s.(cache := s.cache[url := html])
  }

  /** The state after `open_or_fetch(url, query, auto_snippet)`. */
  function AfterOpen(s: MemState, url: string, query: Option<string>, autoSnippet: bool,
                     fetch: string -> Option<string>, parse: string -> string): MemState {
    var html := Lookup(s.cache, url, fetch);
    var stored := if url !in s.cache && html.Some? && html.value != "" then AfterAdd(s, url, html.value, parse) else s;
    if html.None? || html.value == "" then stored
    else
      var text := ParseHtml(html.value, parse);
      var snippet := PageSnippet(text, query, autoSnippet);
      stored.(lastOpenedUrl := Some(url), lastPageText := Some(text),
              sources := stored.sources + [(url, Prefix(snippet, SOURCE_SNIPPET_CHARS))])
  }

  class Memory {
    /** URL to markup, as fetched or crawled. */
    var cache: map<string, string>
    /** The vector store the page texts are indexed in. */
    const vstore: MiniVectorStore
    var researchLog: seq<string>
    /** The evidence: (URL, snippet) pairs in the order the pages were opened. */
    var sources: seq<Source>
    var lastOpenedUrl: Option<string>
    var lastPageText: Option<string>
    /** The URLs handed to the fetcher, in order. */
    ghost var fetched: seq<string>

    ghost predicate Valid()
      reads this, vstore
    {
      vstore.Valid()
    }

    ghost function State(): MemState
      reads this, vstore
    {
      MemState(cache, researchLog, sources, lastOpenedUrl, lastPageText, vstore.docs, vstore.idf)
    }

    /** `Memory()`: everything empty, nothing opened, an empty store. */
    constructor ()
      ensures Valid() && fresh(vstore)
      ensures cache == map[] && researchLog == [] && sources == []
      ensures lastOpenedUrl.None? && lastPageText.None? && fetched == []
      ensures vstore.docs == [] && vstore.idf == map[] && vstore.vectorised == 0
      ensures State() == EMPTY_MEMORY
    {
      cache := map[];
      vstore := new MiniVectorStore();
      researchLog := [];
      sources := [];
      lastOpenedUrl := None;
      lastPageText := None;
      fetched := [];
    }

    /** `add_source(url, snippet)`: one more piece of evidence, its snippet cut to 200 characters. */
    method AddSource(url: string, snippet: string)
      modifies this
      ensures sources == old(sources) + [(url, Prefix(snippet, SOURCE_SNIPPET_CHARS))]
      ensures |sources[|sources| - 1].1| <= SOURCE_SNIPPET_CHARS
      ensures cache == old(cache) && researchLog == old(researchLog) && fetched == old(fetched)
      ensures lastOpenedUrl == old(lastOpenedUrl) && lastPageText == old(lastPageText)
    {
      sources := sources + [(url, Prefix(snippet, SOURCE_SNIPPET_CHARS))];
    }

    /** `log_step(msg)`: the message joins the trace. */
    method LogStep(msg: string)
      modifies this
      ensures researchLog == old(researchLog) + [msg]
      ensures cache == old(cache) && sources == old(sources) && fetched == old(fetched)
      ensures lastOpenedUrl == old(lastOpenedUrl) && lastPageText == old(lastPageText)
    {
      researchLog := researchLog + [msg];
    }

    /**
     * `add_web_content(url, html)`: the markup is cached under the URL, and
     * its text is added to the vector store when it is not empty.
     */
    method AddWebContent(url: string, html: string, parse: string -> string)
      requires Valid()
      modifies this, vstore
      ensures Valid()
      ensures cache == old(cache)[url := html]
      ensures var text := ParseHtml(html, parse);
        && (text == "" || Tokens(text) == [] ==> vstore.docs == old(vstore.docs) && vstore.idf == old(vstore.idf))
        && (text != "" && Tokens(text) != [] ==>
              vstore.docs == old(vstore.docs) + [Doc(url, Tokens(text), None)]
              && vstore.idf == Bump(old(vstore.idf), TokenSet(Tokens(text))))
      ensures vstore.vectorised == old(vstore.vectorised)
      ensures researchLog == old(researchLog) && sources == old(sources) && fetched == old(fetched)
      ensures lastOpenedUrl == old(lastOpenedUrl) && lastPageText == old(lastPageText)
      ensures State() == AfterAdd(old(State()), url, html, parse)
    {
      cache := cache[url := html];
      var text := ParseHtml(html, parse);
      if text != "" {
        vstore.Add(url, text);
      }
    }

    /** `get_web_content(url)`: the cached markup, if any. */
    function GetWebContent(url: string): (r: Option<string>)
      reads this
      ensures r.Some? <==> url in cache
      ensures r.Some? ==> r.value == cache[url]
    {
      if url in cache then Some(cache[url]) else None
    }

    /**
     * `open_or_fetch(url, query, auto_snippet)`. The fetcher is asked only
     * when the URL is not cached, and what it returns is cached when it is
     * not empty. Without markup (none, or empty, even from the cache) the
     * result is the failure message and nothing else changes. Otherwise the
     * page becomes the last opened one and its snippet is both returned and
     * recorded as evidence, on a cache hit too.
     */
    method OpenOrFetch(url: string, query: Option<string>, autoSnippet: bool,
                       fetch: string -> Option<string>, parse: string -> string) returns (snippet: string)
      requires Valid()
      modifies this, vstore
      ensures Valid()
      ensures fetched == old(fetched) + (if url in old(cache) then [] else [url])
      ensures var f := fetch(url);
        cache == if url !in old(cache) && f.Some? && f.value != "" then old(cache)[url := f.value] else old(cache)
      ensures var f := fetch(url);
        if url !in old(cache) && f.Some? && f.value != "" && Indexable(ParseHtml(f.value, parse)) then
          var toks := Tokens(ParseHtml(f.value, parse));
          vstore.docs == old(vstore.docs) + [Doc(url, toks, None)] && vstore.idf == Bump(old(vstore.idf), TokenSet(toks))
        else vstore.docs == old(vstore.docs) && vstore.idf == old(vstore.idf)
      ensures snippet == OpenedSnippet(old(cache), url, query, autoSnippet, fetch, parse)
      ensures vstore.vectorised == old(vstore.vectorised)
      ensures researchLog == old(researchLog)
      ensures var html := Lookup(old(cache), url, fetch);
        && (html.None? || html.value == "" ==>
              && snippet == FailureMessage(url)
              && sources == old(sources)
              && lastOpenedUrl == old(lastOpenedUrl) && lastPageText == old(lastPageText))
        && (html.Some? && html.value != "" ==>
              var text := ParseHtml(html.value, parse);
              && lastOpenedUrl == Some(url) && lastPageText == Some(text)
              && snippet == PageSnippet(text, query, autoSnippet)
              && sources == old(sources) + [(url, Prefix(snippet, SOURCE_SNIPPET_CHARS))])
      ensures State() == AfterOpen(old(State()), url, query, autoSnippet, fetch, parse)
    {
      var html := GetWebContent(url);
      if html.None? {
        html := fetch(url);
        fetched := fetched + [url];
        if html.Some? && html.value != "" {
          AddWebContent(url, html.value, parse);
        }
      }
      if html.None? || html.value == "" {
        return FailureMessage(url);
      }
      var text := ParseHtml(html.value, parse);
      lastOpenedUrl := Some(url);
      lastPageText := Some(text);
      snippet := PageSnippet(text, query, autoSnippet);
      AddSource(url, snippet);
    }
  }

  /**
   * Opening a URL a second time with the same query gives the same snippet,
   * fetches nothing new into the cache or the store, leaves the same page
   * open, and records the same evidence once more.
   */
  lemma OpenAgain(s: MemState, url: string, query: Option<string>, autoSnippet: bool,
                  fetch: string -> Option<string>, parse: string -> string)
    ensures var s1 := AfterOpen(s, url, query, autoSnippet, fetch, parse);
      var s2 := AfterOpen(s1, url, query, autoSnippet, fetch, parse);
      && OpenedSnippet(s1.cache, url, query, autoSnippet, fetch, parse) == OpenedSnippet(s.cache, url, query, autoSnippet, fetch, parse)
      && s2.cache == s1.cache && s2.docs == s1.docs && s2.idf == s1.idf
      && s2.lastOpenedUrl == s1.lastOpenedUrl && s2.lastPageText == s1.lastPageText
      && s.sources <= s1.sources && s2.sources == s1.sources + s1.sources[|s.sources|..]
  {
    var s1 := AfterOpen(s, url, query, autoSnippet, fetch, parse);
    var html := Lookup(s.cache, url, fetch);
    if url !in s.cache && html.Some? && html.value != "" {
      assert url in s1.cache && s1.cache[url] == html.value;
    }
    assert Lookup(s1.cache, url, fetch) == html;
  }

  /**
   * An open records at most one piece of evidence, for the opened URL, cut
   * to 200 characters; it adds at most one document and only for that URL,
   * and keeps every cached page and the trace.
   */
  lemma OpenGrows(s: MemState, url: string, query: Option<string>, autoSnippet: bool,
                  fetch: string -> Option<string>, parse: string -> string)
    ensures var s1 := AfterOpen(s, url, query, autoSnippet, fetch, parse);
      && s.sources <= s1.sources && |s1.sources| <= |s.sources| + 1
      && (|s1.sources| > |s.sources| ==> s1.sources[|s.sources|].0 == url && |s1.sources[|s.sources|].1| <= SOURCE_SNIPPET_CHARS)
      && s.docs <= s1.docs && |s1.docs| <= |s.docs| + 1
      && (|s1.docs| > |s.docs| ==> s1.docs[|s.docs|].url == url && url !in s.cache)
      && (forall u | u in s.cache :: u in s1.cache && s1.cache[u] == s.cache[u])
      && s1.researchLog == s.researchLog
  {
  }
}
