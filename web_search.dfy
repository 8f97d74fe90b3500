/**
 * Web search with a fallback provider. The HTTP requests and the HTML
 * parsing of the result pages are outside the model: each provider is an
 * oracle that either raises or yields the candidate anchors of its result
 * page in document order. What is modelled is the URL filter, the loop
 * that keeps the first `k` clean hits, and the order in which the
 * providers are tried.
 */
module WebSearch {
  import opened Options
  import opened PyStr
  import opened Utils
  import opened Collecting

  /** URL fragments whose hits are dropped as ads or trackers. */
  const BAD_FRAGMENTS: seq<string> := ["duckduckgo.com/y.js", "amazon.com", "adserver", "bing.com/aclick"]

  /** `_clean_hit(href)`: an `http` URL that contains none of the bad fragments. */
  predicate CleanHit(href: string) {
    StartsWith(href, "http") && forall j | 0 <= j < |BAD_FRAGMENTS| :: !Contains(href, BAD_FRAGMENTS[j])
  }

  /** `_clean_hit` rejects a URL exactly when it is not `http…` or holds a bad fragment somewhere. */
  lemma CleanHitIff(href: string)
    ensures !CleanHit(href) <==>
      !StartsWith(href, "http")
      || exists j, i: nat | 0 <= j < |BAD_FRAGMENTS| :: OccursAt(href, BAD_FRAGMENTS[j], i)
  {
    forall j | 0 <= j < |BAD_FRAGMENTS| {
      ContainsIff(href, BAD_FRAGMENTS[j]);
    }
  }

  /**
   * One result block of a provider's page. `NoAnchor` is a block without
   * a title link; an anchor carries its `href` (empty when the attribute is
   * missing), its text and the text of the snippet next to it (empty when
   * there is none).
   */
  datatype Candidate = NoAnchor | Anchor(href: string, title: string, snippet: string)

  predicate Keeps(c: Candidate) {
    c.Anchor? && CleanHit(c.href)
  }

  /** The hit a kept candidate becomes; `bodyOf` is applied to the snippet (DuckDuckGo unescapes it). */
  function HitOf(c: Candidate, bodyOf: string -> string): SearchHit
    requires c.Anchor?
  {
    SearchHit(Some(c.title), Some(c.href), Some(bodyOf(c.snippet)))
  }

  /** The hits of every kept candidate, in page order, with no cap. */
  function AllHits(cands: seq<Candidate>, bodyOf: string -> string): (r: seq<SearchHit>)
    ensures |r| <= |cands|
  {
    if cands == [] then []
    else
      var last := cands[|cands| - 1];
      AllHits(cands[..|cands| - 1], bodyOf) + (if Keeps(last) then [HitOf(last, bodyOf)] else [])
  }

  lemma {:induction false} AllHitsAppend(a: seq<Candidate>, b: seq<Candidate>, bodyOf: string -> string)
    ensures AllHits(a + b, bodyOf) == AllHits(a, bodyOf) + AllHits(b, bodyOf)
    decreases |b|
  {
    if b == [] {
      assert a + b == a;
    } else {
      var b' := b[..|b| - 1];
      assert (a + b)[..|a + b| - 1] == a + b';
      AllHitsAppend(a, b', bodyOf);
    }
  }

  /** Every hit comes from a clean anchor among the candidates. */
  lemma {:induction false} AllHitsClean(cands: seq<Candidate>, bodyOf: string -> string, h: SearchHit)
    requires h in AllHits(cands, bodyOf)
    ensures h.href.Some? && CleanHit(h.href.value)
    ensures exists i | 0 <= i < |cands| :: Keeps(cands[i]) && h == HitOf(cands[i], bodyOf)
    decreases |cands|
  {
    var init := cands[..|cands| - 1];
    var last := cands[|cands| - 1];
    if h in AllHits(init, bodyOf) {
      AllHitsClean(init, bodyOf, h);
      var i :| 0 <= i < |init| && Keeps(init[i]) && h == HitOf(init[i], bodyOf);
      assert cands[i] == init[i];
    } else {
      assert Keeps(last) && h == HitOf(last, bodyOf);
    }
  }

  function Min(a: int, b: int): int { if a < b then a else b }

  /**
   * What the hit loop of `_ddg_html` / `_startpage_html` keeps: the first
   * `k` hits of clean anchors, in page order. The cap is checked after an
   * append, so at least one hit is kept whenever one exists.
   */
  function CappedHits(cands: seq<Candidate>, k: int, bodyOf: string -> string): (r: seq<SearchHit>)
    ensures r <= AllHits(cands, bodyOf)
  {
    var all := AllHits(cands, bodyOf);
    all[..Min(|all|, Max(k, 1))]
  }

  /** The hit loop: skip blocks without an anchor and unclean URLs, stop once `k` hits are kept. */
  method CollectHits(cands: seq<Candidate>, k: int, bodyOf: string -> string) returns (hits: seq<SearchHit>)
    ensures hits == CappedHits(cands, k, bodyOf)
  {
    hits := [];
    var i := 0;
    while i < |cands|
      invariant 0 <= i <= |cands|
      invariant hits == AllHits(cands[..i], bodyOf)
      invariant |hits| < Max(k, 1)
    {
      var c := cands[i];
      assert cands[..i + 1][..i] == cands[..i];
      if c.Anchor? && CleanHit(c.href) {
        hits := hits + [SearchHit(Some(c.title), Some(c.href), Some(bodyOf(c.snippet)))];
        if |hits| >= k {
          assert cands == cands[..i + 1] + cands[i + 1..];
          AllHitsAppend(cands[..i + 1], cands[i + 1..], bodyOf);
          return;
        }
      }
      i := i + 1;
    }
    assert cands[..i] == cands;
  }

  /**
   * The hits are clean, there are at most `k` of them when `k` is positive,
   * and they come in page order from the candidates.
   */
  lemma CappedHitsShape(cands: seq<Candidate>, k: int, bodyOf: string -> string)
    ensures var r := CappedHits(cands, k, bodyOf);
      && (k >= 1 ==> |r| <= k)
      && (forall h | h in r :: h.href.Some? && CleanHit(h.href.value))
      && (r == [] <==> forall i | 0 <= i < |cands| :: !Keeps(cands[i]))
  {
    var r := CappedHits(cands, k, bodyOf);
    var all := AllHits(cands, bodyOf);
    forall h | h in r
      ensures h.href.Some? && CleanHit(h.href.value)
    {
      AllHitsClean(cands, bodyOf, h);
    }
    if r == [] {
      forall i | 0 <= i < |cands|
        ensures !Keeps(cands[i])
      {
        KeptGivesHit(cands, i, bodyOf);
      }
    } else {
      var h := r[0];
      AllHitsClean(cands, bodyOf, h);
    }
  }

  lemma KeptGivesHit(cands: seq<Candidate>, i: int, bodyOf: string -> string)
    ensures 0 <= i < |cands| && Keeps(cands[i]) ==> AllHits(cands, bodyOf) != []
  {
    if 0 <= i < |cands| && Keeps(cands[i]) {
      var p := cands[..i + 1];
      assert p[|p| - 1] == cands[i];
      assert |AllHits(p, bodyOf)| >= 1;
      assert p + cands[i + 1..] == cands;
      AllHitsAppend(p, cands[i + 1..], bodyOf);
    }
  }

  /** A provider's answer to a query: it raises, or it yields its page of candidates. */
  datatype Outcome = Raises | Page(cands: seq<Candidate>)

  /**
   * The results `search_web` settles on: DuckDuckGo's (snippets unescaped),
   * and only when DuckDuckGo raises, Startpage's; none when both raise.
   */
  function SearchResults(query: string, maxResults: int, ddg: string -> Outcome, startpage: string -> Outcome,
                         unescape: string -> string): seq<SearchHit>
  {
    match ddg(query)
    case Page(c) => CappedHits(c, maxResults, unescape)
    case Raises =>
      match startpage(query)
      case Page(c) => CappedHits(c, maxResults, s => s)
      case Raises => []
  }

  /** `search_web(query, max_results)`: the printed results and the hits themselves. */
  method SearchWeb(query: string, maxResults: int, ddg: string -> Outcome, startpage: string -> Outcome,
                   unescape: string -> string) returns (formatted: string, results: seq<SearchHit>)
    ensures results == SearchResults(query, maxResults, ddg, startpage, unescape)
    ensures formatted == FormatSearchResults(results)
  {
    var first := ddg(query);
    if first.Page? {
      results := CollectHits(first.cands, maxResults, unescape);
    } else {
      var second := startpage(query);
      if second.Page? {
        results := CollectHits(second.cands, maxResults, s => s);
      } else {
        results := [];
      }
    }
    formatted := FormatSearchResults(results);
  }

  /** Startpage is consulted only when DuckDuckGo raises. */
  lemma FallbackOnlyOnFailure(query: string, k: int, ddg: string -> Outcome, sp1: string -> Outcome,
                              sp2: string -> Outcome, unescape: string -> string)
    requires ddg(query).Page?
    ensures SearchResults(query, k, ddg, sp1, unescape) == SearchResults(query, k, ddg, sp2, unescape)
            == CappedHits(ddg(query).cands, k, unescape)
  {
  }

  /** When both providers raise there are no results, and the printed text says so. */
  lemma BothFail(query: string, k: int, ddg: string -> Outcome, sp: string -> Outcome, unescape: string -> string)
    requires ddg(query).Raises? && sp(query).Raises?
    ensures SearchResults(query, k, ddg, sp, unescape) == []
    ensures FormatSearchResults(SearchResults(query, k, ddg, sp, unescape)) == NO_RESULTS
  {
  }

  /** The printed text is "No results found." exactly when no hit survives. */
  lemma NoResultsText(query: string, k: int, ddg: string -> Outcome, sp: string -> Outcome, unescape: string -> string)
    ensures var r := SearchResults(query, k, ddg, sp, unescape);
      FormatSearchResults(r) == NO_RESULTS <==> r == []
  {
    FormatEmptyIff(SearchResults(query, k, ddg, sp, unescape));
  }
}
