/** The `LiteBiws` crawler: configuration, the two crawl loops over its
    three fields, the statistics and the export snapshot. The network and
    the HTML parser are a `Web` value: what a GET of a URL answers on each
    attempt, and what the CSS selectors find in a page. */
module Crawler {
  import opened Common
  import opened Retry
  import opened Combinations
  import opened ResultPage
  import opened MetaKeywords
  import opened Aggregate

  /** `ScrapingConfig`. `timeout`, `user_agents` and `output_file` only
      reach the transport and the file system. */
  datatype ScrapingConfig = ScrapingConfig(
    baseKeywords: seq<string>,
    queryChar: string,
    baseUrl: string,
    requestDelay: real,
    maxRetries: int,
    timeout: int,
    userAgents: seq<string>,
    outputFile: string)

  /** What the outside world answers: `transport(url)(k)` is the outcome
      of the GET of `url` issued with the retry counter at k; `hrefsOf` and
      `contentsOf` are the selector passes of `extract_google_urls` and
      `extract_meta_keywords` over a page's text. */
  datatype Web = Web(
    transport: string -> nat -> Outcome,
    hrefsOf: string -> seq<string>,
    contentsOf: string -> seq<string>)

  /** `make_request(url)` as the crawler calls it. */
  function Get(web: Web, cfg: ScrapingConfig, url: string): Request
  {
    Fetch(web.transport(url), cfg.maxRetries, cfg.requestDelay)
  }

  /** The keywords one page contributes: none when its fetch fails. */
  function PageKeywords(web: Web, cfg: ScrapingConfig, url: string): seq<string>
  {
    match Get(web, cfg, url).response
    case None => []
    case Some(body) => NonBlank(RawTokens(web.contentsOf(body)))
  }

  /** A URL of `urls` is fetched at position k when it is neither already
      scraped nor seen earlier in the list. */
  predicate IsNew(urls: seq<string>, seen: set<string>, k: nat)
    requires k < |urls|
  {
    urls[k] !in seen && urls[k] !in urls[..k]
  }

  /** The URLs `extract_keywords_from_urls(urls)` fetches, in order, when
      `seen` is already scraped. */
  function NewUrls(urls: seq<string>, seen: set<string>): (r: seq<string>)
    ensures forall u :: u in r ==> u in urls && u !in seen
  {
    if urls == [] then []
    else
      var n := |urls| - 1;
      NewUrls(urls[..n], seen) + (if IsNew(urls, seen, n) then [urls[n]] else [])
  }

  /** The keywords `extract_keywords_from_urls(urls)` appends, in order,
      when `seen` is already scraped. */
  function Harvest(web: Web, cfg: ScrapingConfig, urls: seq<string>, seen: set<string>): seq<string>
  {
    if urls == [] then []
    else
      var n := |urls| - 1;
      Harvest(web, cfg, urls[..n], seen) + (if IsNew(urls, seen, n) then PageKeywords(web, cfg, urls[n]) else [])
  }

  /** The result list one search query contributes to `all_urls`: none when
      the search fetch fails. */
  function SearchPage(web: Web, cfg: ScrapingConfig, query: string): Option<seq<string>>
  {
    match Get(web, cfg, cfg.baseUrl + query).response
    case None => None
    case Some(body) => Some(FirstValid(Candidates(web.hrefsOf(body))))
  }

  /** What one query appends to `all_urls`: its list, or nothing. */
  function SearchHit(web: Web, cfg: ScrapingConfig, query: string): (r: seq<seq<string>>)
    ensures |r| <= 1
  {
    match SearchPage(web, cfg, query) case None => [] case Some(urls) => [urls]
  }

  /** The lists `scrape_search_results` appends to `all_urls`, one per
      query whose search fetch succeeded. */
  function SearchResults(web: Web, cfg: ScrapingConfig, queries: seq<string>): seq<seq<string>>
  {
    if queries == [] then []
    else
      var n := |queries| - 1;
      SearchResults(web, cfg, queries[..n]) + SearchHit(web, cfg, queries[n])
  }

  /** How many of the queries' search fetches fail. */
  function FailedSearches(web: Web, cfg: ScrapingConfig, queries: seq<string>): nat
  {
    if queries == [] then 0
    else
      var n := |queries| - 1;
      FailedSearches(web, cfg, queries[..n]) + (if SearchPage(web, cfg, queries[n]).None? then 1 else 0)
  }

  /** `total_search_queries` counts only the successful searches. */
  lemma {:induction false} SearchResultsCount(web: Web, cfg: ScrapingConfig, queries: seq<string>)
    ensures FailedSearches(web, cfg, queries) <= |queries|
    ensures |SearchResults(web, cfg, queries)| == |queries| - FailedSearches(web, cfg, queries)
  {
    if queries != [] {
      SearchResultsCount(web, cfg, queries[..|queries| - 1]);
    }
  }

  /** Every URL list is the de-duplicated valid links of a successful
      search page. */
  lemma {:induction false} SearchResultsValid(web: Web, cfg: ScrapingConfig, queries: seq<string>)
    ensures forall i :: 0 <= i < |SearchResults(web, cfg, queries)| ==>
      Distinct(SearchResults(web, cfg, queries)[i]) &&
      forall k :: 0 <= k < |SearchResults(web, cfg, queries)[i]| ==> IsValidUrl(SearchResults(web, cfg, queries)[i][k])
  {
    if queries != [] {
      var n := |queries| - 1;
      SearchResultsValid(web, cfg, queries[..n]);
      match Get(web, cfg, cfg.baseUrl + queries[n]).response
      case None =>
      case Some(body) => FirstValidSound(Candidates(web.hrefsOf(body)));
    }
  }

  /** A position of `b` after `a` is new against `seen` exactly when it is
      new in `b` against `seen` plus the URLs of `a`. */
  lemma IsNewAppend(a: seq<string>, b: seq<string>, seen: set<string>, k: nat)
    requires k < |b|
    ensures IsNew(a + b, seen, |a| + k) == IsNew(b, seen + ElementsOf(a), k)
  {
    assert (a + b)[..|a| + k] == a + b[..k];
    assert (a + b)[|a| + k] == b[k];
  }

  /** Fetching `a` and then `b` fetches what fetching `a + b` in one pass does. */
  lemma {:induction false} NewUrlsAppend(a: seq<string>, b: seq<string>, seen: set<string>)
    ensures NewUrls(a + b, seen) == NewUrls(a, seen) + NewUrls(b, seen + ElementsOf(a))
    decreases |b|
  {
    if b == [] {
      assert a + b == a;
    } else {
      var n := |b| - 1;
      var seenA := seen + ElementsOf(a);
      NewUrlsAppend(a, b[..n], seen);
      assert (a + b)[..|a| + n] == a + b[..n];
      IsNewAppend(a, b, seen, n);
      var last := if IsNew(b, seenA, n) then [b[n]] else [];
      assert NewUrls(a + b, seen) == NewUrls(a + b[..n], seen) + last;
      assert NewUrls(b, seenA) == NewUrls(b[..n], seenA) + last;
      AppendAssoc(NewUrls(a, seen), NewUrls(b[..n], seenA), last);
    }
  }

  /** The last URL's contribution to the harvest. */
  lemma HarvestLast(web: Web, cfg: ScrapingConfig, urls: seq<string>, seen: set<string>)
    requires urls != []
    ensures var n := |urls| - 1;
      Harvest(web, cfg, urls, seen) ==
        Harvest(web, cfg, urls[..n], seen) + (if IsNew(urls, seen, n) then PageKeywords(web, cfg, urls[n]) else [])
  {
  }

  lemma {:induction false} HarvestAppend(web: Web, cfg: ScrapingConfig, a: seq<string>, b: seq<string>, seen: set<string>)
    ensures Harvest(web, cfg, a + b, seen) == Harvest(web, cfg, a, seen) + Harvest(web, cfg, b, seen + ElementsOf(a))
    decreases |b|
  {
    if b == [] {
      assert a + b == a;
    } else {
      var n := |b| - 1;
      var seenA := seen + ElementsOf(a);
      HarvestAppend(web, cfg, a, b[..n], seen);
      assert (a + b)[..|a| + n] == a + b[..n];
      IsNewAppend(a, b, seen, n);
      HarvestLast(web, cfg, a + b, seen);
      HarvestLast(web, cfg, b, seenA);
      var last := if IsNew(b, seenA, n) then PageKeywords(web, cfg, b[n]) else [];
      AppendAssoc(Harvest(web, cfg, a, seen), Harvest(web, cfg, b[..n], seenA), last);
    }
  }

  /** No URL is fetched twice for keywords, and none already scraped. */
  lemma {:induction false} NewUrlsDistinct(urls: seq<string>, seen: set<string>)
    ensures Distinct(NewUrls(urls, seen))
    ensures ElementsOf(NewUrls(urls, seen)) == ElementsOf(urls) - seen
  {
    if urls != [] {
      var n := |urls| - 1;
      var init := urls[..n];
      NewUrlsDistinct(init, seen);
      assert urls == init + [urls[n]];
      ElementsOfAppend(init, [urls[n]]);
      var p := NewUrls(init, seen);
      assert urls[..n] == init;
      if IsNew(urls, seen, n) {
        var x := urls[n];
        assert NewUrls(urls, seen) == p + [x];
        assert x !in ElementsOf(p);
        ElementsOfAppend(p, [x]);
        assert ElementsOf([x]) == {x};
        DistinctSnoc(p, x);
      } else {
        assert NewUrls(urls, seen) == p;
      }
    }
  }

  lemma DistinctSnoc(p: seq<string>, x: string)
    requires Distinct(p) && x !in p
    ensures Distinct(p + [x])
  {
  }

  /** When every search fails, nothing is recorded. */
  lemma {:induction false} AllSearchesFail(web: Web, cfg: ScrapingConfig, queries: seq<string>)
    requires forall k :: 0 <= k < |queries| ==> SearchPage(web, cfg, queries[k]).None?
    ensures SearchResults(web, cfg, queries) == []
  {
    if queries != [] {
      AllSearchesFail(web, cfg, queries[..|queries| - 1]);
    }
  }

  /** A search fails exactly when every allowed attempt at its URL fails. */
  lemma SearchFailsIff(web: Web, cfg: ScrapingConfig, query: string)
    ensures SearchPage(web, cfg, query).None? <==>
      forall k :: 0 <= k < cfg.maxRetries ==> web.transport(cfg.baseUrl + query)(k).Failed?
  {
    NoneIffAllFail(web.transport(cfg.baseUrl + query), cfg.maxRetries, cfg.requestDelay, 0);
  }

  /** One more URL of the list: how the harvest, the fetch log and the
      scraped set of `extract_keywords_from_urls` move on. */
  lemma UrlStep(web: Web, cfg: ScrapingConfig, urls: seq<string>, seen: set<string>, i: nat)
    requires i < |urls|
    ensures ElementsOf(urls[..i + 1]) == ElementsOf(urls[..i]) + {urls[i]}
    ensures IsNew(urls[..i + 1], seen, i) <==> urls[i] !in seen + ElementsOf(urls[..i])
    ensures NewUrls(urls[..i + 1], seen) ==
      NewUrls(urls[..i], seen) + (if IsNew(urls[..i + 1], seen, i) then [urls[i]] else [])
    ensures Harvest(web, cfg, urls[..i + 1], seen) ==
      Harvest(web, cfg, urls[..i], seen) + (if IsNew(urls[..i + 1], seen, i) then PageKeywords(web, cfg, urls[i]) else [])
  {
    var prefix := urls[..i + 1];
    assert prefix[..i] == urls[..i];
    assert prefix == urls[..i] + [urls[i]];
    ElementsOfAppend(urls[..i], [urls[i]]);
  }

  /** Logging a URL not yet scraped keeps the log free of repeats and equal,
      as a set, to the scraped URLs. */
  lemma LogStep(log: seq<string>, scraped: set<string>, url: string)
    requires Distinct(log) && ElementsOf(log) == scraped && url !in scraped
    ensures Distinct(log + [url]) && ElementsOf(log + [url]) == scraped + {url}
  {
    ElementsOfAppend(log, [url]);
  }

  /** One more query: how `all_urls` and what is derived from it move on. */
  lemma QueryStep(web: Web, cfg: ScrapingConfig, queries: seq<string>, i: nat)
    requires i < |queries|
    ensures SearchResults(web, cfg, queries[..i + 1]) ==
      SearchResults(web, cfg, queries[..i]) + SearchHit(web, cfg, queries[i])
  {
    assert queries[..i + 1][..i] == queries[..i];
  }

  /** Appending at most one list to the recorded ones: the URL set, the
      harvest and the fetch log of the whole are those of the parts. */
  lemma ListsStep(web: Web, cfg: ScrapingConfig, seen: set<string>, found: seq<seq<string>>, more: seq<seq<string>>)
    requires |more| <= 1
    ensures UrlsIn(found + more) == UrlsIn(found) + UrlsIn(more)
    ensures Harvest(web, cfg, Flatten(found + more), seen) ==
      Harvest(web, cfg, Flatten(found), seen) + Harvest(web, cfg, Flatten(more), seen + UrlsIn(found))
    ensures NewUrls(Flatten(found + more), seen) ==
      NewUrls(Flatten(found), seen) + NewUrls(Flatten(more), seen + UrlsIn(found))
  {
    if more == [] {
      assert found + more == found;
    } else {
      var urls := more[0];
      assert more == [] + [urls];
      assert Flatten(more) == urls;
      FlattenSnoc(found, urls);
      HarvestAppend(web, cfg, Flatten(found), urls, seen);
      NewUrlsAppend(Flatten(found), urls, seen);
    }
  }

  /** Sequence concatenation is associative. */
  lemma AppendAssoc<T>(a: seq<T>, b: seq<T>, c: seq<T>)
    ensures (a + b) + c == a + (b + c)
  {
  }

  lemma SingleList(urls: seq<string>)
    ensures Flatten([urls]) == urls && UrlsIn([urls]) == ElementsOf(urls)
  {
    assert [urls] == [] + [urls];
  }

  class LiteBiws {
    const config: ScrapingConfig
    /** `scraped_urls`. */
    var scrapedUrls: set<string>
    /** `all_urls`: one list per successful search. */
    var allUrls: seq<seq<string>>
    /** `used_keywords`. */
    var usedKeywords: seq<string>
    /** The URLs fetched for keywords so far, in order. */
    ghost var pageFetches: seq<string>

    /** Every scraped URL was fetched for keywords exactly once. */
    ghost predicate FetchLogged()
      reads this
    {
      Distinct(pageFetches) && ElementsOf(pageFetches) == scrapedUrls
    }

    /** The scraped URLs are exactly the URLs of the recorded lists. */
    predicate Consistent()
      reads this
    {
      scrapedUrls == UrlsIn(allUrls)
    }

    constructor (config: ScrapingConfig)
      ensures this.config == config
      ensures scrapedUrls == {} && allUrls == [] && usedKeywords == [] && pageFetches == []
      ensures FetchLogged() && Consistent()
    {
      this.config := config;
      scrapedUrls := {};
      allUrls := [];
      usedKeywords := [];
      pageFetches := [];
    }

    /** `extract_keywords_from_urls(urls)`: each URL not yet scraped is
        marked scraped before it is fetched, whether or not the fetch then
        succeeds; a fetched page's keywords are appended. */
    method ExtractKeywordsFromUrls(urls: seq<string>, web: Web)
      modifies this
      requires FetchLogged()
      ensures FetchLogged()
      ensures scrapedUrls == old(scrapedUrls) + ElementsOf(urls)
      ensures allUrls == old(allUrls)
      ensures usedKeywords == old(usedKeywords) + Harvest(web, config, urls, old(scrapedUrls))
      ensures pageFetches == old(pageFetches) + NewUrls(urls, old(scrapedUrls))
    {
      ghost var seen0, used0, log0 := scrapedUrls, usedKeywords, pageFetches;
      var i := 0;
      while i < |urls|
        invariant 0 <= i <= |urls|
        invariant FetchLogged()
        invariant scrapedUrls == seen0 + ElementsOf(urls[..i])
        invariant allUrls == old(allUrls)
        invariant usedKeywords == used0 + Harvest(web, config, urls[..i], seen0)
        invariant pageFetches == log0 + NewUrls(urls[..i], seen0)
      {
        UrlStep(web, config, urls, seen0, i);
        ghost var isNew := IsNew(urls[..i + 1], seen0, i);
        ghost var keywords := if isNew then PageKeywords(web, config, urls[i]) else [];
        ghost var fetched := if isNew then [urls[i]] else [];
        VisitUrl(urls[i], web);
        AppendAssoc(used0, Harvest(web, config, urls[..i], seen0), keywords);
        AppendAssoc(log0, NewUrls(urls[..i], seen0), fetched);
        i := i + 1;
      }
      assert urls[..i] == urls;
    }

    /** One pass of the loop in `extract_keywords_from_urls`: skip a URL
        already scraped; otherwise add it to `scraped_urls`, fetch it, and on
        success extend `used_keywords` with its meta keywords. */
    method VisitUrl(url: string, web: Web)
      modifies this
      requires FetchLogged()
      ensures FetchLogged()
      ensures scrapedUrls == old(scrapedUrls) + {url}
      ensures allUrls == old(allUrls)
      ensures usedKeywords == old(usedKeywords) + (if url in old(scrapedUrls) then [] else PageKeywords(web, config, url))
      ensures pageFetches == old(pageFetches) + (if url in old(scrapedUrls) then [] else [url])
    {
      if url in scrapedUrls {
        return;
      }
      LogStep(pageFetches, scrapedUrls, url);
      scrapedUrls := scrapedUrls + {url};
      pageFetches := pageFetches + [url];
      var response := Get(web, config, url);
      if response.response.None? {
        return;
      }
      var keywords := ExtractMetaKeywords(web.contentsOf(response.response.value));
      usedKeywords := usedKeywords + keywords;
    }

    /** `scrape_search_results`: one search per keyword combination; a
        failed search is skipped, a successful one appends its URL list and
        harvests its pages. */
    method ScrapeSearchResults(web: Web)
      modifies this
      requires FetchLogged() && Consistent()
      ensures FetchLogged() && Consistent()
      ensures allUrls == old(allUrls) + SearchResults(web, config, Queries(config.baseKeywords, config.queryChar))
      ensures scrapedUrls == old(scrapedUrls) + UrlsIn(SearchResults(web, config, Queries(config.baseKeywords, config.queryChar)))
      ensures usedKeywords == old(usedKeywords) +
        Harvest(web, config, Flatten(SearchResults(web, config, Queries(config.baseKeywords, config.queryChar))), old(scrapedUrls))
      ensures pageFetches == old(pageFetches) +
        NewUrls(Flatten(SearchResults(web, config, Queries(config.baseKeywords, config.queryChar))), old(scrapedUrls))
    {
      ghost var all0, seen0, used0, log0 := allUrls, scrapedUrls, usedKeywords, pageFetches;
      var searchKeywords := GenerateKeywordCombinations(config.baseKeywords, config.queryChar);
      var i := 0;
      while i < |searchKeywords|
        invariant 0 <= i <= |searchKeywords|
        invariant FetchLogged() && Consistent()
        invariant allUrls == all0 + SearchResults(web, config, searchKeywords[..i])
        invariant scrapedUrls == seen0 + UrlsIn(SearchResults(web, config, searchKeywords[..i]))
        invariant usedKeywords == used0 + Harvest(web, config, Flatten(SearchResults(web, config, searchKeywords[..i])), seen0)
        invariant pageFetches == log0 + NewUrls(Flatten(SearchResults(web, config, searchKeywords[..i])), seen0)
      {
        ghost var found, hit := SearchResults(web, config, searchKeywords[..i]), SearchHit(web, config, searchKeywords[i]);
        QueryStep(web, config, searchKeywords, i);
        ListsStep(web, config, seen0, found, hit);
        SearchQuery(searchKeywords[i], web);
        AppendAssoc(all0, found, hit);
        AppendAssoc(used0, Harvest(web, config, Flatten(found), seen0), Harvest(web, config, Flatten(hit), seen0 + UrlsIn(found)));
        AppendAssoc(log0, NewUrls(Flatten(found), seen0), NewUrls(Flatten(hit), seen0 + UrlsIn(found)));
        i := i + 1;
      }
      assert searchKeywords[..i] == searchKeywords;
    }

    /** One pass of the loop in `scrape_search_results`: search for one
        keyword combination; on failure go on, on success append the page's
        URL list to `all_urls` and harvest its pages. */
    method SearchQuery(keywords: string, web: Web)
      modifies this
      requires FetchLogged() && Consistent()
      ensures FetchLogged() && Consistent()
      ensures allUrls == old(allUrls) + SearchHit(web, config, keywords)
      ensures scrapedUrls == old(scrapedUrls) + UrlsIn(SearchHit(web, config, keywords))
      ensures usedKeywords == old(usedKeywords) + Harvest(web, config, Flatten(SearchHit(web, config, keywords)), old(scrapedUrls))
      ensures pageFetches == old(pageFetches) + NewUrls(Flatten(SearchHit(web, config, keywords)), old(scrapedUrls))
    {
      var searchUrl := config.baseUrl + keywords;
      var response := Get(web, config, searchUrl);
      if response.response.None? {
        assert SearchHit(web, config, keywords) == [];
        return;
      }
      var urls := ExtractGoogleUrls(web.hrefsOf(response.response.value));
      assert SearchHit(web, config, keywords) == [urls];
      SingleList(urls);
      FlattenSnoc(allUrls, urls);
      allUrls := allUrls + [urls];
      ExtractKeywordsFromUrls(urls, web);
    }

    /** `get_statistics()`. */
    function GetStatistics(): (s: Statistics)
      reads this
      ensures s.totalSearchQueries == |allUrls|
      ensures s.totalUrlsFound == |Flatten(allUrls)|
      ensures s.uniqueUrlsScraped == |scrapedUrls|
      ensures s.totalKeywordsExtracted == |usedKeywords|
      ensures s.uniqueKeywords == |ElementsOf(usedKeywords)| <= |usedKeywords|
      ensures Consistent() ==> s.uniqueUrlsScraped <= s.totalUrlsFound
    {
      ComputeStatistics(allUrls, scrapedUrls, usedKeywords)
    }

    /** The snapshot `export_results` writes: the keywords de-duplicated
        case-insensitively, keeping first casings, and their count. */
    method ExportResults() returns (snapshot: ExportSnapshot)
      ensures snapshot.baseKeywords == config.baseKeywords
      ensures snapshot.statistics == GetStatistics()
      ensures snapshot.urlsByQuery == allUrls && snapshot.allUniqueUrls == scrapedUrls
      ensures snapshot.keywords == FirstByLower(usedKeywords)
      ensures snapshot.keywordCount == |snapshot.keywords| <= snapshot.statistics.uniqueKeywords
    {
      var uniqueKeywords := DedupKeywords(usedKeywords);
      FirstByLowerCount(usedKeywords);
      snapshot := ExportSnapshot(config.baseKeywords, GetStatistics(), allUrls, scrapedUrls,
                                 uniqueKeywords, |uniqueKeywords|);
    }

    /** `run()` without interruption: crawl, then export. The snapshot
        describes the state the crawl leaves behind. */
    method Run(web: Web) returns (snapshot: ExportSnapshot)
      modifies this
      requires FetchLogged() && Consistent()
      ensures FetchLogged() && Consistent()
      ensures allUrls == old(allUrls) + SearchResults(web, config, Queries(config.baseKeywords, config.queryChar))
      ensures scrapedUrls == old(scrapedUrls) + UrlsIn(SearchResults(web, config, Queries(config.baseKeywords, config.queryChar)))
      ensures usedKeywords == old(usedKeywords) +
        Harvest(web, config, Flatten(SearchResults(web, config, Queries(config.baseKeywords, config.queryChar))), old(scrapedUrls))
      ensures pageFetches == old(pageFetches) +
        NewUrls(Flatten(SearchResults(web, config, Queries(config.baseKeywords, config.queryChar))), old(scrapedUrls))
      ensures snapshot.baseKeywords == config.baseKeywords
      ensures snapshot.statistics == GetStatistics()
      ensures snapshot.urlsByQuery == allUrls && snapshot.allUniqueUrls == scrapedUrls
      ensures snapshot.keywords == FirstByLower(usedKeywords)
      ensures snapshot.keywordCount == |snapshot.keywords| <= snapshot.statistics.uniqueKeywords
      ensures snapshot.statistics.totalSearchQueries ==
        |old(allUrls)| + |Queries(config.baseKeywords, config.queryChar)| -
        FailedSearches(web, config, Queries(config.baseKeywords, config.queryChar))
      ensures snapshot.statistics.uniqueUrlsScraped <= snapshot.statistics.totalUrlsFound
    {
      ScrapeSearchResults(web);
      SearchResultsCount(web, config, Queries(config.baseKeywords, config.queryChar));
      snapshot := ExportResults();
    }
  }
}
