# lite-Biws crawler core in Dafny

lite-Biws is a keyword-driven web scraper. It is built from a list of base
keywords. It searches Google once for every proper, non-empty combination of
them (joined with `+`). From each result page it collects the distinct, valid
result URLs. It then fetches every URL it has not scraped before and gathers
the page's meta keywords. At the end it reports statistics and exports the
URL lists and the keywords, de-duplicated case-insensitively.

This project models the `LiteBiws` class of `main.py` and its configuration
record. The modules follow the parts of that class:

- `Common`: sequence and set helpers, `Option`, powers of two.
- `Text`: the ASCII string operations Python's `str` provides here
  (`lower`, `startswith`, `in`, `find`, `split`, `join`, `strip`).
- `Combinations`: `generate_keyword_combinations`, with
  `itertools.combinations` as an explicit index enumeration.
- `Retry`: `make_request`'s retry and back-off logic. The transport is a
  function from the attempt counter to an outcome. The sleeps are returned
  as a list of delays.
- `ResultPage`: `extract_google_urls` and `is_valid_url`, including the
  clean-up and the scheme/netloc split of `urlparse`.
- `MetaKeywords`: `extract_meta_keywords`.
- `Aggregate`: `get_statistics` and the keyword de-duplication of
  `export_results`.
- `Crawler`: `ScrapingConfig` and the class `LiteBiws`. Its fields
  `scrapedUrls`, `allUrls` and `usedKeywords` are updated in place by
  `ScrapeSearchResults` and `ExtractKeywordsFromUrls`.

The outside world is a `Web` value with three parts:
- what a GET of a URL answers on the k-th attempt;
- the `href` values the four anchor selectors find in a page;
- the `content` values the four meta selectors find in a page.

A ghost field `pageFetches` logs the URLs fetched for keywords. The class
has two invariants. `FetchLogged` says no URL is fetched twice and the
fetched URLs are exactly `scraped_urls`; every method keeps it.
`Consistent` says `scraped_urls` is exactly the set of URLs in `all_urls`;
the constructor, `SearchQuery`, `ScrapeSearchResults` and `Run` keep it.
`ExtractKeywordsFromUrls` and `VisitUrl` do not: called directly with a URL
that is in no list, they mark it scraped all the same.

Meta content is split only at the first of `,` `;` `|` that occurs in it,
so `"a, b; c"` gives `["a", "b; c"]` (`MetaKeywords.FirstDelimiterOnly`).

## Model

| member | source | states |
|---|---|---|
| Crawler.LiteBiws.constructor | main.py:54-59 | a new crawler has the given configuration, no scraped URLs, no URL lists and no keywords, and satisfies both class invariants |
| Combinations.GenerateKeywordCombinations | main.py:61-76 | the loop over sizes 1..n-1 returns exactly the specification list `Queries`: the joined combinations in size order, and within a size in lexicographic index order |
| Combinations.Queries | main.py:61-76 | there is one query per index combination of `AllCombos` |
| Combinations.QueriesCount | main.py:70-73 | n ≥ 1 keywords give 2^n − 2 queries; fewer than two keywords give none |
| Combinations.CombosCount | main.py:71 | the number of r-combinations of indices lo..n-1 is the binomial coefficient C(n−lo, r) |
| Combinations.CombosBelowCount | main.py:70-71 | the combinations of every size below r, plus one, are the binomial sum up to r−1 |
| Combinations.SumBinomRow | main.py:70-71 | the binomial coefficients of row m add up to 2^m |
| Combinations.Combos | main.py:71 | every r-combination of lo..n-1 has length r and indices in range |
| Combinations.CombosIncreasing | main.py:71 | every combination lists its indices in strictly increasing order, as `itertools.combinations` does |
| Combinations.CombosComplete | main.py:71 | every strictly increasing index list within range is one of the combinations of its length |
| Combinations.AllCombosComplete | main.py:70-71 | every increasing index list of length 1..n-1 occurs among all combinations, so no query is missed |
| Combinations.CombosBelowBySize | main.py:70 | combinations appear in non-decreasing order of size |
| Combinations.QueriesShape | main.py:70-73 | the i-th query is the query character joining the keywords at an increasing list of 1..n-1 distinct indices |
| Combinations.ThreeKeywords | main.py:61-76 | keywords a, b, c give exactly a, b, c, a+q+b, a+q+c and b+q+c, in that order |
| Combinations.AllCombosOfThree | main.py:70-71 | the index combinations for three keywords are [0],[1],[2],[0,1],[0,2],[1,2] |
| Retry.MakeRequest | main.py:82-106 | a call issues at most max(max_retries − retries, 0) GETs and sleeps once per GET; a returned response needs at least one GET |
| Retry.NoneIffAllFail | main.py:86-106 | None comes back if and only if every attempt from `retries` up to `max_retries` fails; with max_retries ≤ retries that is at once |
| Retry.SuccessIsFirstOk | main.py:97-106 | a returned response is the body of the first successful attempt, and every earlier attempt failed |
| Retry.WaitSchedule | main.py:100-105 | the sleeps are 2^k after the failed attempt with counter k, and request_delay once, last, after a success |
| Retry.ExhaustedWait | main.py:86-106 | when every attempt fails, the call makes max_retries − retries GETs and sleeps 2^max_retries − 2^retries seconds in all |
| Retry.FetchExhausted | main.py:86-106 | from the crawler's call with the counter at 0, total failure costs max_retries GETs and 2^max_retries − 1 seconds of sleep |
| ResultPage.ResolveHref | main.py:126-135 | a redirect href yields a value after the `/url?q=` prefix that is free of `&sa=`; any other href is kept unchanged if and only if it starts with "http" and does not mention google.com |
| ResultPage.RedirectUnwrap | main.py:128-133 | `/url?q=` + a destination without `&sa=`, optionally followed by `&sa=`…, unwraps to exactly that destination |
| ResultPage.UrlParse | main.py:150 | `urlparse` first strips leading C0 controls and spaces and deletes every tab, CR and LF; then the scheme is the lowered text before the first ':' when that text starts with a letter and holds only scheme characters, and the netloc runs from "//" to the next '/', '?' or '#'; a netloc it returns holds no such delimiter and no tab or line break, and holds '[' exactly when it holds ']', and the scheme has no capital letter |
| ResultPage.IsValidUrl | main.py:147-158 | a URL is valid exactly when its parse succeeds with scheme http or https and a non-empty netloc that, lowered, mentions neither google.com nor googleusercontent.com; a parse error means not valid |
| ResultPage.LeadingC0Ignored | main.py:150 | leading C0 controls and spaces change neither the parse nor validity, so " http://a.b" is parsed as "http://a.b" |
| ResultPage.UnsafeCharsIgnored | main.py:150 | deleting the tabs and line breaks of a URL first changes neither its parse nor its validity |
| ResultPage.SanitizeRemovesUnsafe | main.py:150 | cleaning up a URL whose tabs and line breaks were deleted beforehand gives the same text as cleaning up the URL itself |
| ResultPage.SplitUrlShape | main.py:150 | a netloc the split finds holds no '/', '?' or '#', holds no tab or line break when the text has none, and holds '[' exactly when it holds ']'; the scheme has no capital letter |
| ResultPage.WebUrlSanitized | main.py:150 | cleaning up "http(s)://" + host + tail deletes exactly the tabs and line breaks of host and tail |
| ResultPage.RemoveUnsafeAppend | main.py:150 | the deletion of tabs and line breaks works piece by piece over a concatenation |
| ResultPage.RemoveUnsafeKeeps | main.py:150 | any character other than tab, CR and LF occurs after the deletion exactly when it occurred before |
| ResultPage.ValidUrlHasWebScheme | main.py:147-158 | once cleaned up, a valid URL starts, ignoring case, with "http://" or "https://" |
| ResultPage.ParseWebUrl | main.py:150 | "http(s)://" + host + path parses to that scheme and the host with its tabs and line breaks deleted, or fails when the host has an unmatched bracket |
| ResultPage.ValidUrlFromParts | main.py:147-156 | an http(s) URL whose host is bracket-free and, once its tabs and line breaks are deleted, non-empty and non-Google is valid, with that cleaned host as netloc |
| ResultPage.GoogleHostInvalid | main.py:154-155 | a host mentioning google.com or googleusercontent.com in any casing, even with tabs or line breaks inserted ("goo\tgle.com"), is rejected |
| ResultPage.BracketHostInvalid | main.py:149-158 | a host with an unmatched bracket makes the parse fail, and the URL is not valid instead of raising |
| ResultPage.OtherSchemeInvalid | main.py:152 | a URL whose parsed scheme is neither http nor https is not valid |
| ResultPage.ExtractGoogleUrls | main.py:108-145 | the result is the first valid occurrence of each candidate URL, in order; it has no repeats and every entry is valid |
| ResultPage.CollectCandidates | main.py:123-135 | the selector loop builds exactly the candidate list `Candidates` of the hrefs |
| ResultPage.KeepFirst | main.py:137-145 | the `seen` loop returns exactly `FirstKept` of its input: the first occurrence of each accepted URL, in order; `ExtractGoogleUrls` runs it with `IsValidUrl`, giving `FirstValid` |
| ResultPage.FirstValid | main.py:137-145 | every kept URL is one of the candidates |
| ResultPage.FirstValidSound | main.py:137-145 | the kept URLs have no repeats and are all valid |
| ResultPage.FirstValidComplete | main.py:140-143 | every valid candidate is kept |
| ResultPage.FirstValidOrder | main.py:138-143 | kept URLs appear in the order of their first occurrence among the candidates |
| MetaKeywords.ExtractMetaKeywords | main.py:160-188 | the result is the non-blank stripped tokens of all tags in tag order; every entry is non-empty and has no surrounding whitespace |
| MetaKeywords.CollectTokens | main.py:175-186 | the tag loop builds exactly `RawTokens`, each tag's tokens after the previous ones |
| MetaKeywords.TagTokens | main.py:178-186 | one tag contributes exactly `ContentTokens` of its content |
| MetaKeywords.FilterNonBlank | main.py:188 | the final comprehension returns exactly `NonBlank` of the collected tokens |
| MetaKeywords.ContentTokens | main.py:178-186 | a tag contributes nothing exactly when its content is all whitespace; each token it contributes is already stripped |
| MetaKeywords.DelimiterIndex | main.py:181-182 | picks the first of comma, semicolon and vertical bar that occurs in the content; no earlier one occurs |
| MetaKeywords.DelimitedTokens | main.py:181-184 | with a delimiter present, the content is split at the first delimiter present; the pieces join back to the content, contain no such delimiter, and are stripped one by one |
| MetaKeywords.UndelimitedToken | main.py:185-186 | content without any delimiter is added whole, stripped |
| MetaKeywords.FirstDelimiterOnly | main.py:181-184 | "a, b" with a, b comma-free and stripped gives [a, b] whatever other delimiters b holds ("a, b; c" gives ["a", "b; c"]) |
| MetaKeywords.EmptyPieceDropped | main.py:183-188 | "a,,b" splits into [a, "", b], and the final filter drops the empty piece |
| MetaKeywords.NonBlank | main.py:188 | no blank keyword survives the filter, and the result is no longer than its input |
| MetaKeywords.NonBlankSound | main.py:188 | every kept keyword comes from the input |
| MetaKeywords.NonBlankComplete | main.py:188 | every non-blank input keyword is kept |
| MetaKeywords.NonBlankSnoc | main.py:188 | the filter keeps order: appending a keyword appends it to the result exactly when it is not blank |
| MetaKeywords.RawTokensAppend | main.py:175-186 | the tokens of two runs of tags are the tokens of the first followed by those of the second |
| MetaKeywords.TokensStripped | main.py:183-188 | every returned keyword is its own strip |
| Text.Split | main.py:183 | `str.split` with one character gives at least one piece, and no piece contains the separator |
| Text.SplitJoin | main.py:183 | joining the pieces of a split with the separator gives back the content |
| Text.JoinSplit | main.py:183 | splitting a join of separator-free pieces gives back the pieces |
| Text.Strip | main.py:178 | a stripped string is empty or starts and ends with a non-space, and is no longer than the original |
| Text.StripBlank | main.py:179 | `strip()` is empty exactly when every character is whitespace |
| Text.StripIdempotent | main.py:183 | stripping twice is stripping once |
| Text.Lower | main.py:154 | `lower()` keeps the length and leaves no ASCII capital letter |
| Text.LowerIdempotent | main.py:257-259 | lowering an already lowered key changes nothing |
| Text.LowerAppend | main.py:154 | lowering distributes over concatenation |
| Text.SameLower | main.py:257 | two keywords with the same lowered form have the same length and differ only in the case of ASCII letters |
| Text.FindFrom | main.py:132 | `find` returns −1 when there is no occurrence, otherwise the first occurrence at or after the start |
| Aggregate.ComputeStatistics | main.py:239-247 | the five counts are the number of lists, the number of entries, scraped, extracted, and distinct (case-sensitive) keywords; unique ≤ total keywords; scraped ≤ found whenever every scraped URL is in some list |
| Aggregate.SumLengthsFlatten | main.py:243 | the sum of the list lengths is the length of all lists together |
| Aggregate.FlattenSnoc | main.py:209 | appending a list to `all_urls` appends its entries and adds its URLs to the URL set |
| Aggregate.DedupKeywords | main.py:253-259 | the `seen_keywords` loop returns exactly `FirstByLower` of the used keywords |
| Aggregate.FirstByLower | main.py:253-259 | every exported keyword is one of the used keywords |
| Aggregate.FirstByLowerKeys | main.py:256-259 | the exported keywords cover exactly the lowered forms of the used keywords |
| Aggregate.FirstByLowerDistinct | main.py:256-259 | no two exported keywords have the same lowered form |
| Aggregate.FirstByLowerKeepsFirst | main.py:256-258 | a keyword whose lowered form has not occurred before it is exported in its own casing |
| Aggregate.FirstByLowerDropsLater | main.py:256-258 | a later casing of an earlier keyword is not exported |
| Aggregate.FirstByLowerOrder | main.py:253-259 | exported keywords keep the order of their first occurrences among the used keywords |
| Aggregate.FirstByLowerCount | main.py:246-273 | keyword_count is at most unique_keywords |
| Aggregate.CaseVariants | main.py:246-259 | three different casings of one word count as three unique keywords but export as the first alone |
| Aggregate.GoCasings | main.py:246-259 | "Go", "go", "GO" give unique_keywords 3 and the exported list ["Go"] |
| Crawler.SearchResultsCount | main.py:204-209 | the statistics count one query per successful search: the number of lists is the number of queries minus the failed searches |
| Crawler.SearchResultsValid | main.py:208-209 | every recorded URL list has no repeats and holds only valid URLs |
| Crawler.AllSearchesFail | main.py:204-206 | when every search fails, nothing is recorded |
| Crawler.SearchFailsIff | main.py:201-206 | a search is skipped if and only if every allowed attempt at its URL fails |
| Crawler.NewUrls | main.py:220-224 | only URLs of the list that were not already scraped are fetched |
| Crawler.NewUrlsDistinct | main.py:220-224 | no URL is fetched twice, and the fetched URLs are exactly the list's URLs minus those already scraped |
| Crawler.NewUrlsAppend | main.py:220-224 | processing a list and then another fetches what processing their concatenation does |
| Crawler.HarvestAppend | main.py:220-233 | the same holds for the harvested keywords |
| Crawler.LiteBiws.ExtractKeywordsFromUrls | main.py:216-237 | every URL of the list ends up scraped, whether or not its fetch succeeds; the keywords of newly fetched pages are appended in order; the URL lists are unchanged; no URL is fetched twice |
| Crawler.LiteBiws.VisitUrl | main.py:220-237 | a URL already scraped changes nothing; otherwise it is marked scraped before its fetch, and a successful fetch appends its page's meta keywords |
| Crawler.LiteBiws.ScrapeSearchResults | main.py:190-214 | `all_urls` is extended by one list per successful search, in query order; `scraped_urls` grows by exactly their URLs; `used_keywords` is only extended; both invariants are kept |
| Crawler.LiteBiws.SearchQuery | main.py:198-214 | a failed search changes nothing; a successful one appends its URL list before harvesting it |
| Crawler.LiteBiws.GetStatistics | main.py:239-247 | the statistics of the current state; unique keywords ≤ total; unique URLs scraped ≤ total URLs found whenever the state is consistent |
| Crawler.LiteBiws.ExportResults | main.py:249-275 | the snapshot holds the base keywords, the statistics, the URL lists and scraped set, and the case-insensitively de-duplicated keywords; their count is the length of that list and at most unique_keywords |
| Crawler.LiteBiws.Run | main.py:287-295 | crawling then exporting keeps both invariants; the new `all_urls`, `scraped_urls`, `used_keywords` and fetch log are those of `ScrapeSearchResults`; the snapshot holds the base keywords, the statistics, the URL lists and scraped set and the de-duplicated keywords of that final state; total_search_queries is the earlier count plus the number of queries minus the failed searches; unique URLs scraped ≤ total URLs found |

## Left out

- HTTP: `requests.Session`, headers and timeouts. A GET is a deterministic function of the URL and the attempt counter. `raise_for_status` failures, connection errors and timeouts are all one `Failed` outcome.
- `get_random_user_agent`: the user agent only reaches the transport. With an empty `user_agents` list, `random.choice` would raise `IndexError`; that error is not modelled.
- `time.sleep`: the delays are returned by `Retry.MakeRequest`. The crawler does not add them up.
- Retry.MakeRequest: a negative `request_delay` makes `time.sleep` raise `ValueError` after a successful GET, which `make_request` does not catch; the model returns the response with a negative wait instead.
- BeautifulSoup: HTML parsing and the CSS selectors are oracles (`Web.hrefsOf`, `Web.contentsOf`). They give the attribute values in selector-pass order, so a link matched by several selectors appears several times, as in the code.
- ResultPage.UrlParse: models the clean-up and the scheme and netloc split of `urlparse` as Python 3.11.4 and later perform them (3.11 releases before 3.11.4, and older branches without that security fix, do not strip leading C0 controls and spaces), not the path, query, fragment or parameter parts, which `is_valid_url` does not read.
- ResultPage.UrlParse: does not validate bracketed IPv6 hosts and does not check NFKC normalisation of the netloc, so a URL that only these checks would reject may count as valid.
- Text: `lower`, `strip` and whitespace are ASCII only, with no Unicode case mapping or Unicode whitespace.
- Text.Strip: its contract does not state that the result is a contiguous part of the input. `TrimStart` and `TrimEnd` state that for each side.
- `ScrapingConfig`'s default values and the default user-agent list of `__post_init__` (main.py:30-48) are configuration data; the crawler takes a `ScrapingConfig` value as given.
- Logging, the JSON encoding, writing the output file and its error handler, and the `scraping_date` from the wall clock.
- The order of `list(self.scraped_urls)` is unspecified in Python, so `all_unique_urls` is a set in the snapshot.
- `KeyboardInterrupt` handling in `run()` (export of partial results) and the command-line `main()`.
- The `try/except` around keyword extraction in `extract_keywords_from_urls`: the modelled parser cannot fail.
- Exceptions other than `RequestException` raised by the transport, which the code does not catch.
