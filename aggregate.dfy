/** `get_statistics` and the data part of `export_results`: the counts over
    the crawler's state and the case-insensitive keyword de-duplication. */
module Aggregate {
  import opened Common
  import opened Text

  /** The dictionary `get_statistics` returns. */
  datatype Statistics = Statistics(
    totalSearchQueries: nat,
    totalUrlsFound: nat,
    uniqueUrlsScraped: nat,
    totalKeywordsExtracted: nat,
    uniqueKeywords: nat)

  /** All URL lists, one after the other. */
  function Flatten(ls: seq<seq<string>>): seq<string>
  {
    if ls == [] then [] else Flatten(ls[..|ls| - 1]) + ls[|ls| - 1]
  }

  /** `sum(len(urls) for urls in all_urls)`. */
  function SumLengths(ls: seq<seq<string>>): nat
  {
    if ls == [] then 0 else SumLengths(ls[..|ls| - 1]) + |ls[|ls| - 1]|
  }

  /** Every URL occurring in some list. */
  function UrlsIn(ls: seq<seq<string>>): set<string>
  {
    ElementsOf(Flatten(ls))
  }

  lemma {:induction false} SumLengthsFlatten(ls: seq<seq<string>>)
    ensures SumLengths(ls) == |Flatten(ls)|
  {
    if ls != [] {
      SumLengthsFlatten(ls[..|ls| - 1]);
    }
  }

  /** Appending one list to `all_urls` appends it to the flattening. */
  lemma FlattenSnoc(ls: seq<seq<string>>, l: seq<string>)
    ensures Flatten(ls + [l]) == Flatten(ls) + l
    ensures UrlsIn(ls + [l]) == UrlsIn(ls) + ElementsOf(l)
  {
    assert (ls + [l])[..|ls|] == ls;
    ElementsOfAppend(Flatten(ls), l);
  }

  lemma ElementsOfAppend<T>(a: seq<T>, b: seq<T>)
    ensures ElementsOf(a + b) == ElementsOf(a) + ElementsOf(b)
  {
    forall x | x in ElementsOf(a + b) ensures x in ElementsOf(a) + ElementsOf(b) {
      assert x in a + b;
    }
  }

  /** Scraped URLs drawn from the lists are no more than the list entries. */
  lemma ScrapedBound(allUrls: seq<seq<string>>, scraped: set<string>)
    ensures scraped <= UrlsIn(allUrls) ==> |scraped| <= |Flatten(allUrls)|
  {
    ElementsOfBound(Flatten(allUrls));
    if scraped <= UrlsIn(allUrls) {
      SubsetCard(scraped, UrlsIn(allUrls));
    }
  }

  /** `get_statistics` over the three fields. The URL bound holds whenever
      every scraped URL came from some list, as in the crawler. */
  function ComputeStatistics(allUrls: seq<seq<string>>, scraped: set<string>, used: seq<string>): (s: Statistics)
    ensures s.totalSearchQueries == |allUrls|
    ensures s.totalUrlsFound == |Flatten(allUrls)|
    ensures s.uniqueUrlsScraped == |scraped|
    ensures s.totalKeywordsExtracted == |used|
    ensures s.uniqueKeywords == |ElementsOf(used)|
    ensures s.uniqueKeywords <= s.totalKeywordsExtracted
    ensures scraped <= UrlsIn(allUrls) ==> s.uniqueUrlsScraped <= s.totalUrlsFound
  {
    SumLengthsFlatten(allUrls);
    ElementsOfBound(used);
    ScrapedBound(allUrls, scraped);
    Statistics(|allUrls|, SumLengths(allUrls), |scraped|, |used|, |ElementsOf(used)|)
  }

  // ---------------------------------------------------------------------
  // Case-insensitive de-duplication of the exported keywords.

  /** The lowered forms of a list's keywords: `seen_keywords`. */
  function LowerKeys(xs: seq<string>): set<string>
  {
    set x | x in xs :: Lower(x)
  }

  /** The first keyword of each lowered form, in order, with its own casing:
      what the `seen_keywords` loop builds. */
  function FirstByLower(xs: seq<string>): (r: seq<string>)
    ensures forall k :: 0 <= k < |r| ==> r[k] in xs
  {
    if xs == [] then []
    else
      var init := xs[..|xs| - 1];
      var x := xs[|xs| - 1];
      var p := FirstByLower(init);
      if Lower(x) in LowerKeys(p) then p else p + [x]
  }

  /** Every lowered form of the input is exported, and no other. */
  lemma {:induction false} FirstByLowerKeys(xs: seq<string>)
    ensures LowerKeys(FirstByLower(xs)) == LowerKeys(xs)
  {
    if xs != [] {
      var init := xs[..|xs| - 1];
      var x := xs[|xs| - 1];
      var p := FirstByLower(init);
      FirstByLowerKeys(init);
      assert xs == init + [x];
      assert LowerKeys(xs) == LowerKeys(init) + {Lower(x)};
      if Lower(x) !in LowerKeys(p) {
        assert LowerKeys(p + [x]) == LowerKeys(p) + {Lower(x)};
      }
    }
  }

  /** No two exported keywords have the same lowered form. */
  lemma {:induction false} FirstByLowerDistinct(xs: seq<string>)
    ensures forall i, j :: 0 <= i < j < |FirstByLower(xs)| ==> Lower(FirstByLower(xs)[i]) != Lower(FirstByLower(xs)[j])
  {
    if xs != [] {
      var init := xs[..|xs| - 1];
      var x := xs[|xs| - 1];
      var p := FirstByLower(init);
      FirstByLowerDistinct(init);
      if Lower(x) !in LowerKeys(p) {
        forall i | 0 <= i < |p| ensures Lower(p[i]) != Lower(x) {
          assert p[i] in p;
        }
      }
    }
  }

  /** A keyword whose lowered form has not occurred before it is exported
      with exactly its casing. */
  lemma {:induction false} FirstByLowerKeepsFirst(xs: seq<string>, k: nat)
    requires k < |xs|
    requires forall i :: 0 <= i < k ==> Lower(xs[i]) != Lower(xs[k])
    ensures xs[k] in FirstByLower(xs)
  {
    var init := xs[..|xs| - 1];
    if k < |xs| - 1 {
      FirstByLowerKeepsFirst(init, k);
    } else {
      assert Lower(xs[k]) !in LowerKeys(init);
      FirstByLowerKeys(init);
    }
  }

  /** A keyword whose lowered form did occur earlier is not exported in
      that casing unless the earlier one had the same casing. */
  lemma {:induction false} FirstByLowerDropsLater(xs: seq<string>, i: nat, k: nat)
    requires i < k < |xs| && Lower(xs[i]) == Lower(xs[k]) && xs[i] != xs[k]
    requires forall j :: 0 <= j < k ==> xs[j] != xs[k]
    ensures xs[k] !in FirstByLower(xs)
  {
    var init := xs[..|xs| - 1];
    if k < |xs| - 1 {
      FirstByLowerDropsLater(init, i, k);
      var x := xs[|xs| - 1];
      if x == xs[k] {
        assert xs[i] in init;
        FirstByLowerKeys(init);
        assert FirstByLower(xs) == FirstByLower(init);
      }
    } else {
      assert Lower(xs[k]) in LowerKeys(init);
      FirstByLowerKeys(init);
      assert FirstByLower(xs) == FirstByLower(init);
      assert xs[k] !in init;
      NotInFirstByLower(init, xs[k]);
    }
  }

  /** Exported keywords keep the order of their first occurrences among
      the used keywords. */
  lemma {:induction false} FirstByLowerOrder(xs: seq<string>, i: nat, j: nat, a: int, b: int)
    requires i < j < |FirstByLower(xs)|
    requires IsFirstAt(xs, FirstByLower(xs)[i], a) && IsFirstAt(xs, FirstByLower(xs)[j], b)
    ensures a < b
  {
    var init := xs[..|xs| - 1];
    var x := xs[|xs| - 1];
    var p := FirstByLower(init);
    var out := FirstByLower(xs);
    assert out[i] == p[i];
    if j < |p| {
      assert out[j] == p[j];
      FirstAtInit(xs, out[i], a);
      FirstAtInit(xs, out[j], b);
      FirstByLowerOrder(init, i, j, a, b);
    } else {
      assert out[j] == x && Lower(x) !in LowerKeys(p);
      assert x !in init by {
        FirstByLowerKeys(init);
      }
      assert p[i] in init;
      FirstBeforeLast(xs, p[i], a, b);
    }
  }

  /** A keyword absent from the input is absent from the output. */
  lemma NotInFirstByLower(xs: seq<string>, x: string)
    requires x !in xs
    ensures x !in FirstByLower(xs)
  {
  }

  /** The exported list is no longer than the case-sensitive count of
      distinct keywords: `keyword_count <= unique_keywords`. */
  lemma FirstByLowerCount(xs: seq<string>)
    ensures |FirstByLower(xs)| <= |ElementsOf(xs)|
  {
    var r := FirstByLower(xs);
    FirstByLowerDistinct(xs);
    assert Distinct(r);
    ElementsOfDistinct(r);
    assert ElementsOf(r) <= ElementsOf(xs);
    SubsetCard(ElementsOf(r), ElementsOf(xs));
  }

  /** Three casings of one word ("Go", "go", "GO") count as three distinct
      keywords but export as the first alone. */
  lemma CaseVariants(x: string, y: string, z: string)
    requires Lower(x) == Lower(y) == Lower(z)
    requires x != y && y != z && x != z
    ensures FirstByLower([x, y, z]) == [x]
    ensures |ElementsOf([x, y, z])| == 3
  {
    var one := [x];
    var two := one + [y];
    FirstByLowerSingle(x);
    FirstByLowerRepeat(one, x, y);
    FirstByLowerRepeat(two, x, z);
    assert two + [z] == [x, y, z];
    ThreeDistinct(x, y, z);
  }

  lemma FirstByLowerSingle(x: string)
    ensures FirstByLower([x]) == [x]
  {
    assert [x][..0] == [];
  }

  lemma ThreeDistinct(x: string, y: string, z: string)
    requires x != y && y != z && x != z
    ensures |ElementsOf([x, y, z])| == 3
  {
    assert ElementsOf([x, y, z]) == {x, y, z};
  }

  /** A keyword whose lowered form was seen adds nothing. */
  lemma FirstByLowerRepeat(xs: seq<string>, w: string, x: string)
    requires w in xs && Lower(w) == Lower(x)
    ensures FirstByLower(xs + [x]) == FirstByLower(xs)
  {
    assert (xs + [x])[..|xs|] == xs;
    assert Lower(x) in LowerKeys(xs);
    FirstByLowerKeys(xs);
  }

  /** The instance: the three count as distinct keywords, one is exported. */
  lemma GoCasings()
    ensures FirstByLower(["Go", "go", "GO"]) == ["Go"]
    ensures |ElementsOf(["Go", "go", "GO"])| == 3
  {
    assert Lower("Go") == "go" && Lower("GO") == "go" && Lower("go") == "go";
    CaseVariants("Go", "go", "GO");
  }

  /** The `seen_keywords` loop of `export_results`. */
  method DedupKeywords(used: seq<string>) returns (unique: seq<string>)
    ensures unique == FirstByLower(used)
  {
    unique := [];
    var seen: set<string> := {};
    var i := 0;
    while i < |used|
      invariant 0 <= i <= |used|
      invariant unique == FirstByLower(used[..i])
      invariant seen == LowerKeys(unique)
    {
      assert used[..i + 1][..i] == used[..i];
      var keyword := used[i];
      if Lower(keyword) !in seen {
        unique := unique + [keyword];
        seen := seen + {Lower(keyword)};
      }
      i := i + 1;
    }
    assert used[..i] == used;
  }

  /** The `results` dictionary without its wall-clock date: base keywords,
      statistics, the URL lists, the scraped URLs (a set: the order of
      `list(self.scraped_urls)` is unspecified) and the keywords. */
  datatype ExportSnapshot = ExportSnapshot(
    baseKeywords: seq<string>,
    statistics: Statistics,
    urlsByQuery: seq<seq<string>>,
    allUniqueUrls: set<string>,
    keywords: seq<string>,
    keywordCount: nat)
}
