/**
 * `search_and_scrape` in tools.py: for each of the three queries of a
 * company, search, take the first URL in the result text, scrape it, and
 * join everything collected with single spaces. The search engine and the
 * page fetch are parameters: `search` gives the result text of a query,
 * `fetch(n, url)` what the request and the HTML extraction make of `url` on
 * the n-th fetch of the call (counting from 0), so two fetches of one URL
 * may have different outcomes.
 */
module SearchScrape {
  import opened Wrappers
  import opened Queries
  import opened Scrape
  import opened Urls

  /** The total number of characters in `xs`. */
  function TotalLength(xs: seq<string>): nat {
    if xs == [] then 0 else TotalLength(xs[..|xs| - 1]) + |xs[|xs| - 1]|
  }

  /** `" ".join(xs)`: with k pieces, exactly k - 1 separators besides the pieces. */
  function Join(xs: seq<string>): (r: string)
    ensures |r| == TotalLength(xs) + (if xs == [] then 0 else |xs| - 1)
  {
    if |xs| == 0 then ""
    else if |xs| == 1 then xs[0]
    else Join(xs[..|xs| - 1]) + " " + xs[|xs| - 1]
  }

  /** Where `xs[i]` begins in `Join(xs)`: everything before it and one separator each. */
  function Offset(xs: seq<string>, i: nat): nat
    requires i <= |xs|
  {
    TotalLength(xs[..i]) + i
  }

  /**
   * The joined text holds every piece, in order, at its offset, with a
   * single space in front of every piece but the first.
   */
  lemma {:induction false} JoinPieces(xs: seq<string>, i: nat)
    requires i < |xs|
    ensures Offset(xs, i) + |xs[i]| <= |Join(xs)|
    ensures Join(xs)[Offset(xs, i)..Offset(xs, i) + |xs[i]|] == xs[i]
    ensures i > 0 ==> Join(xs)[Offset(xs, i) - 1] == ' '
  {
    var n := |xs|;
    if n == 1 {
      assert xs[..0] == [];
    } else {
      var init := xs[..n - 1];
      var left := Join(init);
      assert Join(xs) == left + " " + xs[n - 1];
      if i == n - 1 {
        assert xs[..i] == init;
      } else {
        assert xs[..i] == init[..i];
        JoinPieces(init, i);
        assert Offset(xs, i) == Offset(init, i);
        assert Join(xs)[..|left|] == left;
      }
    }
  }

  /** Joining two lists is joining each and putting one space between them, unless one is empty. */
  lemma {:induction false} JoinConcat(xs: seq<string>, ys: seq<string>)
    ensures Join(xs + ys) == if xs == [] then Join(ys) else if ys == [] then Join(xs) else Join(xs) + " " + Join(ys)
  {
    if xs == [] {
      assert xs + ys == ys;
    } else if ys == [] {
      assert xs + ys == xs;
    } else if |ys| == 1 {
      assert (xs + ys)[..|xs|] == xs;
    } else {
      var init := ys[..|ys| - 1];
      JoinConcat(xs, init);
      assert (xs + ys)[..|xs + ys| - 1] == xs + init;
    }
  }

  /** The first URL in each query's search result, query by query. */
  function FirstUrlOfEach(queries: seq<string>, search: string -> string): (found: seq<Option<string>>)
    ensures |found| == |queries|
    ensures forall i :: 0 <= i < |queries| ==> found[i] == FirstUrl(search(queries[i]))
  {
    if queries == [] then []
    else
      var init := queries[..|queries| - 1];
      assert forall i :: 0 <= i < |init| ==> init[i] == queries[i];
      FirstUrlOfEach(init, search) + [FirstUrl(search(queries[|queries| - 1]))]
  }

  /** Searching one more query adds the first URL of its result. */
  lemma FirstUrlOfEachSnoc(queries: seq<string>, q: string, search: string -> string)
    ensures FirstUrlOfEach(queries + [q], search) == FirstUrlOfEach(queries, search) + [FirstUrl(search(q))]
  {
    assert (queries + [q])[..|queries|] == queries;
  }

  /** The URLs one search result contributes: its first URL, if it has one. */
  function Taken(url: Option<string>): (urls: seq<string>)
    ensures |urls| <= 1 && (urls == [] <==> url.None?)
    ensures url.Some? ==> urls[0] == url.value
  {
    match url
    case None => []
    case Some(u) => [u]
  }

  /** The URLs fetched, given the first URL of each search result: one per result that has one. */
  function FirstUrls(found: seq<Option<string>>): (urls: seq<string>)
    ensures |urls| <= |found|
  {
    if found == [] then [] else FirstUrls(found[..|found| - 1]) + Taken(found[|found| - 1])
  }

  /** A single search result contributes its first URL when it has one, and nothing otherwise. */
  lemma FirstUrlsOfOne(url: Option<string>)
    ensures FirstUrls([url]) == Taken(url)
  {
    assert [url][..0] == [];
  }

  /** URLs are taken result by result: a list of results contributes what its parts do. */
  lemma {:induction false} FirstUrlsConcat(a: seq<Option<string>>, b: seq<Option<string>>)
    ensures FirstUrls(a + b) == FirstUrls(a) + FirstUrls(b)
  {
    if b == [] {
      assert a + b == a;
    } else {
      var init := b[..|b| - 1];
      FirstUrlsConcat(a, init);
      assert (a + b)[..|a + b| - 1] == a + init;
      assert (a + b)[|a + b| - 1] == b[|b| - 1];
    }
  }

  /** Every URL fetched is the first URL of one of the search results. */
  lemma {:induction false} FirstUrlsFromResults(found: seq<Option<string>>, u: string)
    requires u in FirstUrls(found)
    ensures Some(u) in found
  {
    var init := found[..|found| - 1];
    if u in FirstUrls(init) {
      FirstUrlsFromResults(init, u);
      assert Some(u) in found by {
        var j :| 0 <= j < |init| && init[j] == Some(u);
        assert found[j] == Some(u);
      }
    } else {
      assert found[|found| - 1] == Some(u);
    }
  }

  /**
   * The texts `search_and_scrape` collects: the i-th is the scraped page of
   * the i-th URL fetched, fetched as the i-th request.
   */
  function Collected(found: seq<Option<string>>, fetch: (nat, string) -> Fetched): (texts: seq<string>)
    ensures |texts| == |FirstUrls(found)|
    ensures forall i :: 0 <= i < |texts| ==> texts[i] == ScrapeWebsite(fetch(i, FirstUrls(found)[i]))
  {
    if found == [] then []
    else
      var before := Collected(found[..|found| - 1], fetch);
      var url := found[|found| - 1];
      if url.None? then before else before + [ScrapeWebsite(fetch(|before|, url.value))]
  }

  /** Every search result contributes a URL exactly when every one of them holds a URL. */
  lemma {:induction false} AllQueriesContribute(found: seq<Option<string>>)
    ensures |FirstUrls(found)| == |found| <==> forall i :: 0 <= i < |found| ==> found[i].Some?
  {
    if found != [] {
      var n := |found|;
      var init := found[..n - 1];
      AllQueriesContribute(init);
      assert (forall i :: 0 <= i < n ==> found[i].Some?) <==>
        (forall i :: 0 <= i < n - 1 ==> init[i].Some?) && found[n - 1].Some?
      by {
        assert forall i :: 0 <= i < n - 1 ==> init[i] == found[i];
      }
    }
  }

  /** A search result without a URL adds nothing, not even an empty text. */
  lemma QueryWithoutUrlAddsNothing(found: seq<Option<string>>, fetch: (nat, string) -> Fetched, k: nat)
    requires k < |found| && found[k].None?
    ensures |Collected(found, fetch)| < |found|
  {
    AllQueriesContribute(found);
  }

  /** When no search result holds a URL, the tool returns the empty text. */
  lemma {:induction false} NoUrlsNoText(found: seq<Option<string>>, fetch: (nat, string) -> Fetched)
    requires forall i :: 0 <= i < |found| ==> found[i].None?
    ensures Collected(found, fetch) == []
    ensures Join(Collected(found, fetch)) == ""
  {
    if found != [] {
      var init := found[..|found| - 1];
      assert forall i :: 0 <= i < |init| ==> init[i] == found[i];
      NoUrlsNoText(init, fetch);
    }
  }

  /**
   * `search_and_scrape(company)`. `searched` and `fetched` record the
   * calls made to the search engine and to the fetcher, in order.
   */
  method SearchAndScrape(company: string, search: string -> string, fetch: (nat, string) -> Fetched)
    returns (text: string, ghost searched: seq<string>, ghost fetched: seq<string>)
    ensures text == Join(Collected(FirstUrlOfEach(GenerateSearchQueries(company), search), fetch))
    ensures searched == GenerateSearchQueries(company)
    ensures fetched == FirstUrls(FirstUrlOfEach(searched, search)) && |fetched| <= |searched| == 3
  {
    var queries := GenerateSearchQueries(company);
    var results: seq<string> := [];
    searched, fetched := [], [];
    ghost var found: seq<Option<string>> := [];
    for k := 0 to |queries|
      invariant searched == queries[..k]
      invariant found == FirstUrlOfEach(searched, search)
      invariant fetched == FirstUrls(found)
      invariant results == Collected(found, fetch)
    {
      var query := queries[k];
      var searchResults := search(query);
      var urls := FirstUrl(searchResults);
      FirstUrlOfEachSnoc(searched, query, search);
      assert queries[..k + 1] == searched + [query];
      searched := searched + [query];
      assert (found + [urls])[..k] == found;
      found := found + [urls];
      if urls.Some? {
        results := results + [ScrapeWebsite(fetch(|results|, urls.value))];
        fetched := fetched + [urls.value];
      }
    }
    assert searched == queries;
    text := Join(results);
  }
}
