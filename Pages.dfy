/**
 * Following the `next` links of the service's paginated row listing.
 *
 * The HTTP transport is replaced by an abstract server: a map from URL to the
 * page that URL answers with. A URL the server does not answer stands for a
 * failed request. The recursion depth of the listing (one Python stack frame
 * per page) is bounded by `fuel`, which stands for the interpreter's recursion
 * limit.
 */
module Pages {
  import opened Values

  /**
   * One decoded listing response: `results` is None when the response has no
   * `results` member, `next` is None when it is null.
   */
  datatype Page = Page(results: Option<seq<Value>>, next: Option<string>)

  /** Whether the page's `next` link is truthy: present and not the empty string. */
  predicate HasNext(page: Page) {
    page.next.Some? && page.next.value != ""
  }

  /** The rows a page contributes (none when it has no `results`). */
  function ResultsOf(page: Page): seq<Value> {
    if page.results.Some? then page.results.value else []
  }

  /** The rows of a run of pages, concatenated in page order. */
  function AllResults(pages: seq<Page>): seq<Value> {
    if pages == [] then [] else ResultsOf(pages[0]) + AllResults(pages[1..])
  }

  /** Fetches the listing at `url` and every page after it, concatenating the `results` in link order. */
  function FetchAll(server: map<string, Page>, url: string, fuel: nat): Result<seq<Value>>
    decreases fuel
  {
    if fuel == 0 then Err(TooManyPages(url))
    else if url !in server then Err(HttpError)
    else
      var page := server[url];
      if page.results.None? then Err(MissingResults(url))
      else if HasNext(page) then
        match FetchAll(server, page.next.value, fuel - 1)
        case Err(e) => Err(e)
        case Ok(rest) => Ok(page.results.value + rest)
      else Ok(page.results.value)
  }

  /**
   * `pages` are the pages the server answers when one starts at `url` and
   * follows each truthy `next` link, ending with the first page whose link is
   * falsy; every one of them carries `results`.
   */
  ghost predicate IsChain(server: map<string, Page>, url: string, pages: seq<Page>)
    decreases |pages|
  {
    && |pages| > 0
    && url in server
    && server[url] == pages[0]
    && pages[0].results.Some?
    && if |pages| == 1 then !HasNext(pages[0])
       else HasNext(pages[0]) && IsChain(server, pages[0].next.value, pages[1..])
  }

  /**
   * Starting at `url` and following truthy `next` links through `pages`, all of
   * which carry `results`, leads to the URL `target`.
   */
  ghost predicate Leads(server: map<string, Page>, url: string, pages: seq<Page>, target: string)
    decreases |pages|
  {
    if pages == [] then url == target
    else
      && url in server
      && server[url] == pages[0]
      && pages[0].results.Some?
      && HasNext(pages[0])
      && Leads(server, pages[0].next.value, pages[1..], target)
  }

  /** A complete chain of pages within the recursion budget yields exactly its rows, in page order. */
  lemma {:induction false} FetchAllChain(server: map<string, Page>, url: string, pages: seq<Page>, fuel: nat)
    requires IsChain(server, url, pages)
    requires |pages| <= fuel
    ensures FetchAll(server, url, fuel) == Ok(AllResults(pages))
    decreases |pages|
  {
    if |pages| > 1 {
      FetchAllChain(server, pages[0].next.value, pages[1..], fuel - 1);
    } else {
      assert AllResults(pages[1..]) == [];
      assert AllResults(pages) == pages[0].results.value;
    }
  }

  /** Conversely, a successful fetch followed a complete chain of pages and returned their rows. */
  lemma {:induction false} FetchAllIsChain(server: map<string, Page>, url: string, fuel: nat)
    returns (pages: seq<Page>)
    requires FetchAll(server, url, fuel).Ok?
    ensures IsChain(server, url, pages)
    ensures |pages| <= fuel
    ensures FetchAll(server, url, fuel).value == AllResults(pages)
    decreases fuel
  {
    var page := server[url];
    if HasNext(page) {
      var rest := FetchAllIsChain(server, page.next.value, fuel - 1);
      pages := [page] + rest;
      assert pages[1..] == rest;
    } else {
      pages := [page];
      assert AllResults(pages[1..]) == [];
    }
  }

  /** A page without `results` anywhere along the links (within the budget) makes the whole fetch fail, naming its URL. */
  lemma {:induction false} FetchAllMissingResults(server: map<string, Page>, url: string, pages: seq<Page>, target: string, fuel: nat)
    requires Leads(server, url, pages, target)
    requires target in server && server[target].results.None?
    requires |pages| < fuel
    ensures FetchAll(server, url, fuel) == Err(MissingResults(target))
    decreases |pages|
  {
    if pages != [] {
      FetchAllMissingResults(server, pages[0].next.value, pages[1..], target, fuel - 1);
    }
  }
}
