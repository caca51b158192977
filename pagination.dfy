/**
 * The paginator of the OpenWorld SDK core: it keeps the first page, the total number
 * of results announced by the first response, and the endpoint of the next page,
 * which it takes from each response's headers.
 *
 * The HTTP client, uuid4 and the link extraction strategy are outside the model: the
 * responses served, the fresh transaction ids and the strategy are inputs. Response
 * headers are read as `requests` reads them, ignoring the case of header names.
 */
module Pagination {
  import opened Wrappers
  import opened Text
  import opened PyDict

  type Headers = Dict<string, string>

  const TRANSACTION_ID := "transaction-id"

  /** A response as the paginator sees it: its raw headers and its parsed body. */
  datatype Response = Response(headers: Headers, body: string)

  /** A GET request the paginator sends: the URL and the request headers at that moment. */
  datatype Request = Request(url: string, headers: Headers)

  /**
   * The exceptions the paginator lets out: `StopIteration`, the `ValueError` of
   * `int()` on the total header, an exception raised inside the link extraction
   * strategy, and the `RuntimeError` Python substitutes for a `StopIteration`
   * raised inside a generator.
   */
  datatype PagingError = StopIteration | ValueError(text: string) | StrategyError(message: string) | RuntimeError

  /** What one endpoint update does: move to a new endpoint, stop, or fail in the strategy. */
  datatype Update = Moved(endpoint: string) | Stop | StrategyFailed(message: string)

  /** How a walk over the pages ended, before the generator protocol is applied. */
  datatype Ending = Exhausted | Raised(error: PagingError)

  /** The pages yielded, the requests sent, the ending, and the paginator's mutable state afterwards. */
  datatype Walked = Walked(pages: seq<string>, requests: seq<Request>, ending: Ending,
                           requestHeaders: Headers, nextEndpoint: string, lastHeaders: Headers)

  /**
   * `name in headers.keys()` for the headers of a `requests` response, a
   * `CaseInsensitiveDict`: header names compare ignoring ASCII case.
   */
  predicate HasHeader(headers: Headers, name: string) {
    exists i :: 0 <= i < |headers| && Lower(headers[i].0) == Lower(name)
  }

  /**
   * `headers[name]` for the headers of a `requests` response: the names compare
   * ignoring case, and of two names that differ only in case the later one holds
   * the value, as the later assignment wins in a `CaseInsensitiveDict`.
   */
  function HeaderLookup(headers: Headers, name: string): (r: Option<string>)
    ensures r.Some? <==> HasHeader(headers, name)
    ensures r.Some? ==> exists i :: 0 <= i < |headers| && Lower(headers[i].0) == Lower(name) && headers[i].1 == r.value
    decreases |headers|
  {
    if headers == [] then None
    else
      var n := |headers| - 1;
      if Lower(headers[n].0) == Lower(name) then Some(headers[n].1)
      else
        var r := HeaderLookup(headers[..n], name);
        assert HasHeader(headers, name) ==> HasHeader(headers[..n], name) by {
          if HasHeader(headers, name) {
            var i :| 0 <= i < |headers| && Lower(headers[i].0) == Lower(name);
            assert i < n && headers[..n][i] == headers[i];
          }
        }
        assert r.Some? ==> exists i :: 0 <= i < |headers| && Lower(headers[i].0) == Lower(name) && headers[i].1 == r.value by {
          if r.Some? {
            var i :| 0 <= i < n && Lower(headers[..n][i].0) == Lower(name) && headers[..n][i].1 == r.value;
            assert headers[i] == headers[..n][i];
          }
        }
        r
  }

  /** The lookup does not depend on how the name is spelled in case. */
  lemma {:induction false} LookupIgnoresCase(headers: Headers, a: string, b: string)
    requires Lower(a) == Lower(b)
    ensures HeaderLookup(headers, a) == HeaderLookup(headers, b)
    decreases |headers|
  {
    if headers != [] {
      LookupIgnoresCase(headers[..|headers| - 1], a, b);
    }
  }

  /** No two header names that differ only in case. */
  predicate CaseDistinct(headers: Headers) {
    forall i, j :: 0 <= i < j < |headers| ==> Lower(headers[i].0) != Lower(headers[j].0)
  }

  /** With names distinct ignoring case, a name spelled exactly reads as in a plain dict. */
  lemma {:induction false} LookupExact(headers: Headers, name: string)
    requires CaseDistinct(headers) && name in Keys(headers)
    ensures HeaderLookup(headers, name) == Get(headers, name)
    decreases |headers|
  {
    var n := |headers| - 1;
    var p := headers[..n];
    GetSnoc(p, headers[n].0, headers[n].1, name);
    assert headers == p + [(headers[n].0, headers[n].1)];
    if headers[n].0 != name {
      assert Keys(headers) == Keys(p) + [headers[n].0];
      assert name in Keys(p);
      var i :| 0 <= i < |p| && Keys(p)[i] == name;
      assert p[i].0 == name;
      assert Lower(headers[n].0) != Lower(name) by {
        assert headers[i] == p[i];
      }
      assert CaseDistinct(p) by {
        forall i, j | 0 <= i < j < |p| ensures Lower(p[i].0) != Lower(p[j].0) {
          assert p[i] == headers[i] && p[j] == headers[j];
        }
      }
      LookupExact(p, name);
    } else {
      assert name !in Keys(p) by {
        forall i | 0 <= i < |p| ensures Keys(p)[i] != name {
          assert Keys(p)[i] == p[i].0 && p[i] == headers[i];
        }
      }
    }
  }

  /** `__extract_pagination_total_results`, reading the total header ignoring case. */
  function ExtractTotal(headers: Headers, totalHeader: string): (r: Result<int, PagingError>)
    ensures headers == [] || !HasHeader(headers, totalHeader) ==> r == Ok(0)
    ensures r.Err? <==> HasHeader(headers, totalHeader) && ParseInt(HeaderLookup(headers, totalHeader).value).None?
    ensures r.Err? ==> r.error == ValueError(HeaderLookup(headers, totalHeader).value)
    ensures r.Ok? && HasHeader(headers, totalHeader) ==> ParseInt(HeaderLookup(headers, totalHeader).value) == Some(r.value)
  {
    if headers == [] || !HasHeader(headers, totalHeader) then Ok(0)
    else
      var text := HeaderLookup(headers, totalHeader).value;
      match ParseInt(text)
      case None => Err(ValueError(text))
      case Some(n) => Ok(n)
  }

  /** The total is read alike whatever the case of the header name. */
  lemma ExtractTotalIgnoresCase(headers: Headers, a: string, b: string)
    requires Lower(a) == Lower(b)
    ensures ExtractTotal(headers, a) == ExtractTotal(headers, b)
  {
    LookupIgnoresCase(headers, a, b);
  }

  /** A total header holding `str(n)` announces `n` results. */
  lemma ExtractShownTotal(headers: Headers, totalHeader: string, n: int)
    requires HeaderLookup(headers, totalHeader) == Some(ShowInt(n))
    ensures ExtractTotal(headers, totalHeader) == Ok(n)
  {
    ParseShowInt(n);
  }

  /**
   * The outcome of `__update_next_page_endpoint(page_num)` given the last response's
   * headers: it stops when the page is out of `1..total`, when a page other than the
   * last lacks the link header, or when there are no headers; otherwise the endpoint
   * is the strategy's link, except that the last page goes back to the first endpoint.
   */
  function NextEndpoint(pageNum: int, total: int, headers: Headers, linkHeader: string,
                        firstEndpoint: string, extract: Headers -> Result<string, string>): (r: Update)
    ensures r == Stop <==> pageNum < 1 || pageNum > total || headers == []
                           || (pageNum != total && !HasHeader(headers, linkHeader))
    ensures r.Moved? && pageNum == total ==> r.endpoint == firstEndpoint && extract(headers).Ok?
    ensures r.Moved? && pageNum != total ==> extract(headers) == Ok(r.endpoint)
    ensures r.StrategyFailed? ==> extract(headers) == Err(r.message)
  {
    var outOfBound := pageNum < 1 || pageNum > total;
    var isLastPage := pageNum == total;
    var linkMissing := !(isLastPage || HasHeader(headers, linkHeader));
    if outOfBound || linkMissing || headers == [] then Stop
    else match extract(headers)
      case Err(m) => StrategyFailed(m)
      case Ok(link) => if isLastPage then Moved(firstEndpoint) else Moved(link)
  }

  /** `__update_transaction_id` on a value: only non-empty request headers get a fresh id. */
  function WithTransactionId(headers: Headers, freshId: string): (r: Headers)
    ensures headers == [] ==> r == []
    ensures headers != [] ==> Get(r, TRANSACTION_ID) == Some(freshId)
    ensures forall k :: k != TRANSACTION_ID ==> Get(r, k) == Get(headers, k)
  {
    if headers == [] then headers else Set(headers, TRANSACTION_ID, freshId)
  }

  /** Python's generator protocol (PEP 479): a `StopIteration` escaping a generator becomes `RuntimeError`. */
  function GeneratorError(e: Ending): (r: Option<PagingError>)
    ensures e == Exhausted <==> r.None?
    ensures r.Some? ==> r.value != StopIteration
  {
    match e
    case Exhausted => None
    case Raised(StopIteration) => Some(RuntimeError)
    case Raised(err) => Some(err)
  }

  /** What `raise StopIteration` was meant to do: end the iteration quietly. */
  function IntendedError(e: Ending): (r: Option<PagingError>)
    ensures r.Some? <==> e.Raised? && e.error != StopIteration
  {
    match e
    case Raised(StrategyError(m)) => Some(StrategyError(m))
    case Raised(ValueError(t)) => Some(ValueError(t))
    case Raised(RuntimeError) => Some(RuntimeError)
    case _ => None
  }

  class Paginator {
    var requestHeaders: Headers
    var nextPageEndpoint: string
    var lastResponseHeaders: Headers
    const firstPageEndpoint: string
    const firstPage: string
    const total: int
    const linkHeader: string
    const extract: Headers -> Result<string, string>

    /** `__init__` and the first two assignments of `__post_init__`. */
    constructor (endpoint: string, requestHeaders: Headers, first: Response, total: int,
                 linkHeader: string, extract: Headers -> Result<string, string>)
      ensures this.requestHeaders == requestHeaders
      ensures nextPageEndpoint == endpoint && firstPageEndpoint == endpoint
      ensures lastResponseHeaders == first.headers && firstPage == first.body
      ensures this.total == total && this.linkHeader == linkHeader && this.extract == extract
    {
      this.requestHeaders := requestHeaders;
      nextPageEndpoint := endpoint;
      firstPageEndpoint := endpoint;
      lastResponseHeaders := first.headers;
      firstPage := first.body;
      this.total := total;
      this.linkHeader := linkHeader;
      this.extract := extract;
    }

    /**
     * `Paginator(...)`: the first response, the total it announces, the endpoint
     * update for page 2 and a fresh transaction id. The update raises, out of the
     * constructor, whenever fewer than two results are announced.
     */
    static method Create(endpoint: string, requestHeaders: Headers, first: Response,
                         linkHeader: string, totalHeader: string,
                         extract: Headers -> Result<string, string>, freshId: string)
      returns (r: Result<Paginator, PagingError>)
      ensures ExtractTotal(first.headers, totalHeader).Err? ==> r == Err(ExtractTotal(first.headers, totalHeader).error)
      ensures ExtractTotal(first.headers, totalHeader).Ok? ==>
        var total := ExtractTotal(first.headers, totalHeader).value;
        match NextEndpoint(2, total, first.headers, linkHeader, endpoint, extract)
        case Stop => r == Err(StopIteration)
        case StrategyFailed(m) => r == Err(StrategyError(m))
        case Moved(e) =>
          r.Ok? && fresh(r.value) && r.value.total == total && r.value.nextPageEndpoint == e
          && r.value.firstPageEndpoint == endpoint && r.value.firstPage == first.body
          && r.value.lastResponseHeaders == first.headers
          && r.value.requestHeaders == WithTransactionId(requestHeaders, freshId)
          && r.value.linkHeader == linkHeader && r.value.extract == extract
    {
      var total := ExtractTotal(first.headers, totalHeader);
      if total.Err? {
        return Err(total.error);
      }
      ghost var next := NextEndpoint(2, total.value, first.headers, linkHeader, endpoint, extract);
      var p := new Paginator(endpoint, requestHeaders, first, total.value, linkHeader, extract);
      var raised := p.UpdateNextPageEndpoint(2);
      if raised.Some? {
        assert next.Stop? || next.StrategyFailed?;
        return Err(raised.value);
      }
      assert next == Moved(p.nextPageEndpoint);
      p.UpdateTransactionId(freshId);
      return Ok(p);
    }

    /** `is_link_in_last_response_headers`: the link header, in any case, among the last response's headers. */
    predicate IsLinkInLastResponseHeaders()
      reads this
    {
      HasHeader(lastResponseHeaders, linkHeader)
    }

    /** `__update_next_page_endpoint` */
    method UpdateNextPageEndpoint(pageNum: int) returns (raised: Option<PagingError>)
      modifies this`nextPageEndpoint
      ensures match NextEndpoint(pageNum, total, lastResponseHeaders, linkHeader, firstPageEndpoint, extract)
        case Moved(e) => raised == None && nextPageEndpoint == e
        case Stop => raised == Some(StopIteration) && nextPageEndpoint == old(nextPageEndpoint)
        case StrategyFailed(m) => raised == Some(StrategyError(m)) && nextPageEndpoint == old(nextPageEndpoint)
    {
      var isPageNumOutOfBound := pageNum < 1 || pageNum > total;
      var isLastPage := pageNum == total;
      var isLinkMissing := !(isLastPage || IsLinkInLastResponseHeaders());
      if isPageNumOutOfBound || isLinkMissing || lastResponseHeaders == [] {
        return Some(StopIteration);
      }
      var link := extract(lastResponseHeaders);
      if link.Err? {
        return Some(StrategyError(link.error));
      }
      nextPageEndpoint := link.value;
      if pageNum == total {
        nextPageEndpoint := firstPageEndpoint;
      }
      return None;
    }

    /** `__update_transaction_id`: `freshId` stands for `str(uuid4())`. */
    method UpdateTransactionId(freshId: string)
      modifies this`requestHeaders
      ensures requestHeaders == WithTransactionId(old(requestHeaders), freshId)
    {
      if requestHeaders == [] {
        return;
      }
      requestHeaders := Set(requestHeaders, TRANSACTION_ID, freshId);
    }

    /**
     * Pages `k` to `total` of the loop in `get_pages`, from the given state; the
     * response to the request for page `k` is `responses[k - 2]`, and the fresh id
     * written after it is `ids[k - 2]`.
     */
    function Walk(k: int, reqHeaders: Headers, next: string, last: Headers,
                  responses: seq<Response>, ids: seq<string>): (w: Walked)
      requires 2 <= k
      requires |responses| >= total - 1 && |ids| >= total - 1
      decreases total - k
    {
      if k > total then Walked([], [], Exhausted, reqHeaders, next, last)
      else
        var resp := responses[k - 2];
        var req := Request(next, reqHeaders);
        match NextEndpoint(k, total, resp.headers, linkHeader, firstPageEndpoint, extract)
        case Stop => Walked([], [req], Raised(StopIteration), reqHeaders, next, resp.headers)
        case StrategyFailed(m) => Walked([], [req], Raised(StrategyError(m)), reqHeaders, next, resp.headers)
        case Moved(e) =>
          var w := Walk(k + 1, WithTransactionId(reqHeaders, ids[k - 2]), e, resp.headers, responses, ids);
          w.(pages := [resp.body] + w.pages, requests := [req] + w.requests)
    }

    /** The whole of `get_pages`, from the given state, before the generator protocol is applied. */
    function AllPages(reqHeaders: Headers, next: string, last: Headers,
                      responses: seq<Response>, ids: seq<string>): (w: Walked)
      requires |responses| >= total - 1 && |ids| >= total - 1
    {
      if last == [] || total == 0 then Walked([], [], Raised(StopIteration), reqHeaders, next, last)
      else if total < 1 then Walked([], [], Exhausted, reqHeaders, next, last)
      else
        var w := Walk(2, reqHeaders, next, last, responses, ids);
        w.(pages := [firstPage] + w.pages)
    }

    /** The pages and requests so far, followed by the walk from page `k` in the given state, make up `full`. */
    predicate RestFrom(k: int, pages: seq<string>, requests: seq<Request>, full: Walked,
                       reqHeaders: Headers, next: string, last: Headers,
                       responses: seq<Response>, ids: seq<string>)
      requires 2 <= k && |responses| >= total - 1 && |ids| >= total - 1
    {
      var w := Walk(k, reqHeaders, next, last, responses, ids);
      pages + w.pages == full.pages && requests + w.requests == full.requests && w.ending == full.ending
      && w.requestHeaders == full.requestHeaders && w.nextEndpoint == full.nextEndpoint
      && w.lastHeaders == full.lastHeaders
    }

    /** The walk of `get_pages` starts at page 2 after the stored first page. */
    lemma RestStart(reqHeaders: Headers, next: string, last: Headers,
                    responses: seq<Response>, ids: seq<string>)
      requires |responses| >= total - 1 && |ids| >= total - 1
      requires last != [] && total >= 1
      ensures RestFrom(2, [firstPage], [], AllPages(reqHeaders, next, last, responses, ids),
                       reqHeaders, next, last, responses, ids)
    {
    }

    /** A page whose endpoint update stops or fails ends the walk after its request. */
    lemma RestStops(k: int, pages: seq<string>, requests: seq<Request>, full: Walked,
                    reqHeaders: Headers, next: string, last: Headers,
                    responses: seq<Response>, ids: seq<string>)
      requires 2 <= k <= total
      requires |responses| >= total - 1 && |ids| >= total - 1
      requires RestFrom(k, pages, requests, full, reqHeaders, next, last, responses, ids)
      requires !NextEndpoint(k, total, responses[k - 2].headers, linkHeader, firstPageEndpoint, extract).Moved?
      ensures var u := NextEndpoint(k, total, responses[k - 2].headers, linkHeader, firstPageEndpoint, extract);
        pages == full.pages && requests + [Request(next, reqHeaders)] == full.requests
        && full.ending == Raised(if u.Stop? then StopIteration else StrategyError(u.message))
        && full.requestHeaders == reqHeaders && full.nextEndpoint == next
        && full.lastHeaders == responses[k - 2].headers
    {
      var w := Walk(k, reqHeaders, next, last, responses, ids);
      assert w.pages == [] && w.requests == [Request(next, reqHeaders)];
      assert pages + w.pages == pages;
    }

    /** A page whose endpoint update moves on yields its body and leaves the walk from the next page. */
    lemma RestMoves(k: int, pages: seq<string>, requests: seq<Request>, full: Walked,
                    reqHeaders: Headers, next: string, last: Headers, e: string,
                    responses: seq<Response>, ids: seq<string>)
      requires 2 <= k <= total
      requires |responses| >= total - 1 && |ids| >= total - 1
      requires RestFrom(k, pages, requests, full, reqHeaders, next, last, responses, ids)
      requires NextEndpoint(k, total, responses[k - 2].headers, linkHeader, firstPageEndpoint, extract) == Moved(e)
      ensures RestFrom(k + 1, pages + [responses[k - 2].body], requests + [Request(next, reqHeaders)], full,
                       WithTransactionId(reqHeaders, ids[k - 2]), e, responses[k - 2].headers, responses, ids)
    {
      var w := Walk(k, reqHeaders, next, last, responses, ids);
      var w' := Walk(k + 1, WithTransactionId(reqHeaders, ids[k - 2]), e, responses[k - 2].headers, responses, ids);
      assert w.pages == [responses[k - 2].body] + w'.pages;
      assert w.requests == [Request(next, reqHeaders)] + w'.requests;
      assert pages + w.pages == (pages + [responses[k - 2].body]) + w'.pages;
      assert requests + w.requests == (requests + [Request(next, reqHeaders)]) + w'.requests;
    }

    /** Past the last page the walk is exhausted and leaves the state as it is. */
    lemma RestEnds(k: int, pages: seq<string>, requests: seq<Request>, full: Walked,
                   reqHeaders: Headers, next: string, last: Headers,
                   responses: seq<Response>, ids: seq<string>)
      requires 2 <= k && k > total
      requires |responses| >= total - 1 && |ids| >= total - 1
      requires RestFrom(k, pages, requests, full, reqHeaders, next, last, responses, ids)
      ensures pages == full.pages && requests == full.requests && full.ending == Exhausted
        && full.requestHeaders == reqHeaders && full.nextEndpoint == next && full.lastHeaders == last
    {
      assert pages + [] == pages && requests + [] == requests;
    }

    /** The loop of `get_pages`, run to the end; the generator's caller is assumed to consume every page. */
    method YieldPages(responses: seq<Response>, ids: seq<string>)
      returns (pages: seq<string>, requests: seq<Request>, ending: Ending)
      requires |responses| >= total - 1 && |ids| >= total - 1
      modifies this`requestHeaders, this`nextPageEndpoint, this`lastResponseHeaders
      ensures var w := AllPages(old(requestHeaders), old(nextPageEndpoint), old(lastResponseHeaders), responses, ids);
        pages == w.pages && requests == w.requests && ending == w.ending
        && requestHeaders == w.requestHeaders && nextPageEndpoint == w.nextEndpoint
        && lastResponseHeaders == w.lastHeaders
    {
      if lastResponseHeaders == [] || total == 0 {
        return [], [], Raised(StopIteration);
      }
      ghost var full := AllPages(requestHeaders, nextPageEndpoint, lastResponseHeaders, responses, ids);
      pages, requests := [], [];
      var pageNum := 1;
      while pageNum <= total
        invariant 1 <= pageNum && (total >= 1 ==> pageNum <= total + 1)
        invariant pageNum == 1 ==> (pages == [] && requests == []
          && requestHeaders == old(requestHeaders) && nextPageEndpoint == old(nextPageEndpoint)
          && lastResponseHeaders == old(lastResponseHeaders))
        invariant pageNum >= 2 ==> RestFrom(pageNum, pages, requests, full, requestHeaders, nextPageEndpoint,
                                            lastResponseHeaders, responses, ids)
        decreases total - pageNum
      {
        if pageNum == 1 {
          RestStart(requestHeaders, nextPageEndpoint, lastResponseHeaders, responses, ids);
          pages := [firstPage];
          pageNum := 2;
          continue;
        }
        var response := responses[pageNum - 2];
        var req := Request(nextPageEndpoint, requestHeaders);
        ghost var last := lastResponseHeaders;
        ghost var before := requests;
        requests := requests + [req];
        lastResponseHeaders := response.headers;
        var raised := UpdateNextPageEndpoint(pageNum);
        if raised.Some? {
          RestStops(pageNum, pages, before, full, req.headers, req.url, last, responses, ids);
          return pages, requests, Raised(raised.value);
        }
        RestMoves(pageNum, pages, before, full, req.headers, req.url, last, nextPageEndpoint, responses, ids);
        UpdateTransactionId(ids[pageNum - 2]);
        pages := pages + [response.body];
        pageNum := pageNum + 1;
      }
      if pageNum >= 2 {
        RestEnds(pageNum, pages, requests, full, requestHeaders, nextPageEndpoint, lastResponseHeaders, responses, ids);
      }
      return pages, requests, Exhausted;
    }

    /** `get_pages` as written: both `raise StopIteration` statements surface as `RuntimeError`. */
    method GetPages(responses: seq<Response>, ids: seq<string>)
      returns (pages: seq<string>, requests: seq<Request>, error: Option<PagingError>)
      requires |responses| >= total - 1 && |ids| >= total - 1
      modifies this`requestHeaders, this`nextPageEndpoint, this`lastResponseHeaders
      ensures var w := AllPages(old(requestHeaders), old(nextPageEndpoint), old(lastResponseHeaders), responses, ids);
        pages == w.pages && requests == w.requests && error == GeneratorError(w.ending)
        && requestHeaders == w.requestHeaders && nextPageEndpoint == w.nextEndpoint
        && lastResponseHeaders == w.lastHeaders
    {
      var ending;
      pages, requests, ending := YieldPages(responses, ids);
      error := GeneratorError(ending);
    }

    /** `get_pages` with `return` where it raises `StopIteration`: the iteration just ends. */
    method GetPagesCorrected(responses: seq<Response>, ids: seq<string>)
      returns (pages: seq<string>, requests: seq<Request>, error: Option<PagingError>)
      requires |responses| >= total - 1 && |ids| >= total - 1
      modifies this`requestHeaders, this`nextPageEndpoint, this`lastResponseHeaders
      ensures var w := AllPages(old(requestHeaders), old(nextPageEndpoint), old(lastResponseHeaders), responses, ids);
        pages == w.pages && requests == w.requests && error == IntendedError(w.ending)
        && requestHeaders == w.requestHeaders && nextPageEndpoint == w.nextEndpoint
        && lastResponseHeaders == w.lastHeaders
    {
      var ending;
      pages, requests, ending := YieldPages(responses, ids);
      error := IntendedError(ending);
    }

    /** The walk from page `k` yields at most one page per remaining page number, one request per page tried. */
    lemma {:induction false} WalkBounded(k: int, reqHeaders: Headers, next: string, last: Headers,
                                         responses: seq<Response>, ids: seq<string>)
      requires 2 <= k
      requires |responses| >= total - 1 && |ids| >= total - 1
      ensures var w := Walk(k, reqHeaders, next, last, responses, ids);
        |w.pages| <= if k > total then 0 else total - k + 1
      ensures var w := Walk(k, reqHeaders, next, last, responses, ids);
        |w.requests| == |w.pages| + (if w.ending.Raised? then 1 else 0)
      decreases total - k
    {
      if k <= total {
        var resp := responses[k - 2];
        match NextEndpoint(k, total, resp.headers, linkHeader, firstPageEndpoint, extract)
        case Stop =>
        case StrategyFailed(m) =>
        case Moved(e) =>
          WalkBounded(k + 1, WithTransactionId(reqHeaders, ids[k - 2]), e, resp.headers, responses, ids);
      }
    }

    /**
     * `get_pages` yields the stored first page first, without sending a request for
     * it, and yields at most `total` pages; with no headers or a zero total it stops
     * at once.
     */
    lemma PagesStartWithFirstPage(reqHeaders: Headers, next: string, last: Headers,
                                  responses: seq<Response>, ids: seq<string>)
      requires |responses| >= total - 1 && |ids| >= total - 1
      ensures var w := AllPages(reqHeaders, next, last, responses, ids);
        (last == [] || total == 0 ==> w.pages == [] && w.requests == [] && w.ending == Raised(StopIteration))
        && (last != [] && total >= 1 ==> |w.pages| >= 1 && w.pages[0] == firstPage
                                         && |w.requests| <= |w.pages|)
        && |w.pages| <= (if total < 0 then 0 else total)
    {
      if last != [] && total >= 1 {
        WalkBounded(2, reqHeaders, next, last, responses, ids);
      }
    }

    /** Request `j > 0` goes to the link extracted from `responses[offset + j]`. */
    predicate FollowsLinks(requests: seq<Request>, responses: seq<Response>, offset: int) {
      forall j :: 0 < j < |requests| ==>
        0 <= offset + j < |responses| && extract(responses[offset + j].headers) == Ok(requests[j].url)
    }

    /** One more request in front of requests that follow the links keeps them following the links. */
    lemma FollowsLinksCons(req: Request, rest: seq<Request>, responses: seq<Response>, offset: int, e: string)
      requires FollowsLinks(rest, responses, offset + 1)
      requires rest != [] ==> rest[0].url == e && 0 <= offset + 1 < |responses|
                              && extract(responses[offset + 1].headers) == Ok(e)
      ensures FollowsLinks([req] + rest, responses, offset)
    {
      var all := [req] + rest;
      forall j | 0 < j < |all|
        ensures 0 <= offset + j < |responses| && extract(responses[offset + j].headers) == Ok(all[j].url)
      {
        assert all[j] == rest[j - 1];
        if j >= 2 {
          assert 0 < j - 1 < |rest|;
        }
      }
    }

    /**
     * Each request after the first goes to the link the strategy extracted from the
     * previous response, and a walk that runs to the end leaves the next endpoint at
     * the first page's endpoint.
     */
    lemma {:induction false} WalkFollowsLinks(k: int, reqHeaders: Headers, next: string, last: Headers,
                                              responses: seq<Response>, ids: seq<string>)
      requires 2 <= k
      requires |responses| >= total - 1 && |ids| >= total - 1
      ensures FollowsLinks(Walk(k, reqHeaders, next, last, responses, ids).requests, responses, k - 3)
      ensures var w := Walk(k, reqHeaders, next, last, responses, ids);
        w.ending == Exhausted && k <= total ==> w.nextEndpoint == firstPageEndpoint
      decreases total - k
    {
      if k <= total {
        var resp := responses[k - 2];
        match NextEndpoint(k, total, resp.headers, linkHeader, firstPageEndpoint, extract)
        case Stop =>
        case StrategyFailed(m) =>
        case Moved(e) =>
          var rh := WithTransactionId(reqHeaders, ids[k - 2]);
          WalkFollowsLinks(k + 1, rh, e, resp.headers, responses, ids);
          var w' := Walk(k + 1, rh, e, resp.headers, responses, ids);
          var w := Walk(k, reqHeaders, next, last, responses, ids);
          assert w.requests == [Request(next, reqHeaders)] + w'.requests;
          if |w'.requests| > 0 {
            assert k + 1 <= total;
            assert w'.requests[0].url == e;
          }
          FollowsLinksCons(Request(next, reqHeaders), w'.requests, responses, k - 3, e);
      }
    }

    /**
     * A page other than the last whose response lacks the link header ends the
     * iteration: as written with `RuntimeError`, as intended quietly, in both cases
     * after the pages before it.
     */
    lemma MissingLinkStopsIteration(reqHeaders: Headers, next: string, last: Headers,
                                    responses: seq<Response>, ids: seq<string>)
      requires |responses| >= total - 1 && |ids| >= total - 1
      requires last != [] && total >= 3
      requires !HasHeader(responses[0].headers, linkHeader)
      ensures var w := AllPages(reqHeaders, next, last, responses, ids);
        w.pages == [firstPage] && w.requests == [Request(next, reqHeaders)]
        && GeneratorError(w.ending) == Some(RuntimeError) && IntendedError(w.ending) == None
    {
    }
  }
}
