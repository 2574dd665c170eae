/**
 * The alphabetic heading browse page (VuFind\Controller\AlphabrowseController::homeAction).
 *
 * The configuration values and query parameters are inputs; the search index's
 * `alphabeticBrowse(source, from, page, limit)` is a function value that returns a page of
 * headings or a backend error. The action returns the view it builds, or the error it throws,
 * together with the arguments of every browse call it made, in order.
 */
module Alphabrowse {
  import opened Wrappers
  import opened PhpText

  /** A browse-type key (the index to browse) and its display label. */
  type BrowseType = (string, string)

  /** The browse types offered when the configuration has no AlphaBrowse_Types section. */
  const DefaultTypes: seq<BrowseType> :=
    [("topic", "By Topic"), ("author", "By Author"), ("title", "By Title"), ("lcc", "By Call Number")]

  /** The page size used when AlphaBrowse.page_size is not set. */
  const DefaultPageSize := 20

  /** The parts of the configuration the action reads. `typesSection` is the
      AlphaBrowse_Types section as its key/value pairs (None: no such section);
      `pageSize` is AlphaBrowse.page_size (None: not set). */
  datatype BrowseConfig = BrowseConfig(typesSection: Option<seq<BrowseType>>, pageSize: Option<int>)

  /** The query parameters: `source` and `from` are None when absent (PHP's default false);
      `page` is the integer value of the page parameter, None when absent. */
  datatype BrowseRequest = BrowseRequest(source: Option<string>, from: Option<string>, page: Option<int>)

  /** The part of a browse result the action inspects (Browse.totalCount, Browse.offset,
      Browse.startRow), and the headings it passes through to the view. */
  datatype BrowseResult = BrowseResult(totalCount: int, offset: int, startRow: int, headings: seq<string>)

  /** An exception from the index backend; `missingBrowseIndex` is its `isMissingBrowseIndex()`. */
  datatype BackendError = BackendError(missingBrowseIndex: bool, message: string)

  /** What the action throws: the "browse index missing" exception, or the backend's own. */
  datatype BrowseError = MissingBrowseIndex | Backend(cause: BackendError)

  /** The arguments of one `alphabeticBrowse` call. */
  datatype BrowseCall = BrowseCall(source: string, from: string, page: int, limit: int)

  /** The view model: the types, the echoed parameters, and, when a browse ran, its result
      and the page links that apply. */
  datatype View = View(
    alphaBrowseTypes: seq<BrowseType>,
    from: Option<string>,
    source: Option<string>,
    result: Option<BrowseResult>,
    nextpage: Option<int>,
    prevpage: Option<int>)

  type Browse = (string, string, int, int) -> Result<BrowseResult, BackendError>

  /** PHP truthiness of a query parameter: absent, "" and "0" are false. */
  predicate Truthy(p: Option<string>)
    ensures Truthy(p) <==> p.Some? && p.value != "" && p.value != "0"
  {
    p.Some? && !IsEmpty(p.value)
  }

  /** The page size: the configured one, or 20. */
  function PageSize(config: BrowseConfig): (limit: int)
    ensures config.pageSize.None? ==> limit == DefaultPageSize
    ensures config.pageSize.Some? ==> limit == config.pageSize.value
  {
    config.pageSize.GetOr(DefaultPageSize)
  }

  /** The requested page: the given one, or 0. */
  function RequestedPage(request: BrowseRequest): (page: int)
    ensures request.page.None? ==> page == 0
    ensures request.page.Some? ==> page == request.page.value
  {
    request.page.GetOr(0)
  }

  /** The error the action throws for a backend error. */
  function MapError(e: BackendError): (r: BrowseError)
    ensures r == MissingBrowseIndex <==> e.missingBrowseIndex
    ensures !e.missingBrowseIndex ==> r == Backend(e)
  {
    if e.missingBrowseIndex then MissingBrowseIndex else Backend(e)
  }

  /** `homeAction`. The browse types are the configured section's entries in order (a
      section that is present is never empty to PHP), or the four defaults. A browse runs
      only when `source` is truthy and `from` was given: first at the requested page, and
      once more at the page before it when the first reports no headings. A backend error
      ends the action with the mapped error. Otherwise `nextpage` is the page after the last
      browsed one exactly when the total exceeds the page size, and `prevpage` the page
      before it exactly when offset + startRow exceeds 1. */
  method HomeAction(config: BrowseConfig, request: BrowseRequest, browse: Browse)
    returns (r: Result<View, BrowseError>, calls: seq<BrowseCall>)
    ensures |calls| <= 2
    ensures calls == [] <==> !(Truthy(request.source) && request.from.Some?)
    ensures r.Success? ==> r.value.alphaBrowseTypes == (if config.typesSection.Some? then config.typesSection.value else DefaultTypes)
    ensures r.Success? ==> r.value.from == request.from && r.value.source == request.source
    ensures calls == [] ==> r.Success? && r.value.result.None? && r.value.nextpage.None? && r.value.prevpage.None?
    ensures calls != [] ==>
              calls[0] == BrowseCall(request.source.value, request.from.value, RequestedPage(request), PageSize(config))
    ensures |calls| == 2 <==>
              calls != [] && browse(calls[0].source, calls[0].from, calls[0].page, calls[0].limit).Success? &&
              browse(calls[0].source, calls[0].from, calls[0].page, calls[0].limit).value.totalCount == 0
    ensures |calls| == 2 ==> calls[1] == calls[0].(page := calls[0].page - 1)
    ensures calls != [] ==>
              var last := calls[|calls| - 1];
              var outcome := browse(last.source, last.from, last.page, last.limit);
              match outcome
              case Failure(e) => r == Failure(MapError(e))
              case Success(res) =>
                r.Success? && r.value.result == Some(res) &&
                (r.value.nextpage.Some? <==> res.totalCount > last.limit) &&
                (r.value.nextpage.Some? ==> r.value.nextpage.value == last.page + 1) &&
                (r.value.prevpage.Some? <==> res.offset + res.startRow > 1) &&
                (r.value.prevpage.Some? ==> r.value.prevpage.value == last.page - 1)
  {
    var types: seq<BrowseType>;
    if config.typesSection.Some? {
      var section := config.typesSection.value;
      types := [];
      for i := 0 to |section|
        invariant types == section[..i]
      {
        types := types + [section[i]];
      }
    } else {
      types := DefaultTypes;
    }

    var source := request.source;
    var from := request.from;
    var page := RequestedPage(request);
    var limit := PageSize(config);

    var view := View([], None, None, None, None, None);
    calls := [];

    if Truthy(source) && from.Some? {
      calls := calls + [BrowseCall(source.value, from.value, page, limit)];
      var result := browse(source.value, from.value, page, limit);
      if result.Success? && result.value.totalCount == 0 {
        page := page - 1;
        calls := calls + [BrowseCall(source.value, from.value, page, limit)];
        result := browse(source.value, from.value, page, limit);
      }
      if result.Failure? {
        if result.error.missingBrowseIndex {
          return Failure(MissingBrowseIndex), calls;
        }
        return Failure(Backend(result.error)), calls;
      }
      var res := result.value;
      if res.totalCount > limit {
        view := view.(nextpage := Some(page + 1));
      }
      if res.offset + res.startRow > 1 {
        view := view.(prevpage := Some(page - 1));
      }
      view := view.(result := Some(res));
    }

    view := view.(alphaBrowseTypes := types, from := from, source := source);
    return Success(view), calls;
  }

  /** A client of the contract above: an empty last page is retried one page back, and the
      previous-page link then points one further back. */
  method RetryExample(browse: Browse)
    requires browse("title", "m", 3, 20) == Success(BrowseResult(0, 0, 0, []))
    requires browse("title", "m", 2, 20) == Success(BrowseResult(45, 40, 1, ["Melville"]))
  {
    var request := BrowseRequest(Some("title"), Some("m"), Some(3));
    var r, calls := HomeAction(BrowseConfig(None, None), request, browse);
    assert calls[0] == BrowseCall("title", "m", 3, 20);
    assert |calls| == 2;
    assert r.Success? && r.value.nextpage == Some(3) && r.value.prevpage == Some(1);
  }
}
