/**
 * The mail-history view of EmailHistory.jsx as a state machine: page and
 * filter state, the query sent to the history endpoint, the response and
 * error handling of one fetch, and which campaign row is expanded.
 */
module History {
  import opened Wrappers

  /** Records requested per page. */
  const Limit := 10

  /** One campaign record as the history endpoint returns it. */
  datatype Campaign = Campaign(id: string, subject: string, status: string, recipientCount: int)

  /** The component's state; `openId` is the id of the expanded row, if any. */
  datatype HistoryState = HistoryState(
    records: seq<Campaign>,
    page: int,
    totalPages: int,
    status: string,
    search: string,
    loading: bool,
    error: Option<string>,
    openId: Option<string>)

  /** The page number lies within the pages the server reported. */
  predicate PageInRange(st: HistoryState)
  {
    1 <= st.page <= st.totalPages
  }

  // ------------------------------------------------------------ pagination

  /** `Math.max(1, p - 1)`. */
  function PrevPage(p: int): (q: int)
    ensures q >= 1
    ensures p > 1 ==> q == p - 1
    ensures p <= 1 ==> q == 1
  {
    if p - 1 > 1 then p - 1 else 1
  }

  /** `Math.min(totalPages, p + 1)`. */
  function NextPage(p: int, total: int): (q: int)
    ensures q <= total
    ensures p < total ==> q == p + 1
    ensures p >= total ==> q == total
  {
    if p + 1 < total then p + 1 else total
  }

  predicate PrevDisabled(st: HistoryState)
  {
    st.page == 1
  }

  predicate NextDisabled(st: HistoryState)
  {
    st.page == st.totalPages
  }

  /** The pager is rendered only when there is more than one page. */
  predicate PagerShown(st: HistoryState)
  {
    st.totalPages > 1
  }

  function Prev(st: HistoryState): HistoryState
  {
    st.(page := PrevPage(st.page))
  }

  function Next(st: HistoryState): HistoryState
  {
    st.(page := NextPage(st.page, st.totalPages))
  }

  /**
   * Prev and Next keep the page within 1..totalPages, move it by exactly one
   * when their button is enabled, and change nothing else; at the bound the
   * button is disabled and a click would leave the page where it is.
   */
  lemma PagingKeepsRange(st: HistoryState)
    requires PageInRange(st)
    ensures PageInRange(Prev(st)) && PageInRange(Next(st))
    ensures PrevDisabled(st) <==> Prev(st).page == st.page
    ensures NextDisabled(st) <==> Next(st).page == st.page
    ensures !PrevDisabled(st) ==> Prev(st).page == st.page - 1
    ensures !NextDisabled(st) ==> Next(st).page == st.page + 1
    ensures Prev(st).(page := st.page) == st && Next(st).(page := st.page) == st
  {
  }

  /**
   * The page is not clamped when a response shrinks totalPages, so while the
   * pager is shown, Next on a page beyond the last one is enabled and moves
   * backwards, to the last page.
   */
  lemma NextAfterShrink(st: HistoryState)
    requires PagerShown(st) && st.page > st.totalPages
    ensures Next(st).page == st.totalPages < st.page
    ensures !NextDisabled(st)
  {
  }

  // --------------------------------------------------------------- filters

  /** The status `<select>` changed: store it and return to page 1. */
  function SetStatusFilter(st: HistoryState, v: string): HistoryState
  {
    st.(status := v, page := 1)
  }

  /** The search box changed: store it and return to page 1. */
  function SetSearch(st: HistoryState, v: string): HistoryState
  {
    st.(search := v, page := 1)
  }

  /**
   * Any filter change lands on page 1 whatever page was shown, which is in
   * range as soon as the server reported at least one page; only the edited
   * filter and the page change.
   */
  lemma FilterChangeResetsPage(st: HistoryState, v: string)
    ensures SetStatusFilter(st, v).page == 1 && SetSearch(st, v).page == 1
    ensures st.totalPages >= 1 ==> PageInRange(SetStatusFilter(st, v)) && PageInRange(SetSearch(st, v))
    ensures SetStatusFilter(st, v).status == v && SetStatusFilter(st, v).(status := st.status, page := st.page) == st
    ensures SetSearch(st, v).search == v && SetSearch(st, v).(search := st.search, page := st.page) == st
  {
  }

  // ----------------------------------------------------------------- query

  /** A query parameter value: a number or a string. */
  datatype ParamValue = IntParam(i: int) | StrParam(s: string)

  type Params = seq<(string, ParamValue)>

  /** The value of the first parameter named `key`. */
  function Lookup(q: Params, key: string): Option<ParamValue>
  {
    if |q| == 0 then None
    else if q[0].0 == key then Some(q[0].1)
    else Lookup(q[1..], key)
  }

  lemma {:induction false} LookupAppend(a: Params, b: Params, key: string)
    ensures Lookup(a + b, key) == if Lookup(a, key).Some? then Lookup(a, key) else Lookup(b, key)
    decreases |a|
  {
    if |a| == 0 {
      assert a + b == b;
    } else {
      assert (a + b)[1..] == a[1..] + b;
      LookupAppend(a[1..], b, key);
    }
  }

  /** The `params` object: page and limit always; status and search only when non-empty. */
  function QueryParams(page: int, status: string, search: string): (q: Params)
    ensures Lookup(q, "page") == Some(IntParam(page))
    ensures Lookup(q, "limit") == Some(IntParam(Limit))
    ensures Lookup(q, "status") == if status == "" then None else Some(StrParam(status))
    ensures Lookup(q, "search") == if search == "" then None else Some(StrParam(search))
    ensures forall i :: 0 <= i < |q| ==> q[i].0 in {"page", "limit", "status", "search"}
    ensures |q| == 2 + (if status == "" then 0 else 1) + (if search == "" then 0 else 1)
  {
    var fixed: Params := [("page", IntParam(page)), ("limit", IntParam(Limit))];
    var byStatus: Params := if status != "" then [("status", StrParam(status))] else [];
    var bySearch: Params := if search != "" then [("search", StrParam(search))] else [];
    assert fixed[1..] == [("limit", IntParam(Limit))] && fixed[1..][1..] == [];
    assert |"page"| == 4 && |"limit"| == 5 && |"status"| == 6 && |"search"| == 6;
    assert "status" != "search" by { assert "status"[1] != "search"[1]; }
    assert "page" != "status" && "page" != "search" by { assert "page"[0] != "status"[0] && "page"[0] != "search"[0]; }
    assert "limit" != "status" && "limit" != "search" by { assert "limit"[0] != "status"[0] && "limit"[0] != "search"[0]; }
    assert Lookup(fixed[1..][1..], "status") == None && Lookup(fixed[1..][1..], "search") == None;
    assert Lookup(fixed[1..], "status") == None && Lookup(fixed[1..], "search") == None;
    assert Lookup(fixed, "status") == None && Lookup(fixed, "search") == None;
    assert byStatus == [] || byStatus[1..] == [];
    assert bySearch == [] || bySearch[1..] == [];
    assert Lookup(byStatus, "search") == None && Lookup(bySearch, "status") == None;
    LookupAppend(fixed, byStatus, "status");
    LookupAppend(fixed + byStatus, bySearch, "status");
    LookupAppend(fixed, byStatus, "search");
    LookupAppend(fixed + byStatus, bySearch, "search");
    LookupAppend(fixed, byStatus, "page");
    LookupAppend(fixed + byStatus, bySearch, "page");
    LookupAppend(fixed, byStatus, "limit");
    LookupAppend(fixed + byStatus, bySearch, "limit");
    fixed + byStatus + bySearch
  }

  /** The query of the fetch a state triggers. */
  function Query(st: HistoryState): Params
  {
    QueryParams(st.page, st.status, st.search)
  }

  // --------------------------------------------------------------- fetching

  /** The part of a history response the view uses; `totalPages` is None when absent. */
  datatype HistoryResponse = HistoryResponse(data: seq<Campaign>, totalPages: Option<int>)

  /** How a request failed: aborted, or with an optional server `error` field and a message. */
  datatype FetchError = Cancelled | RequestFailed(serverError: Option<string>, message: string)

  /** `data.pagination?.totalPages || 1`: absent or zero falls back to 1. */
  function TotalPagesFrom(reported: Option<int>): (t: int)
    ensures reported == None || reported == Some(0) ==> t == 1
    ensures reported.Some? && reported.value != 0 ==> t == reported.value
    ensures (reported.None? || reported.value >= 0) ==> t >= 1
  {
    match reported
    case None => 1
    case Some(n) => if n != 0 then n else 1
  }

  predicate StartsWith(s: string, prefix: string)
  {
    |prefix| <= |s| && s[..|prefix|] == prefix
  }

  const NetworkError := "Network / CORS error"

  /**
   * The message the catch block stores, or None when it returns early on a
   * cancellation. An empty server `error` is falsy and falls through.
   */
  function ErrorMessage(err: FetchError): (m: Option<string>)
    ensures m.None? <==> err.Cancelled?
    ensures err.RequestFailed? && err.serverError.Some? && err.serverError.value != "" ==>
      m == Some(err.serverError.value)
    ensures err.RequestFailed? && (err.serverError.None? || err.serverError.value == "") ==>
      m == Some(if StartsWith(err.message, "Network") then NetworkError else err.message)
  {
    match err
    case Cancelled => None
    case RequestFailed(server, msg) =>
      if server.Some? && server.value != "" then Some(server.value)
      else if StartsWith(msg, "Network") then Some(NetworkError)
      else Some(msg)
  }

  /** Entering `fetchData`: loading on, error cleared. */
  function FetchStart(st: HistoryState): HistoryState
  {
    st.(loading := true, error := None)
  }

  /** The `try` succeeded; `finally` clears loading. */
  function FetchSucceeded(st: HistoryState, resp: HistoryResponse): HistoryState
  {
    st.(records := resp.data, totalPages := TotalPagesFrom(resp.totalPages), loading := false)
  }

  /** The `catch` ran; `finally` clears loading. */
  function FetchFailed(st: HistoryState, err: FetchError): HistoryState
  {
    match ErrorMessage(err)
    case None => st.(loading := false)
    case Some(m) => st.(error := Some(m), loading := false)
  }

  /**
   * One fetch round: loading ends false on every path; a success shows the
   * returned records with no error; a cancellation leaves the error cleared;
   * any other failure shows the chosen message and keeps the old records.
   * Page and filters are never touched by a fetch.
   */
  lemma FetchRound(st: HistoryState, resp: HistoryResponse, err: FetchError)
    ensures !FetchSucceeded(FetchStart(st), resp).loading && !FetchFailed(FetchStart(st), err).loading
    ensures FetchSucceeded(FetchStart(st), resp).error == None
    ensures FetchSucceeded(FetchStart(st), resp).records == resp.data
    ensures FetchSucceeded(FetchStart(st), resp).totalPages == TotalPagesFrom(resp.totalPages)
    ensures FetchFailed(FetchStart(st), err).error == ErrorMessage(err)
    ensures FetchFailed(FetchStart(st), err).records == st.records
    ensures Query(FetchSucceeded(FetchStart(st), resp)) == Query(st)
    ensures Query(FetchFailed(FetchStart(st), err)) == Query(st)
  {
  }

  // -------------------------------------------------------------- expansion

  predicate IsExpanded(openId: Option<string>, id: string)
  {
    openId == Some(id)
  }

  /** The View/Hide button of row `id`. */
  function Toggle(openId: Option<string>, id: string): (r: Option<string>)
    ensures IsExpanded(r, id) <==> !IsExpanded(openId, id)
    ensures forall other :: other != id ==> !IsExpanded(r, other)
  {
    if openId == Some(id) then None else Some(id)
  }

  /** Records whose ids are pairwise distinct. */
  predicate DistinctIds(records: seq<Campaign>)
  {
    forall i, j :: 0 <= i < j < |records| ==> records[i].id != records[j].id
  }

  /** With distinct ids, at most one row of the table is expanded. */
  lemma AtMostOneExpanded(records: seq<Campaign>, openId: Option<string>, i: nat, j: nat)
    requires DistinctIds(records)
    requires i < |records| && j < |records|
    requires IsExpanded(openId, records[i].id) && IsExpanded(openId, records[j].id)
    ensures i == j
  {
  }
}
