/**
 * The read path of src/lib/requestDetailsDb.js: `getRequestDetails` (a
 * conjunctive filter, newest-first order, LIMIT/OFFSET paging and the
 * pagination summary) over the stored table. Reads never see the buffer.
 */
module QueryEngine {
  import opened Wrappers
  import opened Json
  import opened JsMath
  import opened Table

  const DefaultPage := 1
  const DefaultPageSize := 50

  /**
   * The filter as the caller passes it. Date bounds are already epoch
   * milliseconds; `page` and `pageSize` are 0 when absent (falsy).
   */
  datatype QueryFilter = QueryFilter(
    provider: Option<string>,
    model: Option<string>,
    connectionId: Option<string>,
    status: Option<string>,
    startDate: Option<int>,
    endDate: Option<int>,
    page: int,
    pageSize: int)

  datatype Pagination = Pagination(
    page: int,
    pageSize: int,
    totalItems: int,
    totalPages: int,
    hasNext: bool,
    hasPrev: bool)

  datatype PageResult = PageResult(details: seq<Row>, pagination: Pagination)

  /** The WHERE clause: each present filter must hold, dates as inclusive bounds. */
  predicate Matches(f: QueryFilter, r: Row) {
    && (Present(f.provider) ==> r.provider == f.provider)
    && (Present(f.model) ==> r.model == f.model)
    && (Present(f.connectionId) ==> r.connectionId == f.connectionId)
    && (Present(f.status) ==> r.status == f.status)
    && (f.startDate.Some? ==> r.timestamp >= f.startDate.value)
    && (f.endDate.Some? ==> r.timestamp <= f.endDate.value)
  }

  function MatchingIds(t: Table, f: QueryFilter): set<string> {
    set k | k in t && Matches(f, t[k])
  }

  /** `filter.page || 1` */
  function EffectivePage(f: QueryFilter): int {
    if f.page == 0 then DefaultPage else f.page
  }

  /** `filter.pageSize || 50` */
  function EffectivePageSize(f: QueryFilter): (size: int)
    ensures size != 0
  {
    if f.pageSize == 0 then DefaultPageSize else f.pageSize
  }

  /**
   * The slice `LIMIT pageSize OFFSET (page - 1) * pageSize` takes from `total`
   * ordered rows. SQLite reads a negative OFFSET as 0 and a negative LIMIT as
   * no limit.
   */
  function PageBounds(total: nat, page: int, pageSize: int): (bounds: (nat, nat))
    ensures bounds.0 <= bounds.1 <= total
  {
    var lo: nat := Min(Max((page - 1) * pageSize, 0), total);
    var hi: nat := if pageSize < 0 then total else Min(lo + pageSize, total);
    (lo, hi)
  }

  /** The pagination summary for `total` matches. */
  function PaginationFor(total: nat, page: int, pageSize: int): Pagination
    requires pageSize != 0
  {
    var totalPages := CeilDiv(total, pageSize);
    Pagination(page, pageSize, total, totalPages, page < totalPages, page > 1)
  }

  ghost predicate NewestFirst(rows: seq<Row>) {
    forall i, j :: 0 <= i < j < |rows| ==> rows[i].timestamp >= rows[j].timestamp
  }

  /**
   * `listing` is an ORDER BY timestamp DESC of the rows matching `f`: each
   * matching row exactly once, newest first (ties in any order).
   */
  ghost predicate ListsMatches(listing: seq<Row>, t: Table, f: QueryFilter) {
    && NewestFirst(listing)
    && (forall i :: 0 <= i < |listing| ==> listing[i].id in t && t[listing[i].id] == listing[i])
    && (forall i, j :: 0 <= i < j < |listing| ==> listing[i].id != listing[j].id)
    && Ids(listing) == MatchingIds(t, f)
    && |listing| == |MatchingIds(t, f)|
  }

  /**
   * The rows under `keys`, each once, newest first: the ORDER BY timestamp
   * DESC of a set of rows. Ties come out in whichever order the choice of
   * keys happens to make.
   */
  method ListNewestFirst(t: Table, keys: set<string>) returns (ordered: seq<Row>)
    requires Keyed(t) && keys <= t.Keys
    ensures NewestFirst(ordered)
    ensures forall i :: 0 <= i < |ordered| ==> ordered[i].id in t && t[ordered[i].id] == ordered[i]
    ensures forall i, j :: 0 <= i < j < |ordered| ==> ordered[i].id != ordered[j].id
    ensures Ids(ordered) == keys
    ensures |ordered| == |keys|
  {
    var remaining := keys;
    ordered := [];
    while remaining != {}
      invariant remaining <= keys
      invariant PartialListing(t, keys, remaining, ordered)
      decreases remaining
    {
      var next := PickByTimestamp(t, remaining, true);
      Append(t, keys, remaining, ordered, next);
      ordered := ordered + [t[next]];
      remaining := remaining - {next};
    }
  }

  /** The invariant of ListNewestFirst: the rows of `keys - remaining`, listed newest first, none older than a remaining row. */
  ghost predicate PartialListing(t: Table, keys: set<string>, remaining: set<string>, ordered: seq<Row>)
    requires remaining <= keys <= t.Keys
  {
    && |ordered| + |remaining| == |keys|
    && (forall i :: 0 <= i < |ordered| ==> ordered[i].id in t && t[ordered[i].id] == ordered[i])
    && Ids(ordered) == keys - remaining
    && (forall i, j :: 0 <= i < j < |ordered| ==> ordered[i].id != ordered[j].id)
    && NewestFirst(ordered)
    && (forall i, k :: 0 <= i < |ordered| && k in remaining ==> ordered[i].timestamp >= t[k].timestamp)
  }

  /** One step of ListNewestFirst: appending the newest remaining row keeps the invariant. */
  lemma Append(t: Table, keys: set<string>, remaining: set<string>, ordered: seq<Row>, next: string)
    requires Keyed(t) && remaining <= keys <= t.Keys && next in remaining
    requires PartialListing(t, keys, remaining, ordered)
    requires forall k :: k in remaining ==> t[k].timestamp <= t[next].timestamp
    ensures PartialListing(t, keys, remaining - {next}, ordered + [t[next]])
  {
    var n := |ordered|;
    var ordered' := ordered + [t[next]];
    var remaining' := remaining - {next};
    IdsOfInit(ordered');
    assert ordered'[..n] == ordered;
    assert Ids(ordered') == keys - remaining';
    forall i | 0 <= i < |ordered'| ensures ordered'[i].id in t && t[ordered'[i].id] == ordered'[i] {
      if i < n {
        assert ordered'[i] == ordered[i];
      }
    }
    forall i | 0 <= i < n ensures ordered[i].id != next {
      assert ordered[i].id in Ids(ordered);
    }
    forall i, j | 0 <= i < j < |ordered'| ensures ordered'[i].id != ordered'[j].id {
      assert ordered'[i] == ordered[i];
    }
    forall i, j | 0 <= i < j < |ordered'| ensures ordered'[i].timestamp >= ordered'[j].timestamp {
      assert ordered'[i] == ordered[i];
    }
    forall i, k | 0 <= i < |ordered'| && k in remaining' ensures ordered'[i].timestamp >= t[k].timestamp {
    }
  }

  /**
   * `getRequestDetails(filter)` against the stored table: the requested page
   * of the newest-first listing of all matches, with the count taken over all
   * matches, independent of the page.
   */
  method QueryTable(t: Table, f: QueryFilter) returns (result: PageResult, ghost listing: seq<Row>)
    requires Keyed(t)
    ensures ListsMatches(listing, t, f)
    ensures var b := PageBounds(|listing|, EffectivePage(f), EffectivePageSize(f));
            result.details == listing[b.0..b.1]
    ensures result.pagination == PaginationFor(|MatchingIds(t, f)|, EffectivePage(f), EffectivePageSize(f))
    ensures forall i :: 0 <= i < |result.details| ==>
              && result.details[i].id in t
              && t[result.details[i].id] == result.details[i]
              && Matches(f, result.details[i])
    ensures NewestFirst(result.details)
  {
    var matching := set k | k in t && Matches(f, t[k]);
    var ordered := ListNewestFirst(t, matching);
    listing := ordered;
    var page := EffectivePage(f);
    var pageSize := EffectivePageSize(f);
    var bounds := PageBounds(|ordered|, page, pageSize);
    result := PageResult(ordered[bounds.0..bounds.1], PaginationFor(|ordered|, page, pageSize));
    SliceOfListing(ordered, t, f, bounds.0, bounds.1);
  }

  /** Any slice of a listing holds stored, matching rows, newest first. */
  lemma SliceOfListing(listing: seq<Row>, t: Table, f: QueryFilter, lo: nat, hi: nat)
    requires ListsMatches(listing, t, f) && lo <= hi <= |listing|
    ensures forall i :: 0 <= i < hi - lo ==>
              && listing[lo..hi][i].id in t
              && t[listing[lo..hi][i].id] == listing[lo..hi][i]
              && Matches(f, listing[lo..hi][i])
    ensures NewestFirst(listing[lo..hi])
  {
    var slice := listing[lo..hi];
    forall i | 0 <= i < hi - lo
      ensures slice[i].id in t && t[slice[i].id] == slice[i] && Matches(f, slice[i])
    {
      assert slice[i] == listing[lo + i];
      assert listing[lo + i].id in Ids(listing);
    }
    forall i, j | 0 <= i < j < |slice|
      ensures slice[i].timestamp >= slice[j].timestamp
    {
      assert slice[i] == listing[lo + i] && slice[j] == listing[lo + j];
    }
  }

  /**
   * For a page and page size of at least 1, a page holds
   * min(pageSize, max(0, total - (page - 1) * pageSize)) rows.
   */
  lemma PageLength(total: nat, page: int, pageSize: int)
    requires page >= 1 && pageSize >= 1
    ensures var b := PageBounds(total, page, pageSize);
            b.1 - b.0 == Min(pageSize, Max(0, total - (page - 1) * pageSize))
  {
    MulMonotone(0, page - 1, pageSize);
  }

  /** `hasNext` holds exactly when matches remain after this page; `hasPrev` when the page is past the first. */
  lemma HasNextMeansMoreRows(total: nat, page: int, pageSize: int)
    requires pageSize >= 1
    ensures PaginationFor(total, page, pageSize).hasNext <==> page * pageSize < total
    ensures PaginationFor(total, page, pageSize).hasPrev <==> page >= 2
  {
    var q := CeilDiv(total, pageSize);
    CeilDivIsCeiling(total, pageSize);
    if page < q {
      MulMonotone(page, q - 1, pageSize);
    }
    if page * pageSize < total {
      MulStrictReflect(page, q, pageSize);
    }
  }

  /** A page past the last one is empty. */
  lemma PagePastEndIsEmpty(total: nat, page: int, pageSize: int)
    requires pageSize >= 1 && page > CeilDiv(total, pageSize) && page >= 1
    ensures var b := PageBounds(total, page, pageSize); b.0 == b.1
  {
    var q := CeilDiv(total, pageSize);
    CeilDivIsCeiling(total, pageSize);
    MulMonotone(q, page - 1, pageSize);
  }
}
