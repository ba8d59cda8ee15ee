/** The paging loop that collects table-import events from the Storage
    API. The HTTP exchange is abstracted to a caller-supplied sequence of
    pages: the request at offset `o` is answered with page `o / LIMIT`, and
    every request past the end of the sequence with an empty page. */
module Fetcher {
  import opened Events

  /** Ceiling on the offset the loop will request. */
  const MAX_PAGE: nat := 100000
  /** Page size sent as the `limit` query parameter. */
  const LIMIT: nat := 100
  /** The most requests one collection can issue. */
  const MAX_REQUESTS: nat := MAX_PAGE / LIMIT
  /** The `q` query parameter. */
  const QUERY: string := "event:storage.tableImportDone"

  /** Page number `k` of the listing; empty past the last page. */
  function PageAt(pages: seq<Page>, k: nat): Page
  {
    if k < |pages| then pages[k] else []
  }

  /** The server's answer to a request at `offset`. */
  function Response(pages: seq<Page>, offset: nat): Page
  {
    PageAt(pages, offset / LIMIT)
  }

  /** The pages answered to the given requests, in request order. */
  function Fetched(pages: seq<Page>, requested: seq<nat>): (r: seq<Page>)
    ensures |r| == |requested|
  {
    seq(|requested|, i requires 0 <= i < |requested| => Response(pages, requested[i]))
  }

  /** Number of the first empty page of the listing. */
  function FirstEmpty(pages: seq<Page>): (k: nat)
    ensures k <= |pages|
    ensures PageAt(pages, k) == []
    ensures forall j :: 0 <= j < k ==> pages[j] != []
  {
    if |pages| == 0 || pages[0] == [] then 0 else 1 + FirstEmpty(pages[1..])
  }

  /** The offsets `0, LIMIT, 2 * LIMIT, ...` of the first `n` requests. */
  function Offsets(n: nat): (r: seq<nat>)
    ensures |r| == n
    ensures forall i :: 0 <= i < n ==> r[i] == i * LIMIT
  {
    seq(n, i requires 0 <= i => i * LIMIT)
  }

  /** How many requests one collection issues: up to and including the
      first empty page, but never more than the ceiling allows. */
  function RequestCount(pages: seq<Page>): (n: nat)
    ensures 1 <= n <= MAX_REQUESTS
    ensures n <= FirstEmpty(pages) + 1
    ensures FirstEmpty(pages) < MAX_REQUESTS ==> n == FirstEmpty(pages) + 1
    ensures FirstEmpty(pages) >= MAX_REQUESTS ==> n == MAX_REQUESTS
  {
    if FirstEmpty(pages) < MAX_REQUESTS then FirstEmpty(pages) + 1 else MAX_REQUESTS
  }

  /** Where the loop leaves `params["offset"]`: bumped past the ceiling when
      an empty page ended it, exactly at the ceiling otherwise. */
  function FinalOffset(pages: seq<Page>): (o: nat)
    ensures o >= MAX_PAGE
  {
    if FirstEmpty(pages) < MAX_REQUESTS then MAX_PAGE + LIMIT else MAX_PAGE
  }

  /** The module-level request parameters of the script. The paging loop
      rewrites `offset` in place; `q` and `limit` never change. */
  class Params {
    const q: string := QUERY
    const limit: nat := LIMIT
    var offset: nat

    constructor ()
      ensures offset == 0
    {
      offset := 0;
    }

    /** Collect every page of the listing: one request per iteration while
        the offset is below the ceiling, the page appended to `raw`, the
        offset forced to the ceiling when the page is empty and then bumped
        by `limit`. `requested` lists the offsets of the requests, as the
        status line logged per request shows them. */
    method GrabEvents(pages: seq<Page>) returns (raw: seq<Record>, requested: seq<nat>)
      modifies this
      ensures requested == Offsets(RequestCount(pages))
      ensures raw == Concat(Fetched(pages, requested))
      ensures offset == FinalOffset(pages)
    {
      raw := [];
      requested := [];
      offset := 0;
      while offset < MAX_PAGE
        invariant |requested| <= RequestCount(pages)
        invariant requested == Offsets(|requested|)
        invariant raw == Concat(Fetched(pages, requested))
        invariant offset == if |requested| < RequestCount(pages) then |requested| * LIMIT
                            else FinalOffset(pages)
        decreases MAX_PAGE - offset
      {
        var page := Response(pages, offset);
        ghost var n := |requested|;
        assert offset / LIMIT == n;
        assert Fetched(pages, requested + [offset]) == Fetched(pages, requested) + [page];
        ConcatAppend(Fetched(pages, requested), page);
        requested := requested + [offset];
        raw := raw + page;
        if |page| == 0 {
          offset := MAX_PAGE;
        }
        offset := offset + limit;
      }
    }
  }

  /** Every requested offset is a multiple of the page size below the
      ceiling, and there are at most `MAX_REQUESTS` requests. */
  lemma {:induction false} OffsetsInRange(pages: seq<Page>, i: nat)
    requires i < RequestCount(pages)
    ensures RequestCount(pages) <= MAX_REQUESTS
    ensures Offsets(RequestCount(pages))[i] % LIMIT == 0
    ensures 0 <= Offsets(RequestCount(pages))[i] < MAX_PAGE
  {
    var o := Offsets(RequestCount(pages))[i];
    assert o == i * LIMIT;
  }

  /** Collection stops at the first empty page: every request before the
      last one was answered with a non-empty page, and the last one was
      answered with an empty page exactly when the listing runs out before
      the ceiling. */
  lemma StopsAtFirstEmpty(pages: seq<Page>)
    ensures var answers := Fetched(pages, Offsets(RequestCount(pages)));
      && |answers| >= 1
      && (forall i :: 0 <= i < |answers| - 1 ==> answers[i] != [])
      && (answers[|answers| - 1] == [] <==> FirstEmpty(pages) < MAX_REQUESTS)
  {
    var n := RequestCount(pages);
    var answers := Fetched(pages, Offsets(n));
    forall i | 0 <= i < n
      ensures answers[i] == PageAt(pages, i)
    {
      assert Offsets(n)[i] / LIMIT == i;
    }
  }

  /** The collected records are the first pages of the listing, in order,
      up to the first empty page or the ceiling: nothing dropped, nothing
      reordered. */
  lemma CollectedPrefix(pages: seq<Page>)
    ensures var m := if FirstEmpty(pages) < MAX_REQUESTS then FirstEmpty(pages) else MAX_REQUESTS;
      Concat(Fetched(pages, Offsets(RequestCount(pages)))) == Concat(pages[..m])
  {
    var e := FirstEmpty(pages);
    var n := RequestCount(pages);
    var answers := Fetched(pages, Offsets(n));
    forall i | 0 <= i < n
      ensures answers[i] == PageAt(pages, i)
    {
      assert Offsets(n)[i] / LIMIT == i;
    }
    if e < MAX_REQUESTS {
      assert answers == pages[..e] + [[]];
      ConcatAppend(pages[..e], []);
    } else {
      assert answers == pages[..MAX_REQUESTS];
    }
  }

  /** A record is collected exactly when it is on one of the pages read
      before the first empty page and below the ceiling. */
  lemma CollectedRecords(pages: seq<Page>, x: Record)
    ensures var m := if FirstEmpty(pages) < MAX_REQUESTS then FirstEmpty(pages) else MAX_REQUESTS;
      x in Concat(Fetched(pages, Offsets(RequestCount(pages))))
      <==> exists k :: 0 <= k < m && x in pages[k]
  {
    var m := if FirstEmpty(pages) < MAX_REQUESTS then FirstEmpty(pages) else MAX_REQUESTS;
    CollectedPrefix(pages);
    ConcatMembers(pages[..m], x);
    if exists k :: 0 <= k < m && x in pages[k] {
      var k :| 0 <= k < m && x in pages[k];
      assert x in pages[..m][k];
    }
  }
}
