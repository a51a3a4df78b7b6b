/** Spring Data paging as the repositories use it: `offset`/`limit` on an
    ordered result, and the `PageImpl` constructor that may adjust the total. */
module Paging {

  /** The page-size cap the argument resolver enforces. */
  const MaxPageSize: nat := 100

  /** `PageRequest.of(page, size)`; `size` is at least 1 and capped at 100. */
  datatype PageRequest = PageRequest(page: nat, size: nat) {
    predicate Valid() { 1 <= size <= MaxPageSize }
    function Offset(): nat { page * size }
  }

  /** The fallback used when a request carries no paging parameters. */
  const DefaultRequest := PageRequest(0, 10)

  datatype Page<T> = Page(content: seq<T>, total: nat)

  function Min(a: int, b: int): int { if a <= b then a else b }

  /** SQL `offset o limit n` applied to an ordered result. */
  function Slice<T>(xs: seq<T>, offset: nat, limit: nat): (r: seq<T>)
    ensures |r| <= limit
    ensures offset >= |xs| ==> r == []
    ensures offset < |xs| ==> |r| == Min(limit, |xs| - offset)
    ensures forall i :: 0 <= i < |r| ==> offset + i < |xs| && r[i] == xs[offset + i]
  {
    xs[Min(offset, |xs|)..Min(offset + limit, |xs|)]
  }

  /** `new PageImpl<>(content, pageable, total)`: on a non-empty page whose end
      lies past `total`, the total is recomputed as offset + page length. */
  function PageOf<T>(content: seq<T>, req: PageRequest, total: nat): (p: Page<T>)
    ensures p.content == content
    ensures content == [] ==> p.total == total
    ensures req.Offset() + req.size <= total ==> p.total == total
    ensures content != [] && req.Offset() + req.size > total ==> p.total == req.Offset() + |content|
  {
    if |content| > 0 && req.Offset() + req.size > total then
      Page(content, req.Offset() + |content|)
    else
      Page(content, total)
  }

  /** `Page.empty(pageable)` and `new PageImpl<>(List.of(), pageable, 0)`. */
  function EmptyPage<T>(): (p: Page<T>)
    ensures p.content == [] && p.total == 0
  {
    Page([], 0)
  }

  /** When the page is a slice of the very result that was counted, the
      constructor's adjustment never changes the reported total. */
  lemma {:induction false} PageOfSliceKeepsTotal<T>(xs: seq<T>, req: PageRequest)
    ensures PageOf(Slice(xs, req.Offset(), req.size), req, |xs|).total == |xs|
  {
    var c := Slice(xs, req.Offset(), req.size);
    if |c| > 0 && req.Offset() + req.size > |xs| {
      assert req.Offset() < |xs|;
      assert |c| == |xs| - req.Offset();
    }
  }

  /** Consecutive slices of one ordered result are adjacent blocks of it, so
      walking the pages visits every row once and in order. */
  lemma {:induction false} SlicesAreAdjacent<T>(xs: seq<T>, offset: nat, n: nat, m: nat)
    ensures Slice(xs, offset, n) + Slice(xs, offset + n, m) == Slice(xs, offset, n + m)
  {
    var a, b, c := Min(offset, |xs|), Min(offset + n, |xs|), Min(offset + n + m, |xs|);
    assert Min(offset + n, |xs|) == b;
    assert xs[a..b] + xs[b..c] == xs[a..c];
  }

  /** The page a Spring Data query method with a count query returns: on a
      first page that is not full the count query is skipped and the total
      is the page length; on a later, short, non-empty page the total is
      offset + page length; otherwise the count is used. */
  function QueryPage<T>(content: seq<T>, req: PageRequest, count: nat): (p: Page<T>)
    ensures p.content == content
    ensures req.Offset() == 0 && |content| < req.size ==> p.total == |content|
    ensures req.Offset() > 0 && content != [] && |content| < req.size ==> p.total == req.Offset() + |content|
    ensures req.Offset() > 0 && content == [] ==> p == PageOf(content, req, count)
    ensures |content| == req.size ==> p == PageOf(content, req, count)
  {
    if req.Offset() == 0 && req.size > |content| then PageOf(content, req, |content|)
    else if req.Offset() > 0 && |content| != 0 && req.size > |content| then
      PageOf(content, req, req.Offset() + |content|)
    else PageOf(content, req, count)
  }

  /** When the content query and the count query see the same rows, the
      shortcuts agree with the count: the total is the number of rows. */
  lemma {:induction false} QueryPageOfSlice<T>(xs: seq<T>, req: PageRequest)
    ensures QueryPage(Slice(xs, req.Offset(), req.size), req, |xs|).total == |xs|
  {
    var c := Slice(xs, req.Offset(), req.size);
    if req.Offset() == 0 && req.size > |c| {
      assert |c| == |xs|;
    } else if req.Offset() > 0 && |c| != 0 && req.size > |c| {
      assert req.Offset() + |c| == |xs|;
    } else {
      PageOfSliceKeepsTotal(xs, req);
    }
  }
}
