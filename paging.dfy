/** getUserCheckinsByPage: bad paging input is corrected, never refused. */
module Paging {
  import opened Entities

  const MaxPageSize: int := 100

  /** pageNum = Math.max(pageNum, 1). */
  function ClampPageNum(p: int): (r: int)
    ensures r >= 1
    ensures p >= 1 ==> r == p
    ensures p < 1 ==> r == 1
  {
    if p < 1 then 1 else p
  }

  /** pageSize = Math.max(1, Math.min(pageSize, 100)). */
  function ClampPageSize(s: int): (r: int)
    ensures 1 <= r <= MaxPageSize
    ensures 1 <= s <= MaxPageSize ==> r == s
    ensures s < 1 ==> r == 1
    ensures s > MaxPageSize ==> r == MaxPageSize
  {
    var upper := if s < MaxPageSize then s else MaxPageSize;
    if 1 < upper then upper else 1
  }

  /** Correcting twice changes nothing more than correcting once. */
  lemma ClampIdempotent(p: int, s: int)
    ensures ClampPageNum(ClampPageNum(p)) == ClampPageNum(p)
    ensures ClampPageSize(ClampPageSize(s)) == ClampPageSize(s)
  {
  }

  /**
   * The rows of a page that starts after `offset` rows: at most `size` of them, taken
   * in order from position `offset`, and none past the end.
   */
  function PageRows(rows: seq<CheckinRecord>, offset: nat, size: int): (t: seq<CheckinRecord>)
    requires size >= 1
    ensures |t| <= size
    ensures offset >= |rows| ==> t == []
    ensures offset < |rows| ==>
      && |t| == (if offset + size < |rows| then size else |rows| - offset)
      && forall k :: 0 <= k < |t| ==> t[k] == rows[offset + k]
  {
    if offset >= |rows| then []
    else if offset + size < |rows| then rows[offset..offset + size]
    else rows[offset..]
  }

  lemma ProductNonNegative(a: int, b: int)
    requires a >= 0 && b >= 0
    ensures a * b >= 0
  {
  }

  /** Page `current` of `rows` at `size` rows per page: the rows after (current - 1) * size. */
  function PageOf(rows: seq<CheckinRecord>, current: int, size: int): (pg: PageResult)
    requires current >= 1 && size >= 1
    ensures pg.current == current && pg.size == size && pg.total == |rows|
    ensures (current - 1) * size >= 0 && pg.records == PageRows(rows, (current - 1) * size, size)
  {
    ProductNonNegative(current - 1, size);
    PageResult(current, size, |rows|, PageRows(rows, (current - 1) * size, size))
  }
}
