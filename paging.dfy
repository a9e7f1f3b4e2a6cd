/** Page arithmetic: the window of a list that one page shows, the number of pages,
    and the labels of the page controls. */
module Paging {

  /** Records per page. */
  const PageSize: nat := 9

  function Min(a: int, b: int): int { if a <= b then a else b }
  function Max(a: int, b: int): int { if a <= b then b else a }

  /** Number of pages for a list of n records: the integer ceiling of n / PageSize,
      computed as (n + PageSize - 1) / PageSize. It is the least c with n <= c * PageSize. */
  function PageCount(n: nat): (c: nat)
    ensures n == 0 <==> c == 0
    ensures n > 0 ==> (c - 1) * PageSize < n <= c * PageSize
  {
    (n + PageSize - 1) / PageSize
  }

  /** The records that page `page` (1-based) shows: those at indices in the half-open
      window [(page - 1) * PageSize, page * PageSize) that exist in `list`, in list order.
      A page past the last one is empty. */
  function PageWindow<T>(list: seq<T>, page: nat): (w: seq<T>)
    requires page >= 1
    ensures |w| == Min(PageSize, Max(0, |list| - (page - 1) * PageSize))
    ensures forall k :: 0 <= k < |w| ==> w[k] == list[(page - 1) * PageSize + k]
    ensures w == [] <==> page > PageCount(|list|)
  {
    var startIndex := page * PageSize - PageSize;
    var endIndex := page * PageSize;
    list[Min(startIndex, |list|)..Min(endIndex, |list|)]
  }

  /** The labels of `count` page controls: 1, 2, ..., count. */
  function Labels(count: nat): (r: seq<nat>)
  {
    seq(count, k requires 0 <= k < count => k + 1)
  }

  /** There is one label per page; the first is 1 and the last is `count`. */
  lemma LabelsRange(count: nat)
    requires count > 0
    ensures |Labels(count)| == count
    ensures Labels(count)[0] == 1 && Labels(count)[count - 1] == count
  {
  }

  /** The labels are strictly increasing from left to right. */
  lemma LabelsAscending(count: nat, i: nat, j: nat)
    requires i < j < count
    ensures Labels(count)[i] < Labels(count)[j]
  {
  }

  /** Pages 1 through `count` of `list`, concatenated in page order. */
  function Pages<T>(list: seq<T>, count: nat): seq<T>
  {
    if count == 0 then [] else Pages(list, count - 1) + PageWindow(list, count)
  }

  /** The first `count` pages, read one after the other, are the first
      min(count * PageSize, |list|) records. */
  lemma {:induction false} PagesArePrefix<T>(list: seq<T>, count: nat)
    ensures Pages(list, count) == list[..Min(count * PageSize, |list|)]
  {
    if count > 0 {
      PagesArePrefix(list, count - 1);
      var lo := Min((count - 1) * PageSize, |list|);
      var hi := Min(count * PageSize, |list|);
      assert PageWindow(list, count) == list[lo..hi];
      assert list[..lo] + list[lo..hi] == list[..hi];
    }
  }

  /** Reading every page from 1 to PageCount(|list|) in order yields the whole list:
      no record is skipped, repeated or reordered by paging. */
  lemma PagesCoverList<T>(list: seq<T>)
    ensures Pages(list, PageCount(|list|)) == list
  {
    PagesArePrefix(list, PageCount(|list|));
  }

  /** Every record lies on exactly one page, the page i / PageSize + 1, which is one
      of the pages the controls offer, at offset i % PageSize within it. */
  lemma PageOfIndex<T>(list: seq<T>, i: nat, q: nat)
    requires i < |list| && q >= 1
    ensures var p := i / PageSize + 1;
      1 <= p <= PageCount(|list|) &&
      i - (p - 1) * PageSize < |PageWindow(list, p)| &&
      PageWindow(list, p)[i - (p - 1) * PageSize] == list[i]
    ensures (q - 1) * PageSize <= i < q * PageSize <==> q == i / PageSize + 1
  {
  }
}
