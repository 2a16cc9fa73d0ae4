/**
 * Offset pagination of the question listing: page `page` is the Python slice
 * `selection[(page - 1) * 10 : (page - 1) * 10 + 10]`, with Python's rules
 * for slice bounds (negative bounds count from the end, every bound is
 * clamped to the sequence, a window whose end is not after its start is
 * empty).
 */
module Pagination {

  const QuestionsPerPage: int := 10

  function Max(a: int, b: int): int { if a < b then b else a }
  function Min(a: int, b: int): int { if a < b then a else b }

  /** Python's normalisation of one slice bound `i` on a sequence of length `n`. */
  function SliceBound(i: int, n: nat): (b: nat)
    ensures b <= n
    ensures 0 <= i ==> b == Min(i, n)
    ensures i < 0 ==> b == Max(0, n + i)
  {
    if i < 0 then (if n + i < 0 then 0 else n + i)
    else if i > n then n
    else i
  }

  /** `s[i:j]` in Python: the elements from the normalised start up to the normalised end. */
  function PySlice<T>(s: seq<T>, i: int, j: int): (r: seq<T>)
    ensures |r| == Max(0, SliceBound(j, |s|) - SliceBound(i, |s|))
    ensures forall k :: 0 <= k < |r| ==> r[k] == s[SliceBound(i, |s|) + k]
  {
    var lo, hi := SliceBound(i, |s|), SliceBound(j, |s|);
    if lo < hi then s[lo..hi] else []
  }

  /** Index of the first item of a page. */
  function PageStart(page: int): int
  {
    (page - 1) * QuestionsPerPage
  }

  /** `paginate_questions`: the page of `selection` that `page` asks for. */
  function Paginate<T>(selection: seq<T>, page: int): (r: seq<T>)
    ensures |r| <= QuestionsPerPage
    ensures page >= 1 ==>
      r == selection[Min(PageStart(page), |selection|)..Min(PageStart(page) + QuestionsPerPage, |selection|)]
    ensures page == 0 ==> r == []
    ensures page < 0 ==>
      r == selection[Max(0, |selection| + PageStart(page))..Max(0, |selection| + PageStart(page) + QuestionsPerPage)]
  {
    var start := PageStart(page);
    PySlice(selection, start, start + QuestionsPerPage)
  }

  /** A page holds `min(10, remaining)` items: the ones at its offsets in the selection. */
  lemma PageSize<T>(selection: seq<T>, page: int)
    requires page >= 1
    ensures |Paginate(selection, page)| == Max(0, Min(QuestionsPerPage, |selection| - PageStart(page)))
    ensures forall k :: 0 <= k < |Paginate(selection, page)| ==>
              Paginate(selection, page)[k] == selection[PageStart(page) + k]
  {
  }

  /** A page that starts at or past the end is empty, not an error. */
  lemma PagePastEndIsEmpty<T>(selection: seq<T>, page: int)
    requires page >= 1 && PageStart(page) >= |selection|
    ensures Paginate(selection, page) == []
  {
  }

  /** Item `i` of the selection is on page `i / 10 + 1`, at position `i % 10`. */
  lemma ItemOnItsPage<T>(selection: seq<T>, i: nat)
    requires i < |selection|
    ensures i % QuestionsPerPage < |Paginate(selection, i / QuestionsPerPage + 1)|
    ensures Paginate(selection, i / QuestionsPerPage + 1)[i % QuestionsPerPage] == selection[i]
  {
    var page := i / QuestionsPerPage + 1;
    assert PageStart(page) + i % QuestionsPerPage == i;
  }

  /** Pages 1 to `k` laid end to end. */
  function Pages<T>(selection: seq<T>, k: nat): seq<T>
  {
    if k == 0 then [] else Pages(selection, k - 1) + Paginate(selection, k)
  }

  /** Pages 1 to `k` together are the first `10 k` items, in order: no gap, no repetition. */
  lemma {:induction false} PagesArePrefix<T>(selection: seq<T>, k: nat)
    ensures Pages(selection, k) == selection[..Min(k * QuestionsPerPage, |selection|)]
  {
    if k > 0 {
      PagesArePrefix(selection, k - 1);
      var a := Min((k - 1) * QuestionsPerPage, |selection|);
      var b := Min(k * QuestionsPerPage, |selection|);
      assert Paginate(selection, k) == selection[a..b];
      assert selection[..a] + selection[a..b] == selection[..b];
    }
  }

  /** Every item is on one of the first `ceil(n / 10)` pages. */
  lemma PagesCoverSelection<T>(selection: seq<T>)
    ensures Pages(selection, (|selection| + QuestionsPerPage - 1) / QuestionsPerPage) == selection
  {
    var k := (|selection| + QuestionsPerPage - 1) / QuestionsPerPage;
    PagesArePrefix(selection, k);
    assert k * QuestionsPerPage >= |selection|;
  }
}
