/**
  The pagination step of the dashboard's derived list: a window of four
  movies per page, cut with `Array.prototype.slice`, and the page count.
*/
module Paging {

  /** `itemsPerPage`. */
  const PageSize: nat := 4

  function Min(a: int, b: int): (r: int)
    ensures r <= a && r <= b && (r == a || r == b)
  {
    if a <= b then a else b
  }

  /** How `slice` turns an argument into a position in a sequence of length
      `len`: a negative one counts back from the end; both are clamped. */
  function ClampIndex(i: int, len: nat): (r: nat)
    ensures r <= len
    ensures 0 <= i ==> r == Min(i, len)
    ensures i < 0 ==> r == if len + i < 0 then 0 else len + i
  {
    if i < 0 then (if len + i < 0 then 0 else len + i)
    else if i > len then len
    else i
  }

  /** `s.slice(start, end)`. */
  function Slice<T>(s: seq<T>, start: int, end: int): (r: seq<T>)
    ensures |r| <= |s|
    ensures 0 <= start <= end ==> r == s[Min(start, |s|)..Min(end, |s|)]
  {
    var from := ClampIndex(start, |s|);
    var to := ClampIndex(end, |s|);
    if from < to then s[from..to] else []
  }

  /** `Math.ceil(n / itemsPerPage)`: the least number of pages holding `n` items. */
  function TotalPages(n: nat): (r: nat)
    ensures PageSize * r >= n
    ensures PageSize * r < n + PageSize
  {
    (n + PageSize - 1) / PageSize
  }

  /** `currentMovies`: the slice from `(page - 1) * 4` to `page * 4`. For
      every page from 1 on it is the plain window of at most four items,
      and it is empty exactly past the last page (a page number left over
      from a longer list shows nothing). */
  function PageWindow<T>(s: seq<T>, page: int): (r: seq<T>)
    ensures 1 <= page ==> |r| <= PageSize
    ensures 1 <= page ==> (r == [] <==> page > TotalPages(|s|))
    ensures 1 <= page <= TotalPages(|s|) ==>
      r == s[(page - 1) * PageSize..Min(page * PageSize, |s|)]
  {
    var indexOfLastItem := page * PageSize;
    var indexOfFirstItem := indexOfLastItem - PageSize;
    Slice(s, indexOfFirstItem, indexOfLastItem)
  }

  /** Pages 1 to `k` laid end to end. */
  function ConcatPages<T>(s: seq<T>, k: nat): (r: seq<T>)
  {
    if k == 0 then [] else ConcatPages(s, k - 1) + PageWindow(s, k)
  }

  /** The first `k` pages are the first `4k` items (or all of them). */
  lemma {:induction false} ConcatPagesPrefix<T>(s: seq<T>, k: nat)
    requires k <= TotalPages(|s|)
    ensures ConcatPages(s, k) == s[..Min(k * PageSize, |s|)]
  {
    if k > 0 {
      ConcatPagesPrefix(s, k - 1);
      var a := (k - 1) * PageSize;
      assert a < |s|;
      assert Min(a, |s|) == a;
      assert s[..a] + s[a..Min(k * PageSize, |s|)] == s[..Min(k * PageSize, |s|)];
    }
  }

  /** Pages 1 to `TotalPages` partition the list: together they give it back
      in order, and none of them is empty. */
  lemma PagesPartition<T>(s: seq<T>)
    ensures ConcatPages(s, TotalPages(|s|)) == s
    ensures forall p | 1 <= p <= TotalPages(|s|) :: PageWindow(s, p) != []
  {
    ConcatPagesPrefix(s, TotalPages(|s|));
    assert s[..|s|] == s;
  }

  /** Item `i` is shown on page `i / 4 + 1`, in slot `i % 4`. */
  lemma PageOfItem<T>(s: seq<T>, i: nat)
    requires i < |s|
    ensures 1 <= i / PageSize + 1 <= TotalPages(|s|)
    ensures i % PageSize < |PageWindow(s, i / PageSize + 1)|
    ensures PageWindow(s, i / PageSize + 1)[i % PageSize] == s[i]
  {
    var p := i / PageSize + 1;
    assert (p - 1) * PageSize + i % PageSize == i;
  }
}
