/** The page selector (frontend/src/components/Pagination/Pagination.jsx):
    a window of at most five page buttons around the current page, with
    Prev and Next, and a change handler that ignores the current page. */
module Pagination {
  import opened Js

  const PagesToShow := 5

  /** `Math.max(1, currentPage - Math.floor(pagesToShow / 2))`. */
  function StartPage(currentPage: int): (s: int)
    ensures s >= 1 && s >= currentPage - PagesToShow / 2
    ensures s == 1 || s == currentPage - PagesToShow / 2
  {
    if currentPage - PagesToShow / 2 >= 1 then currentPage - PagesToShow / 2 else 1
  }

  /** `Math.min(totalPages, startPage + pagesToShow - 1)`. */
  function EndPage(currentPage: int, totalPages: int): (e: int)
    ensures e <= totalPages && e <= StartPage(currentPage) + PagesToShow - 1
    ensures e == totalPages || e == StartPage(currentPage) + PagesToShow - 1
  {
    var last := StartPage(currentPage) + PagesToShow - 1;
    if totalPages <= last then totalPages else last
  }

  /** `Array.from({length: endPage - startPage + 1}, (_, i) => startPage + i)`;
      a negative length gives no buttons. */
  function PageNumbers(currentPage: int, totalPages: int): (r: seq<int>)
    ensures |r| <= PagesToShow
    ensures |r| == (if EndPage(currentPage, totalPages) >= StartPage(currentPage)
                    then EndPage(currentPage, totalPages) - StartPage(currentPage) + 1 else 0)
    ensures forall i :: 0 <= i < |r| ==> r[i] == StartPage(currentPage) + i
  {
    var s := StartPage(currentPage);
    var e := EndPage(currentPage, totalPages);
    var n := if e >= s then e - s + 1 else 0;
    seq(n, i requires 0 <= i < n => s + i)
  }

  /** A page button: its number, whether it is marked current, and whether
      it is disabled. */
  datatype PageButton = PageButton(page: int, active: bool, disabled: bool)

  /** What the component renders when it renders anything. */
  datatype View = View(prevDisabled: bool, buttons: seq<PageButton>, nextDisabled: bool)

  /** The component: null when there is at most one page. */
  function Render(currentPage: int, totalPages: int, loading: bool): (v: Option<View>)
    ensures v.None? <==> totalPages <= 1
    ensures v.Some? ==>
      v.value.prevDisabled == (currentPage == 1 || loading)
      && v.value.nextDisabled == (currentPage == totalPages || loading)
      && |v.value.buttons| == |PageNumbers(currentPage, totalPages)|
      && forall i :: 0 <= i < |v.value.buttons| ==>
           v.value.buttons[i] == PageButton(PageNumbers(currentPage, totalPages)[i],
                                            PageNumbers(currentPage, totalPages)[i] == currentPage, loading)
  {
    if totalPages <= 1 then None
    else
      var pages := PageNumbers(currentPage, totalPages);
      Some(View(currentPage == 1 || loading,
                seq(|pages|, i requires 0 <= i < |pages| => PageButton(pages[i], pages[i] == currentPage, loading)),
                currentPage == totalPages || loading))
  }

  /** `handlePageChange(page)`: the page handed to `onPageChange`, or None
      when the page is the current one and no call is made. */
  function HandlePageChange(currentPage: int, page: int): (r: Option<int>)
    ensures r.Some? <==> page != currentPage
    ensures r.Some? ==> r.value == page
  {
    if page != currentPage then Some(page) else None
  }

  /** The buttons are consecutive and ascending, and there are at most five. */
  lemma ButtonsConsecutive(currentPage: int, totalPages: int)
    ensures var pages := PageNumbers(currentPage, totalPages);
      |pages| <= 5
      && (forall i :: 0 <= i < |pages| - 1 ==> pages[i + 1] == pages[i] + 1)
      && (|pages| > 0 ==> pages[0] == StartPage(currentPage) && pages[|pages| - 1] == EndPage(currentPage, totalPages))
  {
  }

  /** For a current page within range, the window holds it, and exactly
      one rendered button is marked current. */
  lemma CurrentPageShown(currentPage: int, totalPages: int, loading: bool)
    requires 1 <= currentPage <= totalPages
    ensures StartPage(currentPage) <= currentPage <= EndPage(currentPage, totalPages)
    ensures currentPage in PageNumbers(currentPage, totalPages)
    ensures totalPages > 1 ==>
      var buttons := Render(currentPage, totalPages, loading).value.buttons;
      exists i :: 0 <= i < |buttons| && buttons[i].active
        && forall j :: 0 <= j < |buttons| && buttons[j].active ==> j == i
  {
    var pages := PageNumbers(currentPage, totalPages);
    var k := currentPage - StartPage(currentPage);
    assert 0 <= k < |pages| && pages[k] == currentPage;
    if totalPages > 1 {
      var buttons := Render(currentPage, totalPages, loading).value.buttons;
      assert buttons[k].active;
    }
  }

  /** A window never runs past the last page or before the first. */
  lemma WindowInRange(currentPage: int, totalPages: int)
    ensures forall p :: p in PageNumbers(currentPage, totalPages) ==> 1 <= p <= totalPages
  {
  }

  /** Prev and Next, when enabled, ask for the neighbouring page. */
  lemma PrevNextRequest(currentPage: int, totalPages: int, loading: bool)
    requires totalPages > 1
    ensures !Render(currentPage, totalPages, loading).value.prevDisabled ==>
      !loading && HandlePageChange(currentPage, currentPage - 1) == Some(currentPage - 1)
    ensures !Render(currentPage, totalPages, loading).value.nextDisabled ==>
      !loading && HandlePageChange(currentPage, currentPage + 1) == Some(currentPage + 1)
  {
  }
}
