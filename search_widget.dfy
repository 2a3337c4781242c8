/**
 * The search widget's state and the events that change it: the pop-over is
 * expanded or collapsed, the search bar holds the current results and the
 * highlighted one, and the page reports its viewport size.
 */
module Widget {
  import opened Wrappers
  import opened SearchContext
  import opened Links
  import opened ResultLayout

  const KEY_ENTER: int := 13
  const KEY_ESCAPE: int := 27
  const KEY_UP: int := 38
  const KEY_DOWN: int := 40

  datatype Viewport = Viewport(width: int, height: int)

  /**
   * The highlighted result after a key press in the search bar, given the
   * index of the last result: the arrows move by one and stop at either end;
   * any other key leaves it.
   */
  function NextSelected(selectedIdx: int, lastResultIdx: int, keyCode: int): (r: int)
    ensures 0 <= selectedIdx <= lastResultIdx ==> 0 <= r <= lastResultIdx
    ensures 0 <= selectedIdx ==> 0 <= r
    ensures r < selectedIdx <==> keyCode == KEY_UP && 0 < selectedIdx
    ensures r > selectedIdx <==> keyCode == KEY_DOWN && selectedIdx < lastResultIdx
    ensures r == selectedIdx || r == selectedIdx - 1 || r == selectedIdx + 1
  {
    if keyCode == KEY_UP then
      if selectedIdx > 0 then selectedIdx - 1 else selectedIdx
    else if keyCode == KEY_DOWN then
      if selectedIdx < lastResultIdx then selectedIdx + 1 else selectedIdx
    else selectedIdx
  }

  /** Visibility after a key press anywhere on the page: Escape flips it, other keys leave it. */
  function AfterEscape(expanded: bool, keyCode: int): (r: bool)
    ensures r != expanded <==> keyCode == KEY_ESCAPE
  {
    if keyCode == KEY_ESCAPE then !expanded else expanded
  }

  /** Pressing the same key twice restores the visibility. */
  lemma EscapeTwiceRestores(expanded: bool, keyCode: int)
    ensures AfterEscape(AfterEscape(expanded, keyCode), keyCode) == expanded
  {
  }

  /** A document field as a template literal shows it: a missing one reads "undefined". */
  function Field(item: Item, key: string): string {
    if key in item then item[key] else "undefined"
  }

  /**
   * `gotoSelected`: the link of the highlighted result. There is none when no
   * result is at `selectedIdx` (the source raises a TypeError there).
   */
  function GotoSelected(results: seq<SearchResult>, selectedIdx: int, pathname: string): (r: Option<Link>)
    ensures r.Some? <==> 0 <= selectedIdx < |results|
    ensures r.Some? ==> Resolve(pathname, r.value.href)
                        == "/" + Field(results[selectedIdx].item, "baseUrl") + "#"
                           + Field(results[selectedIdx].item, "hashString")
  {
    if 0 <= selectedIdx < |results| then
      var item := results[selectedIdx].item;
      LinkTargetIndependentOfPage(Field(item, "baseUrl"), Field(item, "hashString"), pathname);
      Some(GetLinkBehavior(Field(item, "baseUrl"), Field(item, "hashString"), pathname))
    else None
  }

  /**
   * Enter on the highlighted result moves the browser only when the result
   * lives on another page; on its own page nothing happens.
   */
  lemma EnterReachesOtherPagesOnly(results: seq<SearchResult>, selectedIdx: int, pathname: string)
    requires 0 <= selectedIdx < |results|
    ensures var item := results[selectedIdx].item;
            Destination(GotoSelected(results, selectedIdx, pathname).value)
            == if pathname == "/" + Field(item, "baseUrl") then None
               else Some("/" + Field(item, "baseUrl") + "#" + Field(item, "hashString"))
  {
    var item := results[selectedIdx].item;
    OnlyOtherPagesReached(Field(item, "baseUrl"), Field(item, "hashString"), pathname);
  }

  class SearchWidget {
    /** The search index's query, `this.index.search`. */
    const search: string -> seq<SearchResult>
    var expanded: bool
    var selectedIdx: int
    var results: seq<SearchResult>
    var viewport: Option<Viewport>

    /** The highlighted result is one of the results, or 0 when there are none. */
    predicate Valid()
      reads this
    {
      0 <= selectedIdx && (selectedIdx < |results| || selectedIdx == 0)
    }

    constructor (search: string -> seq<SearchResult>)
      ensures Valid()
      ensures this.search == search
      ensures !expanded && selectedIdx == 0 && results == [] && viewport == None
    {
      this.search := search;
      expanded := false;
      selectedIdx := 0;
      results := [];
      viewport := None;
    }

    /** `onEscapeKeyDown`: the page-wide key listener. */
    method OnEscapeKeyDown(keyCode: int)
      modifies this`expanded
      ensures expanded == AfterEscape(old(expanded), keyCode)
    {
      if keyCode == KEY_ESCAPE {
        expanded := !expanded;
      }
    }

    /** `setSearchText`: new results for non-empty text, none for empty text; the first is highlighted. */
    method SetSearchText(searchText: string)
      modifies this`results, this`selectedIdx
      ensures Valid()
      ensures results == if |searchText| > 0 then search(searchText) else []
      ensures selectedIdx == 0
    {
      results := if |searchText| > 0 then search(searchText) else [];
      selectedIdx := 0;
    }

    /** The search button flips the visibility. */
    method ToggleExpanded()
      modifies this`expanded
      ensures expanded == !old(expanded)
    {
      expanded := !expanded;
    }

    /** `setExpanded`, handed to the search bar and its results. */
    method SetExpanded(val: bool)
      modifies this`expanded
      ensures expanded == val
    {
      expanded := val;
    }

    /** `onClose`: always collapses. */
    method OnClose()
      modifies this`expanded
      ensures !expanded
    {
      expanded := false;
    }

    /** A click on the page's designated trigger element: always expands. */
    method OnTriggerClick()
      modifies this`expanded
      ensures expanded
    {
      expanded := true;
    }

    /** A click in the pop-over: closes it only when the click is on the backdrop itself. */
    method OnPopupClick(onBackdrop: bool)
      modifies this`expanded
      ensures expanded == (old(expanded) && !onBackdrop)
    {
      if onBackdrop {
        OnClose();
      }
    }

    /** The viewport listener records every new size. */
    method OnResize(size: Viewport)
      modifies this`viewport
      ensures viewport == Some(size)
    {
      viewport := Some(size);
    }

    /**
     * `SearchBar.onKeyDown`: the arrows move the highlight within the
     * results, Enter follows the highlighted result's link, and the highlight
     * stays a valid index.
     */
    method OnKeyDown(keyCode: int, pathname: string) returns (link: Option<Link>)
      requires Valid()
      modifies this`selectedIdx
      ensures Valid()
      ensures selectedIdx == NextSelected(old(selectedIdx), |results| - 1, keyCode)
      ensures link == if keyCode == KEY_ENTER then GotoSelected(results, selectedIdx, pathname) else None
      ensures keyCode == KEY_ENTER && |results| > 0 ==> link.Some?
    {
      link := None;
      var lastResultIdx := |results| - 1;
      if keyCode == KEY_ENTER {
        link := GotoSelected(results, selectedIdx, pathname);
      } else if keyCode == KEY_UP {
        if selectedIdx > 0 {
          selectedIdx := selectedIdx - 1;
        }
      } else if keyCode == KEY_DOWN {
        if selectedIdx < lastResultIdx {
          selectedIdx := selectedIdx + 1;
        }
      }
    }

    /**
     * What the widget shows: the result list while expanded with results, laid
     * out for the current viewport height.
     */
    method Render() returns (list: Option<seq<Slot>>)
      requires expanded && |results| > 0 ==>
                 viewport.Some? && ReadsRenderable(results, viewport.value.height - CHROME_HEIGHT)
      ensures list.Some? <==> expanded && |results| > 0
      ensures list.Some? ==> list.value == Layout(results, selectedIdx, viewport.value.height - CHROME_HEIGHT)
    {
      list := None;
      if expanded && |results| > 0 {
        list := SearchResults(results, selectedIdx, viewport.value.height);
      }
    }
  }
}
