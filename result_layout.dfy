/**
 * The result list: results are shown in order while their estimated heights
 * fit the space below the search bar; the first result that does not fit is
 * replaced by a single "more" marker and nothing is shown after it.
 */
module ResultLayout {
  import opened Wrappers
  import opened SearchContext

  /** Vertical space taken by the page around the result list, in pixels. */
  const CHROME_HEIGHT: int := 210
  /** Estimated height of a row with a context snippet. */
  const ROW_WITH_CONTEXT: int := 54
  /** Estimated height of a row showing a title only. */
  const ROW_TITLE_ONLY: int := 37

  /** One slot of the rendered list. */
  datatype Slot =
    | Row(idx: nat, selected: bool, hasContext: bool)  // a rendered result
    | More                                             // the "more results" marker
    | Empty                                            // nothing (`null`)

  /**
   * A result whose context can be computed: it has a first match, and that
   * match is on the title or names a field of the document with a range.
   */
  predicate Renderable(r: SearchResult) {
    |r.matches| > 0 && ContextDefined(r.item, r.matches[0])
  }

  /** The first `n` results can all be rendered. */
  predicate RenderablePrefix(results: seq<SearchResult>, n: nat) {
    n <= |results| && forall i {:trigger Renderable(results[i])} :: 0 <= i < n ==> Renderable(results[i])
  }

  /** Whether the row for `r` carries a snippet: its first match is not on the title. */
  function HasContext(r: SearchResult): bool
    requires Renderable(r)
  {
    r.matches[0].key != "title"
  }

  function RowHeight(r: SearchResult): int
    requires Renderable(r)
  {
    if HasContext(r) then ROW_WITH_CONTEXT else ROW_TITLE_ONLY
  }

  /** Total estimated height of the first `n` results, one row each. */
  function Taken(results: seq<SearchResult>, n: nat): int
    requires RenderablePrefix(results, n)
  {
    if n == 0 then 0 else Taken(results, n - 1) + RowHeight(results[n - 1])
  }

  /** The first `n` results can be rendered and their rows fit in `available`. */
  predicate Fits(results: seq<SearchResult>, n: nat, available: int) {
    RenderablePrefix(results, n) && Taken(results, n) <= available
  }

  /**
   * The results the list reads can be rendered: the first one, and each one
   * after results that all fit. Results after the first one that does not
   * fit are never read and may be anything.
   */
  predicate ReadsRenderable(results: seq<SearchResult>, available: int) {
    forall i {:trigger Renderable(results[i])} ::
      0 <= i < |results| && (i == 0 || Fits(results, i, available)) ==> Renderable(results[i])
  }

  /**
   * Slot `i` of the list, read off the results themselves: a row while the
   * first `i + 1` results fit in `available`, the marker at the first that
   * does not, nothing after it.
   */
  function SlotAt(results: seq<SearchResult>, selectedIdx: int, available: int, i: nat): Slot
    requires i < |results|
  {
    if Fits(results, i + 1, available) then Row(i, i == selectedIdx, HasContext(results[i]))
    else if i == 0 || Fits(results, i, available) then More
    else Empty
  }

  /** The whole list, slot by slot. */
  function Layout(results: seq<SearchResult>, selectedIdx: int, available: int): (slots: seq<Slot>)
    ensures |slots| == |results|
    ensures forall i :: 0 <= i < |results| ==> slots[i] == SlotAt(results, selectedIdx, available, i)
  {
    seq(|results|, i requires 0 <= i < |results| => SlotAt(results, selectedIdx, available, i))
  }

  /** Estimated height of the rows among the first `n` slots of a rendered list. */
  function RowsHeight(slots: seq<Slot>, n: nat): int
    requires n <= |slots|
  {
    if n == 0 then 0
    else RowsHeight(slots, n - 1)
           + match slots[n - 1]
             case Row(_, _, hasContext) => if hasContext then ROW_WITH_CONTEXT else ROW_TITLE_ONLY
             case _ => 0
  }

  /** `SearchResults`: nothing for no results, otherwise one slot per result. */
  method SearchResults(results: seq<SearchResult>, selectedIdx: int, viewportHeight: int)
    returns (slots: Option<seq<Slot>>)
    requires ReadsRenderable(results, viewportHeight - CHROME_HEIGHT)
    ensures slots.None? <==> |results| == 0
    ensures slots.Some? ==> slots.value == Layout(results, selectedIdx, viewportHeight - CHROME_HEIGHT)
  {
    if |results| == 0 {
      return None;
    }
    var availableSpace := viewportHeight - CHROME_HEIGHT;
    var tooLong := false;
    var takenSpace := 0;
    var resultEls: seq<Slot> := [];
    var idx := 0;
    while idx < |results|
      invariant 0 <= idx <= |results|
      invariant |resultEls| == idx
      invariant forall i :: 0 <= i < idx ==> resultEls[i] == SlotAt(results, selectedIdx, availableSpace, i)
      invariant tooLong <==> 0 < idx && !Fits(results, idx, availableSpace)
      invariant !tooLong ==> RenderablePrefix(results, idx) && takenSpace == Taken(results, idx)
    {
      if tooLong {
        SlotAfterOverflow(results, selectedIdx, availableSpace, idx);
        resultEls := resultEls + [Empty];
      } else {
        var result := results[idx];
        assert Renderable(result);
        var context := GetContext(result.item, result.matches[0]);
        assert context.Some? == HasContext(result);
        assert RenderablePrefix(results, idx + 1);
        takenSpace := takenSpace + if context.Some? then ROW_WITH_CONTEXT else ROW_TITLE_ONLY;
        assert takenSpace == Taken(results, idx + 1);
        SlotWhileFitting(results, selectedIdx, availableSpace, idx);
        if takenSpace > availableSpace {
          tooLong := true;
          resultEls := resultEls + [More];
        } else {
          resultEls := resultEls + [Row(idx, idx == selectedIdx, context.Some?)];
        }
      }
      idx := idx + 1;
    }
    return Some(resultEls);
  }

  /** The slot of a result read while the earlier ones fit: a row if it fits too, else the marker. */
  lemma SlotWhileFitting(results: seq<SearchResult>, selectedIdx: int, available: int, i: nat)
    requires RenderablePrefix(results, i + 1) && (i == 0 || Fits(results, i, available))
    ensures SlotAt(results, selectedIdx, available, i)
            == if Taken(results, i + 1) <= available then Row(i, i == selectedIdx, HasContext(results[i])) else More
  {
  }

  /** After the first result that does not fit, every slot is empty. */
  lemma SlotAfterOverflow(results: seq<SearchResult>, selectedIdx: int, available: int, i: nat)
    requires 0 < i < |results| && !Fits(results, i, available)
    ensures SlotAt(results, selectedIdx, available, i) == Empty
  {
    OverflowPersists(results, i, available);
  }

  /** Adding results raises the total height. */
  lemma {:induction false} TakenGrows(results: seq<SearchResult>, i: nat, j: nat)
    requires RenderablePrefix(results, j) && i < j
    ensures Taken(results, i) < Taken(results, j)
  {
    if i < j - 1 {
      TakenGrows(results, i, j - 1);
    }
  }

  /** If some results fit, so does every shorter non-empty prefix of them. */
  lemma FitsShrinks(results: seq<SearchResult>, i: nat, j: nat, available: int)
    requires 0 < i <= j && Fits(results, j, available)
    ensures Fits(results, i, available)
  {
    if i < j {
      TakenGrows(results, i, j);
    }
  }

  /** Once the results stop fitting, one more result does not fit either. */
  lemma OverflowPersists(results: seq<SearchResult>, i: nat, available: int)
    requires !Fits(results, i, available)
    ensures !Fits(results, i + 1, available)
  {
    if RenderablePrefix(results, i + 1) {
      TakenGrows(results, i, i + 1);
    }
  }

  /**
   * How many results are shown as rows among the first `n`: the longest
   * prefix that can be rendered and whose total height fits in `available`.
   */
  function RowCount(results: seq<SearchResult>, available: int, n: nat): (k: nat)
    requires n <= |results|
    ensures k <= n
    ensures k == 0 || Fits(results, k, available)
    ensures k < n ==> !Fits(results, k + 1, available)
  {
    if n == 0 then 0
    else if Fits(results, n, available) then n
    else RowCount(results, available, n - 1)
  }

  /**
   * The rendered list is rows for the results that fit, in order, each
   * selected exactly when it is at `selectedIdx`; then, if some result does
   * not fit, one "more" marker in its place; then nothing.
   */
  lemma LayoutShape(results: seq<SearchResult>, selectedIdx: int, available: int)
    ensures var slots, k := Layout(results, selectedIdx, available), RowCount(results, available, |results|);
            (forall i :: 0 <= i < k ==>
               Renderable(results[i]) && slots[i] == Row(i, i == selectedIdx, HasContext(results[i]))) &&
            (k < |results| ==> slots[k] == More) &&
            (forall i :: k < i < |results| ==> slots[i] == Empty)
  {
    var k := RowCount(results, available, |results|);
    forall i | 1 <= i <= k
      ensures Fits(results, i, available)
    {
      FitsShrinks(results, i, k, available);
    }
    forall i | k < i <= |results|
      ensures !Fits(results, i, available)
    {
      if Fits(results, i, available) {
        FitsShrinks(results, k + 1, i, available);
      }
    }
  }

  /** The rows of the rendered list take the height of the results that fit, never more than is available. */
  lemma RenderedRowsFit(results: seq<SearchResult>, selectedIdx: int, available: int)
    ensures var slots, k := Layout(results, selectedIdx, available), RowCount(results, available, |results|);
            RowsHeight(slots, |slots|) == Taken(results, k) &&
            (0 < k ==> RowsHeight(slots, |slots|) <= available)
  {
    var slots, k := Layout(results, selectedIdx, available), RowCount(results, available, |results|);
    LayoutShape(results, selectedIdx, available);
    forall i | 0 <= i < k
      ensures slots[i].Row? && slots[i].hasContext == HasContext(results[i])
    {
      assert slots[i] == Row(i, i == selectedIdx, HasContext(results[i]));
    }
    forall i | k <= i < |slots|
      ensures !slots[i].Row?
    {
      assert slots[i] == if i == k then More else Empty;
    }
    RowsHeightPrefix(results, slots, k, |slots|);
  }

  /** Over a list that is rows for the first `k` results and no rows after, the rows of a prefix take the height of its results. */
  lemma {:induction false} RowsHeightPrefix(results: seq<SearchResult>, slots: seq<Slot>, k: nat, j: nat)
    requires RenderablePrefix(results, k) && |slots| == |results| && j <= |slots|
    requires forall i :: 0 <= i < k ==> slots[i].Row? && slots[i].hasContext == HasContext(results[i])
    requires forall i :: k <= i < |slots| ==> !slots[i].Row?
    ensures RowsHeight(slots, j) == Taken(results, if j < k then j else k)
  {
    if j > 0 {
      RowsHeightPrefix(results, slots, k, j - 1);
    }
  }

  /**
   * A viewport 400 pixels high leaves 190 for the list: three rows with
   * snippets take 162, a fourth would take 216, so the fourth slot is the
   * marker and the fifth is empty, whatever the fifth result holds.
   */
  lemma FourthRowOverflows(results: seq<SearchResult>)
    requires |results| == 5
    requires forall i :: 0 <= i < 4 ==> Renderable(results[i]) && HasContext(results[i])
    ensures Layout(results, 0, 400 - CHROME_HEIGHT)
            == [Row(0, true, true), Row(1, false, true), Row(2, false, true), More, Empty]
  {
    assert HasContext(results[0]) && HasContext(results[1]) && HasContext(results[2]) && HasContext(results[3]);
    assert Taken(results, 1) == 54;
    assert Taken(results, 2) == 108;
    assert Taken(results, 3) == 162;
    assert Taken(results, 4) == 216;
    if RenderablePrefix(results, 5) {
      TakenGrows(results, 4, 5);
    }
  }
}
