# Site search widget and tree annotation, modelled in Dafny

This project models the core of a documentation site's search widget. It also models the
step that prepares the documentation's compilation tree for display.

The search widget is a pop-over with a text box. Typing runs a full-text query against a
search index. Each hit comes with the ranges of text it matched in each field. For every
result whose first match is not on the title, the widget shows a short snippet of about
80 characters around the widest matched range. It lists results while their estimated
heights fit the window, and replaces the first result that does not fit with a "more"
marker. The arrow keys move the highlight, Enter acts on the highlighted result's link,
and Escape shows or hides the pop-over. A result's link is an in-page anchor when the
result lives on the page being shown, and a page URL with an anchor otherwise. Only the
second kind actually moves the browser. The in-page link's handler cancels the anchor's
own navigation and then fails before scrolling, so following it does nothing.

The tree step stamps every child node with its index among its siblings. It also gives
every node the chain of nodes from the root down to its parent.

Modules:

- `JsString`: JavaScript's `String.prototype.slice`, as ECMA-262 section 22.1.3.22
  defines it. Negative positions count from the end, and positions are clamped to the
  string. `RunAt(s, lo, x)` says that `x` occurs in `s` at offset `lo`.
- `SearchContext`: `getBestIndex` and `getContext`, the widest range and the snippet
  around it.
- `Links`: `getLinkBehavior`.
- `ResultLayout`: the `SearchResults` loop that fills the list, proved against a
  slot-by-slot specification `Layout`.
- `Widget`: the `SearchBar` key handling, and a `SearchWidget` class holding the
  widget's state (`expanded`, `selectedIdx`, `results`, `viewport`) with one method per
  state change.
- `Hierarchy`: `orderChildren` and `addAnscestors` on a tree datatype.

Where the code and its documentation disagree, the model follows the code:

- The text after the match is at most 79 characters, not 80.
- Before a match near the start of a long field, no text at all is kept. This is because
  `slice` reads the negative position `start - 80` from the end of the field.
- Following an in-page result, by click or by Enter, neither scrolls nor collapses the
  pop-over.
- A match entry with no ranges is not handled by the code, so the model requires at
  least one range.

## Model

| member | source | states |
|---|---|---|
| JsString.Slice | src/js/_site-search/search-widget.js:45-47 | `s.slice(a, b)` is the run of `s` at the resolved start. Its length is the distance between the resolved positions, or 0 when the start is not before the end. |
| JsString.SliceFrom | src/js/_site-search/search-widget.js:52 | `s.slice(a)` is a tail of `s`: it holds everything from the resolved start to the end. |
| SearchContext.BestIndexPos | src/js/_site-search/search-widget.js:30-33 | The chosen range is at least as wide as every range, and strictly wider than every range before it. The first widest range wins, as with `maxBy`. |
| SearchContext.MatchText | src/js/_site-search/search-widget.js:45 | For a range inside the field, the matched text is that inclusive range of the field: width + 1 characters at its start. |
| SearchContext.Before | src/js/_site-search/search-widget.js:46 | The text before the match is at most 80 characters. For a start inside the field, it is a run of the field that ends exactly at the start. |
| SearchContext.BeforeLength | src/js/_site-search/search-widget.js:46 | At least 80 characters before the match: exactly 80 are kept. When the field length plus `start` is at most 80: everything before the match. A field of at least 80 characters with the match in its first 80: nothing. Otherwise: 80 minus the field length, fewer than precede the match. |
| SearchContext.After | src/js/_site-search/search-widget.js:47 | The text after the match is under 80 characters, and is a run of the field that starts right after the match. |
| SearchContext.AfterLength | src/js/_site-search/search-widget.js:47 | 79 characters when the field goes on that long, otherwise the rest of the field. |
| SearchContext.Abridge | src/js/_site-search/search-widget.js:49-54 | Trimming keeps a tail of `before` and a head of `after`. A snippet within 80 characters is untouched. A longer snippet with a match of at most 80 characters is cut to at most 80. With a longer match, `before` is dropped and the snippet stays over 80. |
| SearchContext.AbridgeKeptLengths | src/js/_site-search/search-widget.js:51-53 | With a padding `p >= 0`, after `(80 - match) / 2` rounded down: `after` keeps `min(p, length)` characters. `before` keeps `p`, or `p - length` when `p` exceeds its length (at most twice), or all of it. |
| SearchContext.AbridgeNegativePadding | src/js/_site-search/search-widget.js:51-53 | With a match longer than 80, `before` is emptied and `after` loses its last `-p` characters. |
| SearchContext.Window | src/js/_site-search/search-widget.js:44-60 | The snippet's before part is at most 80 and its after part under 80. With a match of at most 80, the whole snippet is at most 80. |
| SearchContext.GetContext | src/js/_site-search/search-widget.js:35-61 | There is no snippet exactly when the match is on the title. Otherwise the snippet obeys the bounds of `Window`. |
| SearchContext.ContextIsContiguous | src/js/_site-search/search-widget.js:45-60 | For a range inside the field, the snippet's match is that range. Before + match + after occurs in the field as one unbroken run. |
| SearchContext.WindowBeforeIsRun | src/js/_site-search/search-widget.js:46-52 | The kept text before the match is a run of the field that ends where the match starts. |
| SearchContext.KeptBeforeIsRun | src/js/_site-search/search-widget.js:46-52 | Whatever the match and the text after it, trimming keeps a run of the field that ends at the match start. |
| SearchContext.WindowAfterIsRun | src/js/_site-search/search-widget.js:47-53 | The kept text after the match is a run of the field that starts right after the match. |
| SearchContext.KeptAfterIsRun | src/js/_site-search/search-widget.js:47-53 | Whatever the match and the text before it, trimming keeps a run of the field that starts right after the match. |
| SearchContext.ContextAroundBestRange | src/js/_site-search/search-widget.js:35-60 | For a non-title match whose widest range lies inside the field, the snippet's match is exactly the text of that range. Before + match + after occurs in the field as one unbroken run. |
| SearchContext.ContextUntrimmedWhenShort | src/js/_site-search/search-widget.js:49-50 | When the unabridged snippet fits in 80 characters, before and after are the untrimmed slices. |
| Links.GetLinkBehavior | src/js/_site-search/search-widget.js:9-28 | The link is in-page exactly when the page path is `/` + `baseUrl`. An in-page link and only it starts with `#`. Every link ends with `#` + `hashString`. |
| Links.LinkTargetIndependentOfPage | src/js/_site-search/search-widget.js:13-25 | The hrefs built in both branches resolve to the same address: `/baseUrl#hashString`. |
| Links.Destination | src/js/_site-search/search-widget.js:15-27 | Following a link moves the browser exactly when it is not in-page (the in-page handler cancels navigation and then fails at `window.scrollTo(href)()`), and then to its href. |
| Links.OnlyOtherPagesReached | src/js/_site-search/search-widget.js:9-28 | A result is reached exactly when the page path is not `/` + `baseUrl`, and then at `/baseUrl#hashString`. |
| ResultLayout.Layout | src/js/_site-search/search-widget.js:102-125 | One slot per result. Slot `i` is a row while results `0..i` can be rendered and fit in the available height. The first result that does not fit is the marker (the first result always gets a slot). Everything after the marker is empty. |
| ResultLayout.SearchResults | src/js/_site-search/search-widget.js:90-132 | Nothing for no results. Otherwise the running-total loop produces exactly `Layout` for the viewport height minus 210. Only the results the loop reads, up to and including the first that does not fit, must have a usable first match; the ones after it may be anything. |
| ResultLayout.SlotWhileFitting | src/js/_site-search/search-widget.js:105-124 | A result read while the earlier ones fit gets a row if it fits too, and the marker otherwise. |
| ResultLayout.SlotAfterOverflow | src/js/_site-search/search-widget.js:103 | Every slot after the first result that does not fit is empty. |
| ResultLayout.OverflowPersists | src/js/_site-search/search-widget.js:103-110 | Once the results stop fitting, one more result does not fit either. |
| ResultLayout.TakenGrows | src/js/_site-search/search-widget.js:108 | Each further result adds height: the running total strictly increases. |
| ResultLayout.FitsShrinks | src/js/_site-search/search-widget.js:108-109 | If some results fit, every shorter non-empty prefix of them fits. |
| ResultLayout.RowCount | src/js/_site-search/search-widget.js:98-110 | The number of rows is the longest prefix of the results that fits: it fits, or is empty, and one more result would not fit. |
| ResultLayout.LayoutShape | src/js/_site-search/search-widget.js:100-124 | The list is rows for the results that fit, in order, each selected exactly at `selectedIdx`. Then one marker if some result does not fit, then nothing. |
| ResultLayout.RenderedRowsFit | src/js/_site-search/search-widget.js:94-110 | The rendered rows take the estimated height of the results that fit, never more than the available space when there is a row. |
| ResultLayout.RowsHeightPrefix | src/js/_site-search/search-widget.js:108 | The heights of a prefix of the rows add up to the heights of the corresponding results. |
| ResultLayout.FourthRowOverflows | src/js/_site-search/search-widget.js:98-114 | A 400-pixel window with four snippet results shows three rows, then the marker, then nothing, whatever the fifth result holds. |
| Widget.NextSelected | src/js/_site-search/search-widget.js:157-169 | The arrows move the highlight by one and stop at either end: it moves up exactly on Up when not at the top, and down exactly on Down when not at the last result. It stays within the results. |
| Widget.AfterEscape | src/js/_site-search/search-widget.js:259-263 | Visibility changes exactly when the key is Escape. |
| Widget.EscapeTwiceRestores | src/js/_site-search/search-widget.js:259-263 | The same key twice restores the visibility. |
| Widget.GotoSelected | src/js/_site-search/search-widget.js:172-182 | There is a link exactly when a result is highlighted. Its href resolves to `/baseUrl#hashString` of that result. |
| Widget.EnterReachesOtherPagesOnly | src/js/_site-search/search-widget.js:172-182 | Enter moves the browser only when the highlighted result lives on another page, and then to its `/baseUrl#hashString`. On its own page nothing happens. |
| Widget.SearchWidget.constructor | src/js/_site-search/search-widget.js:223-233 | Collapsed, first result highlighted, no results, no viewport yet. |
| Widget.SearchWidget.OnEscapeKeyDown | src/js/_site-search/search-widget.js:259-263 | Visibility becomes `AfterEscape` of the old one. |
| Widget.SearchWidget.SetSearchText | src/js/_site-search/search-widget.js:265-274 | Results are the index's answer for non-empty text and none for empty text. The first result is highlighted, and the state stays valid. |
| Widget.SearchWidget.ToggleExpanded | src/js/_site-search/search-widget.js:281-284 | The search button flips the visibility. |
| Widget.SearchWidget.SetExpanded | src/js/_site-search/search-widget.js:290 | Visibility becomes the given value. |
| Widget.SearchWidget.OnClose | src/js/_site-search/search-widget.js:293 | Always collapses. |
| Widget.SearchWidget.OnTriggerClick | src/js/_site-search/search-widget.js:242-246 | A click on the trigger element always expands. |
| Widget.SearchWidget.OnPopupClick | src/js/_site-search/search-widget.js:194-198 | Collapses exactly when the click is on the backdrop itself. |
| Widget.SearchWidget.OnResize | src/js/_site-search/search-widget.js:238-240 | Records the new viewport size. |
| Widget.SearchWidget.OnKeyDown | src/js/_site-search/search-widget.js:146-170 | The highlight becomes `NextSelected` over the current results and stays valid. Enter yields the highlighted result's link, always present when there are results. |
| Widget.SearchWidget.Render | src/js/_site-search/search-widget.js:276-300 | A list exactly while expanded with results. It is `Layout` for the current viewport height minus 210. |
| Hierarchy.OrderChildren | src/docs/js/_load-data.js:7-16 | Data, own position and ancestors are kept. A leaf is unchanged. Otherwise the same number of children, each with its index as its position. |
| Hierarchy.OrderChildrenAt | src/docs/js/_load-data.js:7-16 | The tree keeps its shape: the same paths reach nodes, with the same data and child counts. Every non-root node's position is the last index of its path. |
| Hierarchy.AddAncestors | src/docs/js/_load-data.js:19-30 | A node gets the given chain. Each child gets the chain with the node appended. Data and positions are kept. |
| Hierarchy.AddAncestorsAt | src/docs/js/_load-data.js:19-30 | The tree keeps its shape and data. The node at path `p` gets the given chain, then every node from this one down to its parent. |
| Hierarchy.AnnotatedNodes | src/docs/js/_load-data.js:35-36 | After both passes, every node keeps its data, has its sibling index as its position, and has an ancestor chain naming exactly the nodes from the root to its parent (its length is the depth). |

## Left out

- Rendering to the DOM: JSX output, class names, focusing and selecting the search box on mount (search-widget.js:140-144) and `preventDefault` calls. A rendered list is a sequence of `Slot`s (row, marker or nothing), and a row is reduced to its index, whether it is selected and whether it has a snippet.
- Listener registration and removal (search-widget.js:235-257). The handlers themselves are modelled as methods. The stored trigger listener is the return value of `addEventListener`, which is `undefined`, so the guarded removal never runs; neither changes the widget's state.
- Navigation side effects: `document.location = href` and `window.scrollTo`. Enter yields the link, and `Destination` says where the browser goes. For an in-page link the handler first cancels the anchor's navigation (search-widget.js:18) and then calls the result of `window.scrollTo(href)`, which is not a function (:19). So an in-page result is never reached, by click or by Enter: `samePage` means that nothing happens. The `setExpanded(false)` at :20 is never reached either, and the model leaves the visibility unchanged.
- The viewport helper module is not part of this model. The viewport size is an input to `OnResize`, and it is absent until the first report.
- The search index is not part of this model. Its query is an uninterpreted function field of the widget, `search`.
- The page's `location.pathname` is a parameter.
- `lodash/maxBy` is not part of this model. `BestIndexPos` follows its documented rule, that the first maximum wins.
- ResultLayout.SearchResults: requires that each result the loop reads has a first match that `getContext` can handle: a title match, or a field present in the document with at least one range. Results after the first one that does not fit are unconstrained, as in the source (:103). On a malformed result that is read, the source throws a TypeError (:36, :42, :45), and the model does not represent exceptions.
- Widget.SearchWidget.Render: requires a viewport size while expanded with results, and the `SearchResults` condition above for it. Before the first size report `viewport` is `null` (:230), and rendering results then throws a TypeError at :98. When the first report arrives depends on the viewport helper, which is not part of this model.
- SearchContext.GetContext: requires that a non-title match names a field present in the document and has at least one range. On those inputs the source throws a TypeError, and the model does not represent exceptions.
- Widget.GotoSelected: returns no link where the source throws because no result is at the highlighted index.
- Strings are sequences of characters standing for UTF-16 code units. Surrogate pairs are not treated specially, which agrees with `slice`.
- The document is a map from field names to strings. A missing `baseUrl` or `hashString` reads as `"undefined"`, as in a template literal.
- The tree step: fetching the JSON, and the d3 `hierarchy`, `sort` and `sum` calls (_load-data.js:1-4, 32-39), are not part of this model. `addAnscestors` is applied to the data tree itself rather than to d3's wrapper nodes.
- Hierarchy: the source updates nodes in place and puts the ancestor nodes themselves into each chain. The model rebuilds the tree as a value and names each ancestor by its path from the root, so sharing between chains and later mutation through them are not captured.
