# Student list pagination and search — a Dafny model

The page shows a pre-loaded array of student records nine at a time. It renders one
card per student of the chosen page, offers one page control per page with the
current one marked active, and filters the records by a case-insensitive substring
of the first or last name typed into a search box. Queries that contain anything
other than ASCII letters and digits are refused.

The model has four modules:

- `Records` (records.dfy): the student record and the card a page shows for it.
- `Paging` (paging.dfy): the page size, the page window, the page count and the
  control labels. It also proves that the pages 1..count, read in order, give back
  the whole list.
- `Search` (search.dfy): the query check, ASCII case folding, `indexOf`, and the
  filter with its "not filtered" sentinel. The filter is proved against an
  independent substring definition.
- `View` (view.dfy): class `ViewState`, the page itself. Its fields are:
  - the dataset;
  - the rendered cards;
  - the control labels and the index of the active control;
  - whether pagination is visible and whether the "No result" notice is shown;
  - the list the click handler renders pages of.

  Its methods are `showPage`, `addPagination`, a click on the control list and the
  search-input handler. The search handler treats a value that fails the character
  check like an empty value: it shows page 1 of the full dataset and rebuilds its
  pagination (js/script.js:204-208), even when a filtered list was on screen. Each
  event handler keeps the invariant `Coherent`: while the
  pagination region is visible, the active control names the page being shown, and
  the notice appears only with an empty page and hidden pagination. Three client
  methods replay three scenarios: twenty records over three pages, a query that
  matches nothing, and a search followed by clearing the field.

## Model

| member | source | states |
|---|---|---|
| `Records.CardOf` | js/script.js:96-119 | A card's alt text is the title, a blank, then the heading. The heading is first name, one blank, last name. The date line is "Joined " followed by the registration date verbatim. Avatar and email are copied. |
| `Paging.PageCount` | js/script.js:138 | The page count is zero exactly for an empty list. Otherwise it is the integer ceiling `c` with `(c-1)*9 < n <= c*9`. |
| `Paging.PageWindow` | js/script.js:121-127 | Page `p` holds `min(9, max(0, n-(p-1)*9))` records: the list's records from index `(p-1)*9` on, in order. It is empty exactly when `p` is past the last page. |
| `Paging.LabelsRange` | js/script.js:156-160 | There is one label per page, the first label is 1 and the last is the page count. |
| `Paging.LabelsAscending` | js/script.js:156-160 | The control labels are strictly increasing from left to right. |
| `Paging.PagesCoverList` | js/script.js:138-160 | Concatenating pages 1..PageCount(n) gives back the list: no record is lost, repeated or reordered. |
| `Paging.PageOfIndex` | js/script.js:121-122 | Record `i` is on page `i/9+1` and on no other page. That page is among the offered controls, and the record sits at offset `i%9` in it. |
| `Search.HasInvalidChar` | js/script.js:36 | The pattern `[^a-zA-Z0-9]` matches iff some character is outside the class. |
| `Search.ValidateInput` | js/script.js:35-41 | A query is accepted iff every character is an ASCII letter or digit. The empty query is accepted. |
| `Search.Lower` | js/script.js:52-53 | Case folding keeps the length, maps each upper-case ASCII letter to the matching lower-case letter, keeps every other character, and leaves no upper-case ASCII letter. |
| `Search.LowerIdempotent` | js/script.js:52-53 | Case folding twice equals folding once. |
| `Search.IndexOf` | js/script.js:52-53 | The result is -1 iff the needle is not a substring. Otherwise it is an index where the needle occurs, with no earlier occurrence. |
| `Search.Matches` | js/script.js:51-53 | The filter callback, built on `IndexOf`, holds iff the folded query is a substring of the folded first name or of the folded last name. |
| `Search.FilterMatching` | js/script.js:51-53 | The filtered list is a subsequence of the input in the same order. It holds a record iff the input holds it and the record matches. Each matching record appears as many times as in the input; a non-matching record does not appear. |
| `Search.FilterItems` | js/script.js:49-56 | An empty query gives `NotFiltered`, and only an empty query does. Any other query gives an order-preserving subsequence holding exactly the records whose folded first or last name contains the folded query, each as many times as in the input. |
| `Search.NothingFound` | js/script.js:49-56 | A non-empty query that no name contains gives `Filtered([])`, not the sentinel. |
| `Search.FilterCaseInsensitive` | js/script.js:52-53 | A query and its case-folded form select the same records. |
| `Search.FilterIdempotent` | js/script.js:51-53 | Filtering a filtered list again with the same query changes nothing. |
| `Search.FilterAppend` | js/script.js:51-53 | Filtering a concatenation gives the concatenation of the filtered parts, so relative order is kept. |
| `Search.AnMatchesAnnaAndDiana` | js/script.js:49-56 | The query "an" keeps both "Anna Smith" and "Diana Jones". |
| `View.Render` | js/script.js:96-127 | The cards of page `p` number `min(9, max(0, n-(p-1)*9))`. Card `k` is the card of record `(p-1)*9+k`. |
| `View.ViewState.constructor` | js/script.js:179-180 | Page load shows page 1 of the dataset without the notice. A non-empty dataset gets controls 1..PageCount with the first active. An empty dataset has hidden pagination, no controls and no bound list. `Coherent` holds. |
| `View.ViewState.ShowPage` | js/script.js:80-128 | Afterwards the container holds exactly `Render(list, page)`, whatever it held before, and the notice is gone. Only the cards and the notice change. |
| `View.ViewState.AddPagination` | js/script.js:135-176 | A non-empty list makes pagination visible, gives controls 1..PageCount(n) with the first active, and binds clicks to the list. An empty list only hides pagination: controls, marker and bound list are kept. |
| `View.ViewState.ClickOn` | js/script.js:164-172 | A click on control `k` moves the marker to `k` and renders page `links[k]` of the bound list. Controls, bound list and visibility are unchanged. A click elsewhere changes nothing. `Coherent` is kept. |
| `View.ViewState.UpdateStudents` | js/script.js:187-209 | A non-empty valid query shows page 1 of the filtered dataset and rebuilds pagination for it; the notice is shown iff nothing matched. Any other value shows page 1 of the dataset, rebuilds its pagination and removes the notice. `Coherent` is kept. |
| `View.TwentyRecords` | js/script.js:156-170 | With 20 records there are 3 controls. Pages 1, 2 and 3 show records 0..8, 9..17 and 18..19. |
| `View.NoMatch` | js/script.js:195-202 | A valid query that matches no name leaves no card, hides pagination and shows the notice. |
| `View.SearchThenClear` | js/script.js:204-208 | After any search, clearing the field gives back page 1 of the dataset, the full set of controls with the first active, and no notice. |

## Left out

- Element construction and insertion are not modelled: `createElement` (js/script.js:21-27), `createSearchBlock` and its insertion (js/script.js:58-72), `innerHTML`, `outerHTML`, `insertAdjacentHTML`, `querySelector` and CSS class names. These are browser APIs. Their effects appear only as fields of `ViewState`, and a card is a record of strings.
- Event-listener registration is not modelled. Each non-empty `addPagination` adds one more click listener to the same control list (js/script.js:164). The model keeps one handler, for the list of the latest non-empty call. The observable outcome matches: the latest listener runs last, so its `showPage` decides the cards, and every listener leaves the marker on the clicked control.
- The diagnostic `console.log` (js/script.js:37) is output only.
- The regular-expression engine and full Unicode `toLowerCase` are not modelled. The query check is a per-character scan, and case folding is ASCII only: `A`-`Z` become `a`-`z`, all else is kept.
- A control's label reaches `showPage` as text and is coerced to a number (js/script.js:170). The model passes the label as a number.
- The dataset array (js/script.js:179) is loaded by the page shell. It is the constructor's parameter.
- `students` (js/script.js:185, 190) holds a copy of the filtered list. It is read only inside the same call (js/script.js:191-198), where the model uses the filtered list itself, and no other code reads it.
- `View.ViewState.ClickOn` does not require pagination to be visible. A hidden region cannot be clicked in a browser, but the handler itself does not check visibility.
- `View.ViewState.constructor`: its `links == []` for an empty dataset assumes that the page shell starts with an empty control list. `addPagination` never clears the control list for an empty list (js/script.js:173-174), and the shell's initial markup is not part of this model.
