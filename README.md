# Supposition tree page — a Dafny model

This project models the logic behind an educational web page that presents
Peter of Spain's taxonomy of supposition and appellation as an illustrated
tree. The page's script (`script.js`) holds three small components, each
modelled in its own module:

- **Terms** (`terms.dfy`) — the static data and the grid hit-test. It holds the
  location table `termLocations` and the content database
  `contentDatabase`. Both are kept as ordered sequences in key order b1..b16,
  the order `Object.keys` yields. Each term covers a 1×2 footprint on the
  20×20 hover grid: cells `row*20+col` and `row*20+col+1`. Hovering a cell
  resolves it to the first term, in key order, whose footprint contains it.
  The module proves the facts about the concrete tables that this scheme
  depends on: ids are unique, every footprint lies on one row of the grid,
  footprints are pairwise disjoint, both tables have the same keys in the same
  order, and contents are non-empty and pairwise distinct. From these it
  proves that hit-testing resolves each cell of a footprint to exactly that
  term, in both directions.
- **Highlight** (`highlight.dfy`) — the grid page as a class. It holds the
  400 `highlight` flags of the grid cells as an `array<bool>`, the text of the
  description pane, and the rows of the leaf list. Its methods are
  `highlightTerm`, `clearHighlights`, the grid-cell hover handler and the
  leaf-row hover handler. Each states the new highlight flags and description
  exactly; lemmas show that exactly two cells are highlighted after any hover
  that hits a term, and none after a miss. `populateLeafList` is the loop
  `BuildLeafList`, proved to produce one row per database entry, in key
  order, with the text `english | latin`.
- **Navigation** (`navigation.dfy`) — `currentView`, the next and back
  handlers, `buttonConfig` and `updateView`. `updateView` is a function from
  the view index and the previous state of the controls it writes (view
  visibility, button visibility and text, container alignment classes) to
  their new state. A `Navigator` class holds `currentView` and those controls.
  Its invariant says the controls always display the current view. Lemmas
  over arbitrary click sequences show that the view stays in {0, 1, 2}, and
  that the landing view is reached only by the back button.

`wrappers.dfy` holds the `Option` type, which stands for JavaScript's
`undefined` result of a lookup or a `find`.

Both tables are defined entry by entry (`LocationAt`, `EntryAt`). The facts
about them are proved by recursive checker predicates, which the verifier
evaluates on the concrete entries one entry at a time (`Location0Checked` …
`Location15Checked`, `Content0Checked` … `Content15Checked`). Induction lemmas
(`…Means`) turn them into the quantified statements used everywhere else.

On a hover over a grid cell that belongs to no term, the code clears every
highlight and empties the description pane (script.js:136, 144-146).

## Model

| member | source | states |
|---|---|---|
| Terms.LocationAt | script.js:92-109 | the location table's entries, in key order, as written; every footprint lies on the grid |
| Terms.EntryAt | script.js:1-82 | the content database's entries, in key order, with the Latin and English labels as written; each entry's key is the location table's key at the same position, and no content is empty |
| Terms.KeyIndex | script.js:120 | property access by key: the position found is the first key equal to the requested id, or the end of the keys when none is |
| Terms.LocationOf | script.js:120 | `termLocations[termId]`: a found location has that id and is in the table; the result is undefined exactly when no entry has that id |
| Terms.Lookup | script.js:143 | `contentDatabase[termId]`: a found record is the one the database stores under that id; the result is undefined exactly when no entry has that id |
| Terms.CoveringIndex | script.js:137-140 | `find`'s first-match semantics: no earlier entry's footprint contains the cell, and the entry found (if any) does |
| Terms.HitTest | script.js:137-141 | a cell resolves to some term exactly when some term's footprint contains it |
| Terms.UniqueIds | script.js:92-109 | the keys of the location table are pairwise distinct |
| Terms.FootprintsInBounds | script.js:90-109 | every footprint lies on one row of the 20×20 grid, so both of its linear indices are in [0, 400) and on the same row |
| Terms.FootprintsDisjoint | script.js:92-109 | no grid cell lies in the footprints of two different terms |
| Terms.SameKeys | script.js:1-82 | the content database has the same keys as the location table, in the same order, so `Object.keys` gives the same list for both |
| Terms.ContentsDistinct | script.js:1-82 | every content is non-empty and no two terms share one |
| Terms.ContentIdentifiesTerm | script.js:143 | two ids whose records have the same content are the same id, so the text in the description pane identifies the term it shows |
| Terms.LookupEntry | script.js:120 | looking up the id of the k-th location returns that location and the k-th record |
| Terms.LookupKey | script.js:165-168 | looking up each key of the content database returns that key's own record |
| Terms.LocatedIffRecorded | script.js:141-143 | an id has a location exactly when it has a record, so `contentDatabase[termId]` is defined for every hit |
| Terms.HitTestFootprint | script.js:137-140 | hovering either cell of a term's footprint resolves to exactly that term |
| Terms.HitTestExact | script.js:137-140 | a cell resolves to an id exactly when that id has a location whose footprint contains the cell (both directions) |
| Terms.LocationInBounds | script.js:119-126 | for every located id, `grid[index1]` and `grid[index2]` are inside the 400-cell grid |
| Highlight.ExactlyTwoHighlighted | script.js:119-128 | when the flags mark exactly a located term's footprint, exactly two cells are highlighted |
| Highlight.NoneHighlighted | script.js:130-132 | when the flags mark nothing, no cell is highlighted |
| Highlight.LeafLabelLayout | script.js:171 | a leaf row's text is the English label, then a vertical bar set off by one space on each side, then the Latin label |
| Highlight.BuildLeafList | script.js:162-181 | the leaf list has one row per database entry, in key order, with the English and Latin labels joined by a vertical bar, bound to that entry's id and record |
| Highlight.GridPage.constructor | script.js:111-117 | the grid starts with 400 unhighlighted cells, and the leaf list is populated |
| Highlight.GridPage.HighlightTerm | script.js:119-128 | a located term's two footprint cells become highlighted and no other cell changes; an id with no location changes nothing |
| Highlight.GridPage.ClearHighlights | script.js:130-132 | no cell is highlighted afterwards |
| Highlight.GridPage.HoverCell | script.js:134-148 | after hovering a cell that resolves to a term, exactly that term's footprint is highlighted and the description is its content; after a miss, nothing is highlighted and the description is empty; exactly two cells are highlighted after a hit and none after a miss |
| Highlight.GridPage.HoverLeaf | script.js:173-177 | after hovering a leaf row, exactly that row's term's footprint is highlighted, exactly two cells are highlighted, and the description is its content |
| Navigation.ButtonConfig | script.js:193-206 | defined exactly for views 0, 1 and 2; only the landing view has no back button; the back button reads "Back to the full glamorous tree"; every view has a shown next button |
| Navigation.NextView | script.js:246-253 | from any of the three views, next moves to a different view and never to the landing view; any other value is left alone |
| Navigation.UpdateView | script.js:208-244 | exactly the current view is un-hidden; the back button is hidden only on the landing view, and its text is written only when it is shown; the next button is always shown with text Simplified / English / Latin; the container is `space-between` exactly off the landing view and never `left-align` |
| Navigation.OneViewShown | script.js:209-216 | a page that displays view v shows no view other than v |
| Navigation.RunStaysInRange | script.js:246-260 | any sequence of next and back clicks from a valid view leaves `currentView` in {0, 1, 2} |
| Navigation.LandingOnlyAfterBack | script.js:246-260 | after one or more clicks, the view is the landing view exactly when the last click was back |
| Navigation.ThreeNextPresses | script.js:246-255 | from the landing view, three presses of next visit the simple, English and simple views |
| Navigation.Navigator.constructor | script.js:262 | the page starts with `currentView` 0 (script.js:187) with its controls as `updateView` writes them |
| Navigation.Navigator.Next | script.js:246-255 | `currentView` takes its next value and the controls are rewritten by `updateView` for it; the controls keep displaying the current view |
| Navigation.Navigator.Back | script.js:257-260 | `currentView` becomes the landing view and the controls are rewritten by `updateView` for it |

## Left out

- Canvas drawing and image loading (`treeImage`, `ctx.drawImage`, script.js:84-85, 150-159): browser rendering and asset I/O.
- DOM plumbing: the `getElementById`, `createElement`, `appendChild`, `innerHTML` and `addEventListener` calls. Elements are reduced to the booleans and strings they carry: each cell's `highlight` class, the description text, the leaf rows, the `hidden` classes, the button texts and the container classes.
- The explanatory prose of each content entry. Each entry carries a distinct stand-in string instead, because only its identity matters. The Latin and English labels are kept verbatim.
- The leaf rows' `paddingLeft` and the `indent` field it comes from (script.js:165, 172). The indent is always 0 and only affects presentation.
- Highlight.GridPage.constructor: the description pane's text before the first hover comes from the page's markup, not the script, so it is a constructor parameter.
- Navigation.Navigator.constructor: the view and button state before the first `updateView` likewise comes from the markup and is a parameter.
- Lookups consider only the tables' own keys. In JavaScript, an id such as `constructor` would also find an inherited property of `Object.prototype`. No handler can pass such an id, because `highlightTerm` only receives keys of the two tables.
- Navigation.UpdateView requires a view index in {0, 1, 2}. On any other value `buttonConfig[currentView]` is undefined and the source raises a TypeError. The `Navigator` invariant shows that no handler produces such a value.
- Connection lines, outline parsing, the magnifier, the "spread" transform and data fetching do not exist in `script.js` and are not modelled.
