# Movie dashboard: a Dafny model

This project models the `Dashboard` component of a React movie catalog
(`src/components/Dashboard.jsx`). It has two halves:

- **The derived list.** The component computes a view from the store's movie list,
  the search text, the sort choice and the current page. It keeps the movies whose
  lower-cased title contains the lower-cased search text (`filter` with
  `includes`). It orders them by title through `localeCompare`, or numerically by
  year. It then shows the window of four movies for the current page (`slice`).
  The page count is `Math.ceil(n / 4)`. These are functions over sequences, in
  modules `Search`, `Sorting` and `Paging`.
- **The form and its handlers.** The component holds a form draft, an edit flag, the
  current page, the search text and the sort choice. Its handlers change them and
  dispatch `addMovie`, `editMovie` and `deleteMovie` to the store. This is the class
  `DashboardView.Dashboard`. Each handler is a method that says exactly what the new
  state is. The store itself is not modelled: a dispatch appends the action to the
  `dispatched` field.

`toLowerCase` is the parameter `lower`, an arbitrary function on strings.
`localeCompare` is the parameter `collate`. The sortedness results assume only that
`collate(a, b) <= 0` is a total preorder. `window.confirm` is the boolean argument
`confirmed` of `HandleDelete`.

The class invariant `Valid()` says two things. The page number is at least 1.
Outside edit mode, the draft's identifier is empty. The code guarantees only this
one direction: `handleEdit` copies whatever record it is given, so edit mode with
an empty identifier is reachable if a record's identifier is empty. The model follows the code here.

Because the page number is at least 1, the `slice` call cuts the plain window
`[(p-1)*4, min(p*4, n))`. `Paging.Slice` models `slice` in full, negative arguments
included, and `Paging.PageWindow` proves this reduction. Nothing resets the page
when the search text changes, so a search can leave the view past the last page.
That page is empty although matches exist. `DashboardView.SearchOnLaterPage` shows
this.

## Model

| member | source | states |
|---|---|---|
| Search.Includes | src/components/Dashboard.jsx:55 | `includes`: a match needs a text at least as long as the query, and the empty query is always found; IncludesIffOccurs characterises it |
| Search.IncludesIffOccurs | src/components/Dashboard.jsx:55 | `includes` holds exactly when the query occurs in the title at some offset |
| Search.Matches | src/components/Dashboard.jsx:54-56 | the filter callback: a match needs a lowered title at least as long as the lowered query, and an empty lowered query matches every title |
| Search.FilterByTitle | src/components/Dashboard.jsx:53-56 | the filtered list is no longer than the input; every element matches the search; it is a sub-multiset of the input |
| Search.FilterKeepsExactlyMatches | src/components/Dashboard.jsx:53-56 | each matching movie is kept as often as it occurs in the store's list; each non-matching movie is dropped |
| Search.FilterDistributes | src/components/Dashboard.jsx:53-56 | filtering a concatenation filters each part, so the kept movies keep their relative order |
| Search.FilterMembership | src/components/Dashboard.jsx:53-56 | a movie is in the filtered list iff it is in the store's list and its lowered title contains the lowered query |
| Search.EmptySearchKeepsAll | src/components/Dashboard.jsx:53-56 | with the initial empty search text the filter returns the whole list, in order |
| Sorting.InOrder | src/components/Dashboard.jsx:57-63 | the comparator's verdict `<= 0`; by year it is exactly `a.year <= b.year`; its totality and transitivity are InOrderTotal and InOrderTransitive |
| Sorting.InOrderTotal | src/components/Dashboard.jsx:57-63 | with a consistent collation, any two movies are ordered one way or the other by the comparator |
| Sorting.InOrderTransitive | src/components/Dashboard.jsx:57-63 | with a consistent collation, the comparator's "may stay before" relation is transitive |
| Sorting.Insert | src/components/Dashboard.jsx:57-64 | inserting a movie adds exactly that movie to the multiset of the list |
| Sorting.InsertKeepsLowerBound | src/components/Dashboard.jsx:57-64 | a movie that may precede every element and the inserted one may precede every element of the result |
| Sorting.InsertKeepsSorted | src/components/Dashboard.jsx:57-64 | inserting into a sorted list keeps it sorted |
| Sorting.SortMovies | src/components/Dashboard.jsx:57-64 | the sorted list is a permutation of the filtered list |
| Sorting.SortMoviesSorted | src/components/Dashboard.jsx:57-64 | with a consistent collation, every earlier movie compares <= 0 to every later one |
| Sorting.InsertTies | src/components/Dashboard.jsx:57-64 | insertion places a movie before every movie it ties with and moves no tied movie relative to another |
| Sorting.SortMoviesStable | src/components/Dashboard.jsx:57-64 | with a consistent collation the sort is stable: the movies tied with any given movie come out in the order they went in |
| Sorting.SortByYearNondecreasing | src/components/Dashboard.jsx:60-61 | sorted by year, the years never decrease, for any collation |
| Paging.Slice | src/components/Dashboard.jsx:68 | `slice` in full (its helper ClampIndex counts a negative argument from the end and clamps to [0, length]); for 0 <= start <= end the result is the contiguous run from start to end, cut at the length |
| Paging.TotalPages | src/components/Dashboard.jsx:69 | the page count is the least r with 4r >= n, i.e. ceil(n/4) |
| Paging.PageWindow | src/components/Dashboard.jsx:66-68 | for page >= 1: at most 4 items; empty exactly when page > TotalPages; on a real page, the window [(p-1)*4, min(p*4, n)) |
| Paging.ConcatPagesPrefix | src/components/Dashboard.jsx:66-69 | the first k pages laid end to end are the first min(4k, n) items |
| Paging.PagesPartition | src/components/Dashboard.jsx:66-69 | pages 1..TotalPages together give back the whole list in order, and none of them is empty |
| Paging.PageOfItem | src/components/Dashboard.jsx:66-69 | item i appears on page i/4+1 at slot i%4, and that page is within range |
| DashboardView.FilteredMovies | src/components/Dashboard.jsx:53-64 | `filteredMovies`: no longer than the store's list, a sub-multiset of it, and every element matches the search |
| DashboardView.FilteredMoviesSpec | src/components/Dashboard.jsx:53-64 | the derived list holds exactly the matching movies with their multiplicities, is sorted for the chosen key, and tied movies keep the filter's (that is, the store's) order |
| DashboardView.Dashboard.Filtered | src/components/Dashboard.jsx:53-64 | the per-render derived list: drawn from the store's list, and every element matches the current search text |
| DashboardView.Dashboard.PageCount | src/components/Dashboard.jsx:69 | the per-render `totalPages`: just enough pages of 4 for the derived list, and 0 exactly when that list is empty |
| DashboardView.Dashboard.CurrentMovies | src/components/Dashboard.jsx:66-68 | the visible page has at most 4 movies and is empty exactly when the current page is past the last page |
| DashboardView.Dashboard.constructor | src/components/Dashboard.jsx:14-20 | initial state: empty draft, not editing, page 1, empty search, sort by title, nothing dispatched |
| DashboardView.Dashboard.ReceiveMovies | src/components/Dashboard.jsx:14 | a new store list replaces the old one; the component's own state is unchanged |
| DashboardView.Dashboard.HandleChange | src/components/Dashboard.jsx:27-29 | only the named field of the draft changes; the identifier and the other fields keep their values |
| DashboardView.Dashboard.HandleSubmit | src/components/Dashboard.jsx:31-40 | exactly one action is dispatched, an edit of the draft when editing and an add otherwise (an add never carries an identifier); then the draft is blank and edit mode is off |
| DashboardView.Dashboard.HandleEdit | src/components/Dashboard.jsx:42-45 | the draft becomes the given movie and edit mode is on; nothing is dispatched |
| DashboardView.Dashboard.HandleDelete | src/components/Dashboard.jsx:47-51 | a delete of the identifier is dispatched iff confirmed; no other state changes |
| DashboardView.Dashboard.Paginate | src/components/Dashboard.jsx:71-75 | the page becomes the request iff it lies in [1, TotalPages]; otherwise, and always when the list is empty, nothing changes |
| DashboardView.Dashboard.SetSearchQuery | src/components/Dashboard.jsx:96 | the search text changes and the page number does not |
| DashboardView.Dashboard.SetSortCriteria | src/components/Dashboard.jsx:101 | the sort choice changes and nothing else does |
| DashboardView.EditThenSubmit | src/components/Dashboard.jsx:31-45 | begin edit on a movie and submit: one edit action carrying that movie and its identifier; the form is blank afterwards |
| DashboardView.FillThenSubmit | src/components/Dashboard.jsx:27-40 | fill in a fresh form and submit: one add action whose record has an empty identifier |
| DashboardView.SearchOnLaterPage | src/components/Dashboard.jsx:66-75 | on page 2, a search that leaves 1 to 4 matches keeps page 2, which shows nothing |

## Left out

- `src/components/PrivateRoute.jsx`: a single conditional over the router and the session selector; nothing in it to verify.
- JSX rendering and styles (src/components/Dashboard.jsx:77-183). The "next" button is disabled only when `currentPage === totalPages`. On a page past the end it stays enabled, and `Paginate` ignores the request.
- The `fetchMovies` effect on mount, the async thunks behind `addMovie`, `editMovie` and `deleteMovie`, and the store's `loading` status. These are asynchronous store plumbing. A new list reaches the model only through `ReceiveMovies`, and a dispatch is only an entry in `dispatched`.
- `window.confirm`: a browser dialog, replaced by the argument `confirmed`.
- The exact Unicode case mapping of `toLowerCase` and the locale collation of `localeCompare`: foreign library behaviour, taken as parameters.
- The HTML input constraints (`required`, year between 1880 and 2099, URL shape): the browser enforces them, not this code.
- JavaScript's text-to-number coercion in `a.year - b.year`: the year is an integer, and the form's blank year "" is 0, the number "" converts to.
- The fallback `return 0` of the comparator (src/components/Dashboard.jsx:63): the sort selector offers only "title" and "year", so `SortKey` has only those two values.
- The change handler's computed key `[e.target.name]`: only the form's three named inputs (title, year, poster) are modelled.
- The in-place `sort` on the fresh array returned by `filter` is modelled as a function on sequences. The store's list is a value passed to it, so it cannot change.
- FilterByTitle: its own contract does not state that the kept movies keep their relative order. That order matters, because the stable sort keeps it among tied movies. FilterDistributes states it separately.
