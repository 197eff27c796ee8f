/**
  The Dashboard component: its local state (the form draft, the edit flag,
  the current page, the search text and the sort choice), the store's movie
  list it reads, the list it derives from them, and its event handlers.
  Dispatching an action to the store is modelled as appending it to
  `dispatched`.
*/
module DashboardView {
  import opened Movies
  import opened Search
  import opened Sorting
  import opened Paging

  /** `filteredMovies`: the matches of the search, in the chosen order. */
  function FilteredMovies(movies: seq<Movie>, query: string, key: SortKey,
                          lower: string -> string, collate: (string, string) -> int): (r: seq<Movie>)
    ensures |r| <= |movies| && multiset(r) <= multiset(movies)
    ensures forall i | 0 <= i < |r| :: Matches(r[i], query, lower)
  {
    var kept := FilterByTitle(movies, query, lower);
    var r := SortMovies(kept, key, collate);
    AllMatch(r, kept, query, lower);
    r
  }

  /** The derived list holds each matching movie as often as the store's
      list does and nothing else; it is in order for the sort key; and
      movies that compare equal appear in the order the filter kept them. */
  lemma FilteredMoviesSpec(movies: seq<Movie>, query: string, key: SortKey,
                           lower: string -> string, collate: (string, string) -> int, m: Movie)
    requires Consistent(key, collate)
    ensures multiset(FilteredMovies(movies, query, key, lower, collate))[m]
         == if Matches(m, query, lower) then multiset(movies)[m] else 0
    ensures Sorted(key, collate, FilteredMovies(movies, query, key, lower, collate))
    ensures TiesWith(key, collate, m, FilteredMovies(movies, query, key, lower, collate))
         == TiesWith(key, collate, m, FilterByTitle(movies, query, lower))
  {
    FilterKeepsExactlyMatches(movies, query, lower, m);
    SortMoviesSorted(FilterByTitle(movies, query, lower), key, collate);
    SortMoviesStable(FilterByTitle(movies, query, lower), key, collate, m);
  }

  class Dashboard {
    /** The store's list, as read by the selector. */
    var movies: seq<Movie>
    /** The form draft (`movie`) and `isEditing`. */
    var draft: Movie
    var isEditing: bool
    var currentPage: int
    var searchQuery: string
    var sortCriteria: SortKey
    /** Every action dispatched so far, oldest first. */
    var dispatched: seq<Command>
    /** `toLowerCase` and `localeCompare`. */
    const lower: string -> string
    const collate: (string, string) -> int

    /** The page number never drops below 1, and outside edit mode the draft
        carries no identifier, so an add never names an existing record. */
    ghost predicate Valid()
      reads this
    {
      currentPage >= 1 && (!isEditing ==> draft.id == "")
    }

    /** The per-render `filteredMovies`: matches of the search, drawn from the store's list. */
    function Filtered(): (r: seq<Movie>)
      reads this
      ensures multiset(r) <= multiset(movies)
      ensures forall i | 0 <= i < |r| :: Matches(r[i], searchQuery, lower)
    {
      FilteredMovies(movies, searchQuery, sortCriteria, lower, collate)
    }

    /** The per-render `totalPages`: just enough pages for the derived list. */
    function PageCount(): (r: nat)
      reads this
      ensures |Filtered()| <= PageSize * r < |Filtered()| + PageSize
      ensures r == 0 <==> Filtered() == []
    {
      TotalPages(|Filtered()|)
    }

    /** `currentMovies`: at most four movies, empty past the last page. */
    function CurrentMovies(): (r: seq<Movie>)
      reads this
      requires Valid()
      ensures |r| <= PageSize
      ensures r == [] <==> currentPage > PageCount()
    {
      PageWindow(Filtered(), currentPage)
    }

    /** The component's initial state, over the store's current list. */
    constructor (movies: seq<Movie>, lower: string -> string, collate: (string, string) -> int)
      ensures Valid()
      ensures this.movies == movies && this.lower == lower && this.collate == collate
      ensures draft == EmptyDraft && !isEditing && currentPage == 1
      ensures searchQuery == "" && sortCriteria == ByTitle && dispatched == []
    {
      this.movies := movies;
      this.lower := lower;
      this.collate := collate;
      draft := EmptyDraft;
      isEditing := false;
      currentPage := 1;
      searchQuery := "";
      sortCriteria := ByTitle;
      dispatched := [];
    }

    /** The store delivers a new list (after a fetch or a command). */
    method ReceiveMovies(list: seq<Movie>)
      requires Valid()
      modifies this
      ensures Valid()
      ensures movies == list
      ensures draft == old(draft) && isEditing == old(isEditing) && currentPage == old(currentPage)
      ensures searchQuery == old(searchQuery) && sortCriteria == old(sortCriteria)
      ensures dispatched == old(dispatched)
    {
      movies := list;
    }

    /** `handleChange`: the named field of the draft takes the new value;
        the other fields, the identifier among them, keep theirs. */
    method HandleChange(change: FieldChange)
      requires Valid()
      modifies this
      ensures Valid()
      ensures draft.id == old(draft.id)
      ensures draft.title == if change.SetTitle? then change.title else old(draft.title)
      ensures draft.year == if change.SetYear? then change.year else old(draft.year)
      ensures draft.poster == if change.SetPoster? then change.poster else old(draft.poster)
      ensures isEditing == old(isEditing) && currentPage == old(currentPage) && movies == old(movies)
      ensures searchQuery == old(searchQuery) && sortCriteria == old(sortCriteria)
      ensures dispatched == old(dispatched)
    {
      match change
      case SetTitle(t) => draft := draft.(title := t);
      case SetYear(y) => draft := draft.(year := y);
      case SetPoster(p) => draft := draft.(poster := p);
    }

    /** `handleSubmit`: exactly one action, an edit of the draft in edit mode
        and an add otherwise; then the form is cleared whatever the outcome. */
    method HandleSubmit()
      requires Valid()
      modifies this
      ensures Valid()
      ensures dispatched == old(dispatched) + [if old(isEditing) then EditMovie(old(draft)) else AddMovie(old(draft))]
      ensures !old(isEditing) ==> dispatched[|dispatched| - 1].movie.id == ""
      ensures draft == EmptyDraft && !isEditing
      ensures currentPage == old(currentPage) && movies == old(movies)
      ensures searchQuery == old(searchQuery) && sortCriteria == old(sortCriteria)
    {
      if isEditing {
        dispatched := dispatched + [EditMovie(draft)];
      } else {
        dispatched := dispatched + [AddMovie(draft)];
      }
      draft := EmptyDraft;
      isEditing := false;
    }

    /** `handleEdit`: the draft becomes the chosen movie, in edit mode. */
    method HandleEdit(m: Movie)
      requires Valid()
      modifies this
      ensures Valid()
      ensures draft == m && isEditing
      ensures currentPage == old(currentPage) && movies == old(movies)
      ensures searchQuery == old(searchQuery) && sortCriteria == old(sortCriteria)
      ensures dispatched == old(dispatched)
    {
      draft := m;
      isEditing := true;
    }

    /** `handleDelete`: a delete of `id` only when the user confirms;
        otherwise nothing happens. */
    method HandleDelete(id: string, confirmed: bool)
      requires Valid()
      modifies this
      ensures Valid()
      ensures dispatched == old(dispatched) + (if confirmed then [DeleteMovie(id)] else [])
      ensures draft == old(draft) && isEditing == old(isEditing)
      ensures currentPage == old(currentPage) && movies == old(movies)
      ensures searchQuery == old(searchQuery) && sortCriteria == old(sortCriteria)
    {
      if confirmed {
        dispatched := dispatched + [DeleteMovie(id)];
      }
    }

    /** `paginate`: move to `pageNumber` exactly when it is a page of the
        derived list; any other request, and every request while the list
        is empty, changes nothing. */
    method Paginate(pageNumber: int)
      requires Valid()
      modifies this
      ensures Valid()
      ensures currentPage == if 1 <= pageNumber <= old(PageCount()) then pageNumber else old(currentPage)
      ensures old(|Filtered()|) == 0 ==> currentPage == old(currentPage)
      ensures 1 <= pageNumber <= PageCount() ==> CurrentMovies() != []
      ensures draft == old(draft) && isEditing == old(isEditing) && movies == old(movies)
      ensures searchQuery == old(searchQuery) && sortCriteria == old(sortCriteria)
      ensures dispatched == old(dispatched)
    {
      var totalPages := PageCount();
      if pageNumber >= 1 && pageNumber <= totalPages {
        currentPage := pageNumber;
      }
    }

    /** The search box's change handler; the page number is not reset. */
    method SetSearchQuery(q: string)
      requires Valid()
      modifies this
      ensures Valid()
      ensures searchQuery == q
      ensures draft == old(draft) && isEditing == old(isEditing) && currentPage == old(currentPage)
      ensures movies == old(movies) && sortCriteria == old(sortCriteria)
      ensures dispatched == old(dispatched)
    {
      searchQuery := q;
    }

    /** The sort selector's change handler. */
    method SetSortCriteria(key: SortKey)
      requires Valid()
      modifies this
      ensures Valid()
      ensures sortCriteria == key
      ensures draft == old(draft) && isEditing == old(isEditing) && currentPage == old(currentPage)
      ensures movies == old(movies) && searchQuery == old(searchQuery)
      ensures dispatched == old(dispatched)
    {
      sortCriteria := key;
    }
  }

  /** Begin edit on a movie, then submit: one edit action carrying that
      movie (and so its identifier) is sent, and the form is blank again. */
  method EditThenSubmit(movies: seq<Movie>, m: Movie, lower: string -> string,
                        collate: (string, string) -> int)
    returns (sent: seq<Command>, draftAfter: Movie, editingAfter: bool)
    ensures sent == [EditMovie(m)]  // so the edit carries m.id
    ensures draftAfter == EmptyDraft && !editingAfter
  {
    var d := new Dashboard(movies, lower, collate);
    d.HandleEdit(m);
    d.HandleSubmit();
    sent, draftAfter, editingAfter := d.dispatched, d.draft, d.isEditing;
  }

  /** Submitting a fresh form sends an add whose draft has no identifier. */
  method FillThenSubmit(movies: seq<Movie>, title: string, year: int, poster: string,
                        lower: string -> string, collate: (string, string) -> int)
    returns (sent: seq<Command>)
    ensures sent == [AddMovie(Movie("", title, year, poster))]
  {
    var d := new Dashboard(movies, lower, collate);
    d.HandleChange(SetTitle(title));
    d.HandleChange(SetYear(year));
    d.HandleChange(SetPoster(poster));
    d.HandleSubmit();
    sent := d.dispatched;
  }

  /** A search that shrinks the list while a later page is shown leaves the
      view on a page past the end: it shows no movie although some match. */
  method SearchOnLaterPage(movies: seq<Movie>, query: string, lower: string -> string,
                           collate: (string, string) -> int)
    returns (shown: seq<Movie>, matches: nat, page: int)
    requires |FilteredMovies(movies, "", ByTitle, lower, collate)| > PageSize
    requires 0 < |FilteredMovies(movies, query, ByTitle, lower, collate)| <= PageSize
    ensures page == 2 && matches > 0 && shown == []
  {
    var d := new Dashboard(movies, lower, collate);
    d.Paginate(2);
    d.SetSearchQuery(query);
    shown, matches, page := d.CurrentMovies(), |d.Filtered()|, d.currentPage;
  }
}
