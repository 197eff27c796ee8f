/**
  The records the movie dashboard shows and edits, the form edits a user can
  make, and the commands the dashboard sends to the movie store.
*/
module Movies {

  /** One catalog entry (`_id`, `title`, `year`, `poster`). The year is an
      integer; the blank year of an empty form (the text "") is 0, the number
      that "" converts to when two years are subtracted. */
  datatype Movie = Movie(id: string, title: string, year: int, poster: string)

  /** The form's blank record, used on mount and after every submit. */
  const EmptyDraft: Movie := Movie("", "", 0, "")

  /** A change event from one of the form's three named inputs. */
  datatype FieldChange =
    | SetTitle(title: string)
    | SetYear(year: int)
    | SetPoster(poster: string)

  /** The actions dispatched to the store: `addMovie`, `editMovie`, `deleteMovie`. */
  datatype Command =
    | AddMovie(movie: Movie)
    | EditMovie(movie: Movie)
    | DeleteMovie(id: string)
}
