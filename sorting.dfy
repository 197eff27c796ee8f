/**
  The sort step of the dashboard's derived list. The comparator orders by
  title through the locale collation (`localeCompare`, a parameter here) or
  by year numerically. The language requires the built-in sort to be
  stable; the model sorts by insertion and proves that the result is a
  permutation (SortMovies), in order (SortMoviesSorted) and stable
  (SortMoviesStable).
*/
module Sorting {
  import opened Movies

  /** The two options of the sort selector. */
  datatype SortKey = ByTitle | ByYear

  /** The comparator's verdict "a may stay before b": a result <= 0. */
  predicate InOrder(key: SortKey, collate: (string, string) -> int, a: Movie, b: Movie): (r: bool)
    ensures key == ByYear ==> (r <==> a.year <= b.year)
  {
    match key
    case ByTitle => collate(a.title, b.title) <= 0
    case ByYear => a.year - b.year <= 0
  }

  /** A collation whose "<= 0" relation is total and transitive. */
  ghost predicate TotalPreorder(collate: (string, string) -> int)
  {
    && (forall x, y :: collate(x, y) <= 0 || collate(y, x) <= 0)
    && (forall x, y, z :: collate(x, y) <= 0 && collate(y, z) <= 0 ==> collate(x, z) <= 0)
  }

  /** What the comparator needs of the collation: nothing when sorting by year. */
  ghost predicate Consistent(key: SortKey, collate: (string, string) -> int)
  {
    key == ByTitle ==> TotalPreorder(collate)
  }

  ghost predicate Sorted(key: SortKey, collate: (string, string) -> int, s: seq<Movie>)
  {
    forall i, j | 0 <= i < j < |s| :: InOrder(key, collate, s[i], s[j])
  }

  /** `b` may stay before every element of `s`. */
  ghost predicate Below(key: SortKey, collate: (string, string) -> int, b: Movie, s: seq<Movie>)
  {
    forall k | 0 <= k < |s| :: InOrder(key, collate, b, s[k])
  }

  /** Put `x` before the first element it may precede. */
  function Insert(key: SortKey, collate: (string, string) -> int, x: Movie, s: seq<Movie>): (r: seq<Movie>)
    ensures multiset(r) == multiset(s) + multiset{x}
  {
    if s == [] then [x]
    else if InOrder(key, collate, x, s[0]) then [x] + s
    else
      assert s == [s[0]] + s[1..];
      [s[0]] + Insert(key, collate, x, s[1..])
  }

  /** The sorted copy of `s`: a permutation of it. */
  function SortMovies(s: seq<Movie>, key: SortKey, collate: (string, string) -> int): (r: seq<Movie>)
    ensures multiset(r) == multiset(s)
    ensures |r| == |s|
  {
    if s == [] then []
    else
      assert s == [s[0]] + s[1..];
      Insert(key, collate, s[0], SortMovies(s[1..], key, collate))
  }

  lemma InOrderTotal(key: SortKey, collate: (string, string) -> int, a: Movie, b: Movie)
    requires Consistent(key, collate)
    ensures InOrder(key, collate, a, b) || InOrder(key, collate, b, a)
  {
  }

  lemma InOrderTransitive(key: SortKey, collate: (string, string) -> int, a: Movie, b: Movie, c: Movie)
    requires Consistent(key, collate)
    requires InOrder(key, collate, a, b) && InOrder(key, collate, b, c)
    ensures InOrder(key, collate, a, c)
  {
  }

  /** A lower bound of `s` that may precede `x` is a lower bound of `Insert(x, s)`. */
  lemma {:induction false} InsertKeepsLowerBound(key: SortKey, collate: (string, string) -> int, b: Movie, x: Movie, s: seq<Movie>)
    requires Below(key, collate, b, s) && InOrder(key, collate, b, x)
    ensures Below(key, collate, b, Insert(key, collate, x, s))
  {
    if s != [] && !InOrder(key, collate, x, s[0]) {
      InsertKeepsLowerBound(key, collate, b, x, s[1..]);
    }
  }

  /** Inserting into a sorted list gives a sorted list. */
  lemma {:induction false} InsertKeepsSorted(key: SortKey, collate: (string, string) -> int, x: Movie, s: seq<Movie>)
    requires Consistent(key, collate)
    requires Sorted(key, collate, s)
    ensures Sorted(key, collate, Insert(key, collate, x, s))
  {
    if s == [] {
    } else if InOrder(key, collate, x, s[0]) {
      forall k | 0 <= k < |s| ensures InOrder(key, collate, x, s[k]) {
        if k > 0 { InOrderTransitive(key, collate, x, s[0], s[k]); }
      }
    } else {
      InOrderTotal(key, collate, x, s[0]);
      InsertKeepsSorted(key, collate, x, s[1..]);
      InsertKeepsLowerBound(key, collate, s[0], x, s[1..]);
      var r := Insert(key, collate, x, s);
      var t := Insert(key, collate, x, s[1..]);
      assert r == [s[0]] + t;
      forall i, j | 0 <= i < j < |r| ensures InOrder(key, collate, r[i], r[j]) {
        if i > 0 {
          assert r[i] == t[i - 1] && r[j] == t[j - 1];
        } else {
          assert r[j] == t[j - 1];
        }
      }
    }
  }

  /** With a consistent comparator the result is in non-decreasing order:
      by collation of titles, or by year. */
  lemma {:induction false} SortMoviesSorted(s: seq<Movie>, key: SortKey, collate: (string, string) -> int)
    requires Consistent(key, collate)
    ensures Sorted(key, collate, SortMovies(s, key, collate))
  {
    if s != [] {
      SortMoviesSorted(s[1..], key, collate);
      InsertKeepsSorted(key, collate, s[0], SortMovies(s[1..], key, collate));
    }
  }

  /** `a` and `b` compare equal: each may stay before the other. */
  predicate Tied(key: SortKey, collate: (string, string) -> int, a: Movie, b: Movie)
  {
    InOrder(key, collate, a, b) && InOrder(key, collate, b, a)
  }

  /** The movies of `s` that compare equal to `m`, in their order in `s`. */
  function TiesWith(key: SortKey, collate: (string, string) -> int, m: Movie, s: seq<Movie>): (r: seq<Movie>)
    ensures |r| <= |s|
  {
    if s == [] then []
    else if Tied(key, collate, s[0], m) then [s[0]] + TiesWith(key, collate, m, s[1..])
    else TiesWith(key, collate, m, s[1..])
  }

  /** Inserting `x` puts it before every movie it ties with, and moves
      nothing else relative to those. */
  lemma {:induction false} InsertTies(key: SortKey, collate: (string, string) -> int, m: Movie, x: Movie, s: seq<Movie>)
    requires Consistent(key, collate)
    ensures TiesWith(key, collate, m, Insert(key, collate, x, s))
         == (if Tied(key, collate, x, m) then [x] else []) + TiesWith(key, collate, m, s)
  {
    if s == [] {
    } else if InOrder(key, collate, x, s[0]) {
      assert ([x] + s)[1..] == s;
    } else {
      InsertTies(key, collate, m, x, s[1..]);
      var r := Insert(key, collate, x, s);
      assert r[0] == s[0] && r[1..] == Insert(key, collate, x, s[1..]);
      if Tied(key, collate, x, m) && Tied(key, collate, s[0], m) {
        InOrderTransitive(key, collate, x, m, s[0]);
        assert false;
      }
    }
  }

  /** Stability: the movies that compare equal to any given movie come out
      of the sort in the order they went in. */
  lemma {:induction false} SortMoviesStable(s: seq<Movie>, key: SortKey, collate: (string, string) -> int, m: Movie)
    requires Consistent(key, collate)
    ensures TiesWith(key, collate, m, SortMovies(s, key, collate)) == TiesWith(key, collate, m, s)
  {
    if s != [] {
      SortMoviesStable(s[1..], key, collate, m);
      InsertTies(key, collate, m, s[0], SortMovies(s[1..], key, collate));
    }
  }

  /** Sorting by year: the years of the result never decrease. */
  lemma SortByYearNondecreasing(s: seq<Movie>, collate: (string, string) -> int)
    ensures forall i, j | 0 <= i < j < |SortMovies(s, ByYear, collate)| ::
      SortMovies(s, ByYear, collate)[i].year <= SortMovies(s, ByYear, collate)[j].year
  {
    SortMoviesSorted(s, ByYear, collate);
  }
}
