/**
  The search step of the dashboard's derived list: keep the movies whose
  case-folded title contains the case-folded search text.
*/
module Search {
  import opened Movies

  /** `pat` occurs in `text` starting at offset `i`. */
  predicate OccursAt(text: string, pat: string, i: int)
  {
    0 <= i && i + |pat| <= |text| && text[i..i + |pat|] == pat
  }

  /** `text.includes(pat)`: try every offset from the left. */
  predicate Includes(text: string, pat: string): (b: bool)
    ensures b ==> |pat| <= |text|
    ensures pat == [] ==> b
    decreases |text|
  {
    pat <= text || (text != [] && Includes(text[1..], pat))
  }

  /** `Includes` holds exactly when `pat` occurs in `text` at some offset. */
  lemma {:induction false} IncludesIffOccurs(text: string, pat: string)
    ensures Includes(text, pat) <==> exists i :: OccursAt(text, pat, i)
    decreases |text|
  {
    if pat <= text {
      assert OccursAt(text, pat, 0);
    } else if text == [] {
      forall i ensures !OccursAt(text, pat, i) {
      }
    } else {
      IncludesIffOccurs(text[1..], pat);
      forall i | OccursAt(text, pat, i) ensures OccursAt(text[1..], pat, i - 1) {
        assert text[1..][i - 1..i - 1 + |pat|] == text[i..i + |pat|];
      }
      forall i | OccursAt(text[1..], pat, i) ensures OccursAt(text, pat, i + 1) {
        assert text[i + 1..i + 1 + |pat|] == text[1..][i..i + |pat|];
      }
    }
  }

  /** The filter callback: the lowered title contains the lowered query. */
  predicate Matches(m: Movie, query: string, lower: string -> string): (b: bool)
    ensures b ==> |lower(query)| <= |lower(m.title)|
    ensures lower(query) == [] ==> b
  {
    Includes(lower(m.title), lower(query))
  }

  /** `movies.filter(...)`: the matching movies, in their original order. */
  function FilterByTitle(movies: seq<Movie>, query: string, lower: string -> string): (r: seq<Movie>)
    ensures |r| <= |movies|
    ensures forall i | 0 <= i < |r| :: Matches(r[i], query, lower)
    ensures multiset(r) <= multiset(movies)
  {
    if movies == [] then []
    else
      assert movies == [movies[0]] + movies[1..];
      var rest := FilterByTitle(movies[1..], query, lower);
      if Matches(movies[0], query, lower) then [movies[0]] + rest else rest
  }

  /** Every movie is kept exactly as many times as it occurs in `movies` when
      it matches, and dropped altogether when it does not. */
  lemma {:induction false} FilterKeepsExactlyMatches(movies: seq<Movie>, query: string, lower: string -> string, m: Movie)
    ensures multiset(FilterByTitle(movies, query, lower))[m]
         == if Matches(m, query, lower) then multiset(movies)[m] else 0
  {
    if movies != [] {
      assert movies == [movies[0]] + movies[1..];
      FilterKeepsExactlyMatches(movies[1..], query, lower, m);
    }
  }

  /** The filter works element by element: filtering a concatenation
      filters each part, so kept movies keep their relative order. */
  lemma {:induction false} FilterDistributes(a: seq<Movie>, b: seq<Movie>, query: string, lower: string -> string)
    ensures FilterByTitle(a + b, query, lower) == FilterByTitle(a, query, lower) + FilterByTitle(b, query, lower)
  {
    if a == [] {
      assert a + b == b;
    } else {
      var ab := a + b;
      assert ab != [] && ab[0] == a[0] && ab[1..] == a[1..] + b;
      FilterDistributes(a[1..], b, query, lower);
      var head := if Matches(a[0], query, lower) then [a[0]] else [];
      assert FilterByTitle(a, query, lower) == head + FilterByTitle(a[1..], query, lower);
      assert FilterByTitle(ab, query, lower) == head + FilterByTitle(ab[1..], query, lower);
    }
  }

  /** A sub-multiset of a list of matches holds only matches. */
  lemma AllMatch(r: seq<Movie>, f: seq<Movie>, query: string, lower: string -> string)
    requires multiset(r) <= multiset(f)
    requires forall i | 0 <= i < |f| :: Matches(f[i], query, lower)
    ensures forall i | 0 <= i < |r| :: Matches(r[i], query, lower)
  {
    forall i | 0 <= i < |r| ensures Matches(r[i], query, lower) {
      assert r[i] in multiset(r);
      assert r[i] in f;
      var j :| 0 <= j < |f| && f[j] == r[i];
    }
  }

  /** Membership form of the above: a movie is in the filtered list iff it is
      in `movies` and matches the search. */
  lemma FilterMembership(movies: seq<Movie>, query: string, lower: string -> string, m: Movie)
    ensures m in FilterByTitle(movies, query, lower) <==> m in movies && Matches(m, query, lower)
  {
    FilterKeepsExactlyMatches(movies, query, lower, m);
    assert m in FilterByTitle(movies, query, lower) <==> m in multiset(FilterByTitle(movies, query, lower));
    assert m in movies <==> m in multiset(movies);
  }

  /** With the initial, empty search text every movie is kept, in order
      (given a case fold that maps "" to ""). */
  lemma {:induction false} EmptySearchKeepsAll(movies: seq<Movie>, lower: string -> string)
    requires lower("") == ""
    ensures FilterByTitle(movies, "", lower) == movies
  {
    if movies != [] {
      EmptySearchKeepsAll(movies[1..], lower);
      assert Matches(movies[0], "", lower);
    }
  }
}
