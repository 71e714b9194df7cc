/**
 * The pure queries the route handlers run over the catalog array: the genre
 * filter (`filter` with `some` and `toLowerCase`), `find` and `findIndex` by
 * exact id, and the one-element `splice` the deletion handler performs.
 */
module Catalog {
  import opened Wrappers
  import opened Movies

  // ---------------------------------------------------------------------------
  // Lower-casing (ASCII)
  // ---------------------------------------------------------------------------

  function LowerChar(c: char): (r: char)
    ensures 'A' <= c <= 'Z' ==> r as int == c as int + 32
    ensures !('A' <= c <= 'Z') ==> r == c
    ensures !('A' <= r <= 'Z')
  {
    if 'A' <= c <= 'Z' then (c as int + 32) as char else c
  }

  /** `toLowerCase`, restricted to the ASCII letters. */
  function Lower(s: string): (r: string)
    ensures |r| == |s|
    ensures forall k :: 0 <= k < |s| ==> r[k] == LowerChar(s[k])
  {
    seq(|s|, k requires 0 <= k < |s| => LowerChar(s[k]))
  }

  /** Lower-casing twice is lower-casing once. */
  lemma LowerIdempotent(s: string)
    ensures Lower(Lower(s)) == Lower(s)
  {
  }

  // ---------------------------------------------------------------------------
  // The genre filter
  // ---------------------------------------------------------------------------

  /** `gs.some(g => g.toLowerCase() === lowered)`. */
  function AnyGenre(gs: seq<string>, lowered: string): (b: bool)
    ensures b <==> exists k :: 0 <= k < |gs| && Lower(gs[k]) == lowered
  {
    if gs == [] then false
    else if Lower(gs[0]) == lowered then true
    else
      var b := AnyGenre(gs[1..], lowered);
      assert forall k :: 1 <= k < |gs| ==> gs[k] == gs[1..][k - 1];
      b
  }

  /** A record is listed under `genre` when one of its genres equals it ignoring case. */
  predicate HasGenre(m: Movie, genre: string): (b: bool)
    ensures b <==> exists k :: 0 <= k < |m.genre| && Lower(m.genre[k]) == Lower(genre)
  {
    AnyGenre(m.genre, Lower(genre))
  }

  /**
   * `movies.filter(movie => movie.genre.some(...))`: the matching records,
   * drawn from the catalog.
   */
  function FilterByGenre(movies: seq<Movie>, genre: string): (r: seq<Movie>)
    ensures forall k :: 0 <= k < |r| ==> HasGenre(r[k], genre)
    ensures forall m :: m in movies && HasGenre(m, genre) ==> m in r
    ensures multiset(r) <= multiset(movies)
  {
    if movies == [] then []
    else
      var rest := FilterByGenre(movies[1..], genre);
      assert movies == [movies[0]] + movies[1..];
      if HasGenre(movies[0], genre) then [movies[0]] + rest else rest
  }

  /** `a` is `b` with some elements left out, the rest in their order. */
  predicate IsSubsequence(a: seq<Movie>, b: seq<Movie>)
    decreases |b|
  {
    a == [] ||
    (b != [] &&
      ((a[0] == b[0] && IsSubsequence(a[1..], b[1..])) || IsSubsequence(a, b[1..])))
  }

  /** The filter keeps the catalog order. */
  lemma {:induction false} FilterIsSubsequence(movies: seq<Movie>, genre: string)
    ensures IsSubsequence(FilterByGenre(movies, genre), movies)
  {
    if movies != [] {
      FilterIsSubsequence(movies[1..], genre);
      var r := FilterByGenre(movies, genre);
      if HasGenre(movies[0], genre) {
        assert r[1..] == FilterByGenre(movies[1..], genre);
      }
    }
  }

  /** Each matching record appears as often as in the catalog, others not at all. */
  lemma {:induction false} FilterMultiplicity(movies: seq<Movie>, genre: string, m: Movie)
    ensures multiset(FilterByGenre(movies, genre))[m] ==
            if HasGenre(m, genre) then multiset(movies)[m] else 0
  {
    if movies != [] {
      FilterMultiplicity(movies[1..], genre, m);
      assert movies == [movies[0]] + movies[1..];
    }
  }

  /** A subsequence holds no value more often than the sequence it is drawn from. */
  lemma {:induction false} SubsequenceCount(a: seq<Movie>, b: seq<Movie>, m: Movie)
    requires IsSubsequence(a, b)
    ensures multiset(a)[m] <= multiset(b)[m]
    decreases |b|
  {
    if a != [] {
      assert b == [b[0]] + b[1..];
      if a[0] == b[0] && IsSubsequence(a[1..], b[1..]) {
        SubsequenceCount(a[1..], b[1..], m);
        assert a == [a[0]] + a[1..];
      } else {
        SubsequenceCount(a, b[1..], m);
      }
    }
  }

  /**
   * The filter's result is the ONLY order-preserving selection from the catalog
   * that holds every matching record as often as the catalog does and nothing
   * else: it is exactly the matching records, in catalog order.
   */
  lemma {:induction false} FilterIsExact(movies: seq<Movie>, genre: string, r: seq<Movie>)
    requires IsSubsequence(r, movies)
    requires forall m :: multiset(r)[m] == if HasGenre(m, genre) then multiset(movies)[m] else 0
    ensures r == FilterByGenre(movies, genre)
    decreases |movies|
  {
    if movies == [] {
      assert r == [];
    } else {
      var x, t := movies[0], movies[1..];
      assert movies == [x] + t;
      if HasGenre(x, genre) {
        assert multiset(r)[x] == multiset(t)[x] + 1;
        if !(r != [] && r[0] == x && IsSubsequence(r[1..], t)) {
          SubsequenceCount(r, t, x);
          assert false;
        }
        assert r == [x] + r[1..];
        forall m
          ensures multiset(r[1..])[m] == if HasGenre(m, genre) then multiset(t)[m] else 0
        {
          assert multiset(r)[m] == multiset(r[1..])[m] + (if m == x then 1 else 0);
        }
        FilterIsExact(t, genre, r[1..]);
      } else {
        assert multiset(r)[x] == 0;
        if r != [] {
          assert r[0] in multiset(r);
          assert r[0] != x;
        }
        assert IsSubsequence(r, t);
        forall m
          ensures multiset(r)[m] == if HasGenre(m, genre) then multiset(t)[m] else 0
        {
          if HasGenre(m, genre) {
            assert m != x;
          }
        }
        FilterIsExact(t, genre, r);
      }
    }
  }

  /** A genre carried by no record yields an empty listing. */
  lemma NoMatchYieldsEmpty(movies: seq<Movie>, genre: string)
    requires forall k :: 0 <= k < |movies| ==> !HasGenre(movies[k], genre)
    ensures FilterByGenre(movies, genre) == []
  {
  }

  /** The requested genre is compared ignoring case. */
  lemma FilterIgnoresCase(movies: seq<Movie>, genre: string)
    ensures FilterByGenre(movies, Lower(genre)) == FilterByGenre(movies, genre)
  {
    LowerIdempotent(genre);
  }

  /** Appending a record extends the listing of every genre it matches, at the end. */
  lemma {:induction false} FilterAppend(movies: seq<Movie>, genre: string, m: Movie)
    ensures FilterByGenre(movies + [m], genre) ==
            FilterByGenre(movies, genre) + (if HasGenre(m, genre) then [m] else [])
  {
    if movies == [] {
      assert [] + [m] == [m];
      assert [m][1..] == [];
    } else {
      assert (movies + [m])[1..] == movies[1..] + [m];
      FilterAppend(movies[1..], genre, m);
    }
  }

  /**
   * The listing handler: with a truthy genre query the filtered records,
   * otherwise (no query, or an empty one) the whole catalog.
   */
  function Listing(movies: seq<Movie>, genre: Option<string>): (r: seq<Movie>)
    ensures genre == None || genre == Some("") ==> r == movies
    ensures genre != None && genre != Some("") ==>
              IsSubsequence(r, movies) &&
              forall m :: multiset(r)[m] == if HasGenre(m, genre.value) then multiset(movies)[m] else 0
  {
    if genre.Some? && genre.value != "" then
      FilterIsSubsequence(movies, genre.value);
      forall m ensures multiset(FilterByGenre(movies, genre.value))[m] ==
                       if HasGenre(m, genre.value) then multiset(movies)[m] else 0 {
        FilterMultiplicity(movies, genre.value, m);
      }
      FilterByGenre(movies, genre.value)
    else movies
  }

  // ---------------------------------------------------------------------------
  // Lookup by id
  // ---------------------------------------------------------------------------

  /** `findIndex(movie => movie.id === id)`, with `None` for -1. */
  function FindIndex(movies: seq<Movie>, id: string): (r: Option<nat>)
    ensures r.Some? ==>
              r.value < |movies| && movies[r.value].id == id &&
              forall j :: 0 <= j < r.value ==> movies[j].id != id
    ensures r.None? ==> forall j :: 0 <= j < |movies| ==> movies[j].id != id
  {
    if movies == [] then None
    else if movies[0].id == id then Some(0)
    else
      match FindIndex(movies[1..], id)
      case Some(i) => Some(i + 1)
      case None => None
  }

  /** `find(movie => movie.id === id)`: the first record with exactly that id. */
  function Find(movies: seq<Movie>, id: string): (r: Option<Movie>)
    ensures r.None? <==> forall j :: 0 <= j < |movies| ==> movies[j].id != id
    ensures r.Some? ==>
              exists k :: 0 <= k < |movies| && movies[k] == r.value && r.value.id == id &&
                          forall j :: 0 <= j < k ==> movies[j].id != id
  {
    match FindIndex(movies, id)
    case Some(i) => Some(movies[i])
    case None => None
  }

  /** Ids are pairwise distinct. */
  ghost predicate UniqueIds(movies: seq<Movie>) {
    forall i, j :: 0 <= i < j < |movies| ==> movies[i].id != movies[j].id
  }

  /** No record carries `id`. */
  predicate IdFresh(movies: seq<Movie>, id: string) {
    forall k :: 0 <= k < |movies| ==> movies[k].id != id
  }

  // ---------------------------------------------------------------------------
  // Edits
  // ---------------------------------------------------------------------------

  /** `splice(i, 1)`: the record at `i` removed, the others kept in order. */
  function RemoveAt(movies: seq<Movie>, i: nat): (r: seq<Movie>)
    requires i < |movies|
    ensures |r| == |movies| - 1
    ensures forall j :: 0 <= j < i ==> r[j] == movies[j]
    ensures forall j :: i <= j < |r| ==> r[j] == movies[j + 1]
    ensures multiset(r) + multiset{movies[i]} == multiset(movies)
  {
    assert movies == movies[..i] + [movies[i]] + movies[i + 1..];
    movies[..i] + movies[i + 1..]
  }

  /** Appending a record under a fresh id keeps ids unique and makes it findable. */
  lemma AppendFresh(movies: seq<Movie>, m: Movie)
    requires IdFresh(movies, m.id)
    ensures UniqueIds(movies) ==> UniqueIds(movies + [m])
    ensures Find(movies + [m], m.id) == Some(m)
    ensures FindIndex(movies + [m], m.id) == Some(|movies|)
  {
    var s := movies + [m];
    assert s[|movies|] == m;
    assert forall j :: 0 <= j < |movies| ==> s[j] == movies[j];
    var f := FindIndex(s, m.id);
    assert f.Some? && f.value == |movies|;
  }

  /**
   * With unique ids, removing the record found for `id` leaves no record with
   * that id (a second deletion finds nothing) and keeps ids unique.
   */
  lemma RemoveFound(movies: seq<Movie>, id: string)
    requires UniqueIds(movies)
    requires FindIndex(movies, id).Some?
    ensures FindIndex(RemoveAt(movies, FindIndex(movies, id).value), id) == None
    ensures Find(RemoveAt(movies, FindIndex(movies, id).value), id) == None
    ensures UniqueIds(RemoveAt(movies, FindIndex(movies, id).value))
  {
  }

  /**
   * Replacing the found record by a merge that keeps its id keeps ids unique,
   * and the id then finds the merged record at the same place.
   */
  lemma ReplaceFound(movies: seq<Movie>, id: string, p: MoviePatch)
    requires FindIndex(movies, id).Some?
    requires p.id == None
    ensures var i := FindIndex(movies, id).value;
            var s := movies[i := Merge(movies[i], p)];
            FindIndex(s, id) == Some(i) && Find(s, id) == Some(Merge(movies[i], p)) &&
            (UniqueIds(movies) ==> UniqueIds(s))
  {
    var i := FindIndex(movies, id).value;
    var s := movies[i := Merge(movies[i], p)];
    assert s[i].id == id;
    var f := FindIndex(s, id);
    assert f.Some? && f.value <= i;
  }
}
