/**
 * The route handlers of app.js over the module-level `movies` array, modelled as
 * an explicitly owned store object whose `movies` field the handlers reassign.
 * Each handler reports a small outcome instead of writing an HTTP response.
 */
module Store {
  import opened Wrappers
  import opened Movies
  import opened Catalog

  const NotFoundMessage: string := "Movie not found"
  /** The deletion handler spells its not-found message with a capital F. */
  const DeleteNotFoundMessage: string := "Movie not Found"
  const DeletedMessage: string := "Movie Deleted"

  /** What a handler answers: a body with a success status, 404 or 400. */
  datatype Outcome<T> = Ok(status: int, value: T) | NotFound(message: string) | BadRequest(issues: seq<Issue>) {

    /** The HTTP status code of the response. */
    function Status(): (code: int)
      ensures Ok? ==> code == status
      ensures NotFound? ==> code == 404
      ensures BadRequest? ==> code == 400
    {
      match this
      case Ok(s, _) => s
      case NotFound(_) => 404
      case BadRequest(_) => 400
    }
  }

  class MovieStore {
    /** The catalog, in insertion order. */
    var movies: seq<Movie>

    /** The catalog starts as the seed data. */
    constructor (seed: seq<Movie>)
      ensures movies == seed
    {
      movies := seed;
    }

    /** GET /movies[?genre=...]: exactly the listing, catalog unchanged. */
    method ListMovies(genre: Option<string>) returns (r: seq<Movie>)
      ensures r == Listing(movies, genre)
    {
      r := Listing(movies, genre);
    }

    /** GET /movies/:id: the first record with exactly that id, or 404. */
    method GetMovie(id: string) returns (out: Outcome<Movie>)
      ensures out.Ok? <==> exists k :: 0 <= k < |movies| && movies[k].id == id
      ensures out.Ok? ==> out.status == 200 && Some(out.value) == Find(movies, id)
      ensures out.NotFound? ==> out.message == "Movie not found"
      ensures !out.BadRequest?
      ensures out.Status() == if out.Ok? then 200 else 404
    {
      var found := Find(movies, id);
      if found.Some? {
        out := Ok(200, found.value);
      } else {
        out := NotFound(NotFoundMessage);
      }
    }

    /**
     * POST /movies: an invalid payload is answered with its issues; a valid one
     * becomes a record under `newId` appended at the end.
     */
    method CreateMovie(v: Validation<MovieData>, newId: string) returns (out: Outcome<Movie>)
      requires IdFresh(movies, newId)
      modifies this
      ensures out.Status() == if v.Valid? then 201 else 400
      ensures v.Invalid? ==> out == BadRequest(v.issues) && movies == old(movies)
      ensures v.Valid? ==>
                out == Ok(201, NewRecord(newId, v.data)) &&
                movies == old(movies) + [NewRecord(newId, v.data)]
      ensures v.Valid? && v.data.id == None ==>
                out.value.id == newId && WithoutId(out.value) == v.data &&
                Find(movies, newId) == Some(out.value)
      ensures UniqueIds(old(movies)) && (v.Valid? ==> v.data.id == None) ==> UniqueIds(movies)
    {
      if v.Invalid? {
        return BadRequest(v.issues);
      }
      var created := NewRecord(newId, v.data);
      if v.data.id == None {
        AppendFresh(movies, created);
      }
      movies := movies + [created];
      out := Ok(201, created);
    }

    /**
     * DELETE /movies/:id: 404 when no record has the id; otherwise the first such
     * record is spliced out and the others keep their order.
     */
    method DeleteMovie(id: string) returns (out: Outcome<string>)
      modifies this
      ensures out.Status() == if FindIndex(old(movies), id) == None then 404 else 200
      ensures FindIndex(old(movies), id) == None ==>
                out == NotFound("Movie not Found") && movies == old(movies)
      ensures FindIndex(old(movies), id) != None ==>
                out == Ok(200, "Movie Deleted") &&
                movies == RemoveAt(old(movies), FindIndex(old(movies), id).value)
      ensures FindIndex(old(movies), id) != None && UniqueIds(old(movies)) ==>
                UniqueIds(movies) && FindIndex(movies, id) == None
    {
      var index := FindIndex(movies, id);
      if index == None {
        return NotFound(DeleteNotFoundMessage);
      }
      if UniqueIds(movies) {
        RemoveFound(movies, id);
      }
      movies := RemoveAt(movies, index.value);
      out := Ok(200, DeletedMessage);
    }

    /**
     * PATCH /movies/:id: the payload is validated before the id is looked up;
     * on success the found record is replaced in place by the merge.
     */
    method PatchMovie(v: Validation<MoviePatch>, id: string) returns (out: Outcome<Movie>)
      modifies this
      ensures out.Status() ==
                if v.Invalid? then 400 else if FindIndex(old(movies), id) == None then 404 else 200
      ensures v.Invalid? ==> out == BadRequest(v.issues) && movies == old(movies)
      ensures v.Valid? && FindIndex(old(movies), id) == None ==>
                out == NotFound("Movie not found") && movies == old(movies)
      ensures v.Valid? && FindIndex(old(movies), id) != None ==>
                var i := FindIndex(old(movies), id).value;
                out == Ok(200, Merge(old(movies)[i], v.data)) &&
                movies == old(movies)[i := Merge(old(movies)[i], v.data)]
      ensures v.Valid? && v.data.id == None && FindIndex(old(movies), id) != None ==>
                out.value.id == id && Find(movies, id) == Some(out.value) &&
                (UniqueIds(old(movies)) ==> UniqueIds(movies))
    {
      if v.Invalid? {
        return BadRequest(v.issues);
      }
      var index := FindIndex(movies, id);
      if index == None {
        return NotFound(NotFoundMessage);
      }
      var updated := Merge(movies[index.value], v.data);
      if v.data.id == None {
        ReplaceFound(movies, id, v.data);
      }
      movies := movies[index.value := updated];
      out := Ok(200, updated);
    }
  }
}
