/**
 * A catalog record and the two payloads the request validators produce: a full
 * record for creation and a partial one for update. Both are merged into a record
 * with object-spread semantics: a key present in the payload wins.
 */
module Movies {
  import opened Wrappers

  /** One catalog entry. `rating` is a JavaScript number; it is only stored and copied. */
  datatype Movie = Movie(
    id: string,
    title: string,
    year: int,
    director: string,
    duration: int,
    poster: string,
    rating: real,
    genre: seq<string>)

  /**
   * The fields of a successful full validation. The schema itself is not part of
   * this model, so the payload may or may not carry an `id`; when it does, the
   * spread in the creation handler lets it override the generated one.
   */
  datatype MovieData = MovieData(
    id: Option<string>,
    title: string,
    year: int,
    director: string,
    duration: int,
    poster: string,
    rating: real,
    genre: seq<string>)

  /** The fields of a successful partial validation: every key may be absent. */
  datatype MoviePatch = MoviePatch(
    id: Option<string>,
    title: Option<string>,
    year: Option<int>,
    director: Option<string>,
    duration: Option<int>,
    poster: Option<string>,
    rating: Option<real>,
    genre: Option<seq<string>>)

  /** A validation issue as the schema library reports it: a field path and a reason. */
  datatype Issue = Issue(path: seq<string>, message: string)

  /** The outcome of a validator: the validated fields or the list of issues. */
  datatype Validation<T> = Valid(data: T) | Invalid(issues: seq<Issue>)

  /** The empty partial payload: a valid no-op update. */
  const NoChange: MoviePatch := MoviePatch(None, None, None, None, None, None, None, None)

  /** The fields of a record without its identifier, as a payload carrying no id. */
  function WithoutId(m: Movie): (d: MovieData)
    ensures d.id == None
  {
    MovieData(None, m.title, m.year, m.director, m.duration, m.poster, m.rating, m.genre)
  }

  /**
   * `{ id: newId, ...data }`: the record the creation handler builds. A payload
   * without an id yields exactly its own fields under the new id.
   */
  function NewRecord(newId: string, d: MovieData): (m: Movie)
    ensures d.id == None ==> m.id == newId && WithoutId(m) == d
    ensures d.id != None ==> m.id == d.id.value
    ensures WithoutId(m) == d.(id := None)
  {
    Movie(d.id.GetOr(newId), d.title, d.year, d.director, d.duration, d.poster, d.rating, d.genre)
  }

  /** Splitting a record into id and fields and building it again gives it back. */
  lemma RecordRoundTrip(m: Movie)
    ensures NewRecord(m.id, WithoutId(m)) == m
  {
  }

  /** `{ ...m, ...p }`: the shallow merge the update handler performs. */
  function Merge(m: Movie, p: MoviePatch): (r: Movie)
    ensures p.id == None ==> r.id == m.id
  {
    Movie(
      p.id.GetOr(m.id),
      p.title.GetOr(m.title),
      p.year.GetOr(m.year),
      p.director.GetOr(m.director),
      p.duration.GetOr(m.duration),
      p.poster.GetOr(m.poster),
      p.rating.GetOr(m.rating),
      p.genre.GetOr(m.genre))
  }

  /** `{ ...p, ...q }`: two partial payloads spread one after the other. */
  function Combine(p: MoviePatch, q: MoviePatch): (r: MoviePatch)
    ensures q == NoChange ==> r == p
    ensures p == NoChange ==> r == q
  {
    MoviePatch(
      if q.id.Some? then q.id else p.id,
      if q.title.Some? then q.title else p.title,
      if q.year.Some? then q.year else p.year,
      if q.director.Some? then q.director else p.director,
      if q.duration.Some? then q.duration else p.duration,
      if q.poster.Some? then q.poster else p.poster,
      if q.rating.Some? then q.rating else p.rating,
      if q.genre.Some? then q.genre else p.genre)
  }

  /**
   * Field by field: a key present in the payload takes the payload's value, an
   * absent key keeps the record's value.
   */
  lemma MergeFieldwise(m: Movie, p: MoviePatch)
    ensures p.title.Some? ==> Merge(m, p).title == p.title.value
    ensures p.title.None? ==> Merge(m, p).title == m.title
    ensures p.year.Some? ==> Merge(m, p).year == p.year.value
    ensures p.year.None? ==> Merge(m, p).year == m.year
    ensures p.director.Some? ==> Merge(m, p).director == p.director.value
    ensures p.director.None? ==> Merge(m, p).director == m.director
    ensures p.duration.Some? ==> Merge(m, p).duration == p.duration.value
    ensures p.duration.None? ==> Merge(m, p).duration == m.duration
    ensures p.poster.Some? ==> Merge(m, p).poster == p.poster.value
    ensures p.poster.None? ==> Merge(m, p).poster == m.poster
    ensures p.rating.Some? ==> Merge(m, p).rating == p.rating.value
    ensures p.rating.None? ==> Merge(m, p).rating == m.rating
    ensures p.genre.Some? ==> Merge(m, p).genre == p.genre.value
    ensures p.genre.None? ==> Merge(m, p).genre == m.genre
    ensures p.id.Some? ==> Merge(m, p).id == p.id.value
    ensures p.id.None? ==> Merge(m, p).id == m.id
  {
  }

  /** The empty payload leaves a record as it is. */
  lemma MergeNoChange(m: Movie)
    ensures Merge(m, NoChange) == m
  {
  }

  /** Applying the same payload twice is the same as applying it once. */
  lemma MergeIdempotent(m: Movie, p: MoviePatch)
    ensures Merge(Merge(m, p), p) == Merge(m, p)
  {
  }

  /** Two updates in a row equal one update with the combined payload. */
  lemma MergeCombine(m: Movie, p: MoviePatch, q: MoviePatch)
    ensures Merge(Merge(m, p), q) == Merge(m, Combine(p, q))
  {
  }
}
