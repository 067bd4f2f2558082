/** The movie record, the partial record an update carries, and the object-spread merge. */
module Movies {
  import opened Wrappers

  /** One element of the stored JSON array. `imdbRating` is kept in tenths of a point
      (9.5 is 95); an absent optional field is `None`. */
  datatype Movie = Movie(
    id: string,
    title: string,
    year: int,
    genre: Option<string>,
    director: Option<string>,
    actors: Option<string>,
    plot: Option<string>,
    imdbRating: Option<int>,
    runtimeMinutes: Option<int>)

  /** The body of an update: the fields the caller supplied. */
  datatype Patch = Patch(
    id: Option<string>,
    title: Option<string>,
    year: Option<int>,
    genre: Option<string>,
    director: Option<string>,
    actors: Option<string>,
    plot: Option<string>,
    imdbRating: Option<int>,
    runtimeMinutes: Option<int>)

  const NoChanges := Patch(None, None, None, None, None, None, None, None, None)

  /** A JavaScript number used as a condition: `0` and a missing value are falsy. */
  function Truthy(v: Option<int>): (r: Option<int>)
    ensures r.Some? <==> v.Some? && v.value != 0
    ensures r.Some? ==> r == v
  {
    if v.Some? && v.value != 0 then v else None
  }

  function Pick<T>(supplied: Option<T>, current: T): T
  {
    if supplied.Some? then supplied.value else current
  }

  function PickOptional<T>(supplied: Option<T>, current: Option<T>): Option<T>
  {
    if supplied.Some? then supplied else current
  }

  /** `{ ...m, ...patch }`: every supplied field overwrites, every other field is kept. */
  function Merge(m: Movie, patch: Patch): Movie
  {
    Movie(
      Pick(patch.id, m.id),
      Pick(patch.title, m.title),
      Pick(patch.year, m.year),
      PickOptional(patch.genre, m.genre),
      PickOptional(patch.director, m.director),
      PickOptional(patch.actors, m.actors),
      PickOptional(patch.plot, m.plot),
      PickOptional(patch.imdbRating, m.imdbRating),
      PickOptional(patch.runtimeMinutes, m.runtimeMinutes))
  }

  /** `{ ...p, ...q }` on two patches: the later one wins field by field. */
  function Combine(p: Patch, q: Patch): Patch
  {
    Patch(
      PickOptional(q.id, p.id),
      PickOptional(q.title, p.title),
      PickOptional(q.year, p.year),
      PickOptional(q.genre, p.genre),
      PickOptional(q.director, p.director),
      PickOptional(q.actors, p.actors),
      PickOptional(q.plot, p.plot),
      PickOptional(q.imdbRating, p.imdbRating),
      PickOptional(q.runtimeMinutes, p.runtimeMinutes))
  }

  /** The merged record takes what the patch supplies and keeps everything else. */
  lemma MergeFields(m: Movie, patch: Patch)
    ensures Merge(m, patch).id == (if patch.id.Some? then patch.id.value else m.id)
    ensures Merge(m, patch).title == (if patch.title.Some? then patch.title.value else m.title)
    ensures Merge(m, patch).year == (if patch.year.Some? then patch.year.value else m.year)
    ensures patch.genre.Some? ==> Merge(m, patch).genre == patch.genre
    ensures patch.genre.None? ==> Merge(m, patch).genre == m.genre
    ensures patch.director.Some? ==> Merge(m, patch).director == patch.director
    ensures patch.director.None? ==> Merge(m, patch).director == m.director
    ensures patch.actors.Some? ==> Merge(m, patch).actors == patch.actors
    ensures patch.actors.None? ==> Merge(m, patch).actors == m.actors
    ensures patch.plot.Some? ==> Merge(m, patch).plot == patch.plot
    ensures patch.plot.None? ==> Merge(m, patch).plot == m.plot
    ensures patch.imdbRating.Some? ==> Merge(m, patch).imdbRating == patch.imdbRating
    ensures patch.imdbRating.None? ==> Merge(m, patch).imdbRating == m.imdbRating
    ensures patch.runtimeMinutes.Some? ==> Merge(m, patch).runtimeMinutes == patch.runtimeMinutes
    ensures patch.runtimeMinutes.None? ==> Merge(m, patch).runtimeMinutes == m.runtimeMinutes
  {
  }

  /** An empty patch changes nothing, and applying a patch twice is applying it once. */
  lemma MergeEmptyAndIdempotent(m: Movie, patch: Patch)
    ensures Merge(m, NoChanges) == m
    ensures Merge(Merge(m, patch), patch) == Merge(m, patch)
  {
  }

  /** Two successive updates equal one update with the combined patch. */
  lemma MergeCombine(m: Movie, p: Patch, q: Patch)
    ensures Merge(Merge(m, p), q) == Merge(m, Combine(p, q))
  {
  }
}
