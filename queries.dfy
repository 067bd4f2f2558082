/** The lookups, the filter predicates and the collection rewrites of `MovieService`,
    as pure functions over the loaded collection. */
module MovieQueries {
  import opened Wrappers
  import opened Seqs
  import opened Text
  import opened Movies

  /** `findIndex((movie) => movie.id === id)`, with `None` for `-1`. */
  function FindIndex(ms: seq<Movie>, id: string): (r: Option<nat>)
    ensures r.None? <==> forall i :: 0 <= i < |ms| ==> ms[i].id != id
    ensures r.Some? ==> r.value < |ms| && ms[r.value].id == id
    ensures r.Some? ==> forall j :: 0 <= j < r.value ==> ms[j].id != id
    decreases |ms|
  {
    if ms == [] then None
    else if ms[0].id == id then Some(0)
    else
      var rest := FindIndex(ms[1..], id);
      assert forall i :: 1 <= i < |ms| ==> ms[i] == ms[1..][i - 1];
      if rest.None? then None else Some(rest.value + 1)
  }

  /** `getMovieById`: the first record whose id equals `id` exactly, or `None` (`null`). */
  function FindById(ms: seq<Movie>, id: string): (r: Option<Movie>)
    ensures r.None? <==> forall i :: 0 <= i < |ms| ==> ms[i].id != id
    ensures r.Some? ==> exists i :: 0 <= i < |ms| && ms[i] == r.value && r.value.id == id &&
                                    forall j :: 0 <= j < i ==> ms[j].id != id
  {
    var k := FindIndex(ms, id);
    if k.None? then None else Some(ms[k.value])
  }

  function HasId(id: string): Movie -> bool
  {
    (m: Movie) => m.id == id
  }

  function LacksId(id: string): Movie -> bool
  {
    (m: Movie) => m.id != id
  }

  /** `movie.imdb_rating >= rating`: a record without a rating never qualifies. */
  function RatedAtLeast(rating: int): Movie -> bool
  {
    (m: Movie) => m.imdbRating.Some? && m.imdbRating.value >= rating
  }

  /** `movie.year === year`; `None` stands for a `NaN` argument, which equals nothing. */
  function ReleasedIn(year: Option<int>): Movie -> bool
  {
    (m: Movie) => year == Some(m.year)
  }

  function ReleasedBetween(fromYear: int, toYear: int): Movie -> bool
  {
    (m: Movie) => fromYear <= m.year <= toYear
  }

  /** A present, non-zero `runtime_minutes` of at least `minDuration`; a `NaN` bound admits nothing. */
  function RunsAtLeast(minDuration: Option<int>): Movie -> bool
  {
    (m: Movie) => Truthy(m.runtimeMinutes).Some? && minDuration.Some? && m.runtimeMinutes.value >= minDuration.value
  }

  /** `title` occurs in the record's title, ignoring case. */
  predicate TitleMentions(m: Movie, title: string)
  {
    Contains(ToLower(m.title), ToLower(title))
  }

  function TitleAndYearMatch(title: string, year: Option<int>): Movie -> bool
  {
    (m: Movie) => TitleMentions(m, title) && year == Some(m.year)
  }

  /** `getMoviesByMinRating`. */
  function MoviesByMinRating(ms: seq<Movie>, rating: int): (r: seq<Movie>)
    ensures ExactlySelects(r, ms, RatedAtLeast(rating))
    ensures forall m :: m in r <==> m in ms && m.imdbRating.Some? && m.imdbRating.value >= rating
  {
    FilterSelects(ms, RatedAtLeast(rating));
    SelectedMembers(Filter(ms, RatedAtLeast(rating)), ms, RatedAtLeast(rating));
    Filter(ms, RatedAtLeast(rating))
  }

  /** `getMoviesByYear`, with `parseInt(year)` supplied as `year`. */
  function MoviesByYear(ms: seq<Movie>, year: Option<int>): (r: seq<Movie>)
    ensures ExactlySelects(r, ms, ReleasedIn(year))
    ensures forall m :: m in r <==> m in ms && year == Some(m.year)
    ensures year.None? ==> r == []
  {
    FilterSelects(ms, ReleasedIn(year));
    SelectedMembers(Filter(ms, ReleasedIn(year)), ms, ReleasedIn(year));
    Filter(ms, ReleasedIn(year))
  }

  /** `getMoviesByYearRange`, with `parseInt` of either bound supplied as an `Option`. */
  function MoviesByYearRange(ms: seq<Movie>, fromYear: Option<int>, toYear: Option<int>): (r: seq<Movie>)
    ensures fromYear.None? || toYear.None? ==> r == []
    ensures fromYear.Some? && toYear.Some? ==>
              ExactlySelects(r, ms, ReleasedBetween(fromYear.value, toYear.value))
    ensures fromYear.Some? && toYear.Some? ==>
              forall m :: m in r <==> m in ms && fromYear.value <= m.year <= toYear.value
    ensures fromYear.Some? && toYear.Some? && fromYear.value > toYear.value ==> r == []
  {
    if fromYear.None? || toYear.None? then []
    else
      var p := ReleasedBetween(fromYear.value, toYear.value);
      FilterSelects(ms, p);
      SelectedMembers(Filter(ms, p), ms, p);
      Filter(ms, p)
  }

  /** `getMoviesByMinDuration`, with `parseInt(minDuration)` supplied as `minDuration`. */
  function MoviesByMinDuration(ms: seq<Movie>, minDuration: Option<int>): (r: seq<Movie>)
    ensures ExactlySelects(r, ms, RunsAtLeast(minDuration))
    ensures forall m :: m in r <==> m in ms && m.runtimeMinutes.Some? && m.runtimeMinutes.value != 0 &&
                                    minDuration.Some? && m.runtimeMinutes.value >= minDuration.value
  {
    FilterSelects(ms, RunsAtLeast(minDuration));
    SelectedMembers(Filter(ms, RunsAtLeast(minDuration)), ms, RunsAtLeast(minDuration));
    Filter(ms, RunsAtLeast(minDuration))
  }

  /** `getMoviesByTitleAndYear`: case-insensitive title substring AND exact year. */
  function MoviesByTitleAndYear(ms: seq<Movie>, title: string, year: Option<int>): (r: seq<Movie>)
    ensures ExactlySelects(r, ms, TitleAndYearMatch(title, year))
    ensures forall m :: m in r <==> m in ms && TitleMentions(m, title) && year == Some(m.year)
  {
    FilterSelects(ms, TitleAndYearMatch(title, year));
    SelectedMembers(Filter(ms, TitleAndYearMatch(title, year)), ms, TitleAndYearMatch(title, year));
    Filter(ms, TitleAndYearMatch(title, year))
  }

  /** The collection `updateMovie` writes: `None` when no record has `id`, otherwise the
      first record with `id` overlaid by `patch` and every other record as it was. */
  function UpdatedCollection(ms: seq<Movie>, id: string, patch: Patch): (r: Option<seq<Movie>>)
    ensures r.None? <==> forall i :: 0 <= i < |ms| ==> ms[i].id != id
    ensures r.Some? ==> |r.value| == |ms|
    ensures r.Some? ==> forall i :: 0 <= i < |ms| ==>
              r.value[i] == if i == FindIndex(ms, id).value then Merge(ms[i], patch) else ms[i]
  {
    var k := FindIndex(ms, id);
    if k.None? then None else Some(ms[k.value := Merge(ms[k.value], patch)])
  }

  /** The collection `deleteMovie` writes: every record with `id` removed, order kept. */
  function RemoveId(ms: seq<Movie>, id: string): (r: seq<Movie>)
    ensures ExactlySelects(r, ms, LacksId(id))
    ensures forall i :: 0 <= i < |r| ==> r[i].id != id
    ensures |r| == |ms| <==> forall i :: 0 <= i < |ms| ==> ms[i].id != id
  {
    FilterSelects(ms, LacksId(id));
    FilterKeepsAllIff(ms, LacksId(id));
    Filter(ms, LacksId(id))
  }

  /** After a create, looking the new id up finds the new record unless an earlier one
      already had that id. */
  lemma CreateThenFind(ms: seq<Movie>, m: Movie)
    ensures FindById(ms + [m], m.id) == if FindById(ms, m.id).Some? then FindById(ms, m.id) else Some(m)
  {
    var k := FindIndex(ms, m.id);
    var k' := FindIndex(ms + [m], m.id);
    assert forall i :: 0 <= i < |ms| ==> (ms + [m])[i] == ms[i];
    if k.Some? {
      assert k' == k;
    } else {
      assert (ms + [m])[|ms|] == m;
      assert k'.Some?;
      assert k' == Some(|ms|);
    }
  }

  /** After a delete no record with that id is left. */
  lemma DeleteThenFind(ms: seq<Movie>, id: string)
    ensures FindById(RemoveId(ms, id), id).None?
  {
  }

  /** A delete removes exactly as many records as had the id; with unique ids, one. */
  lemma DeleteShrinksByMatches(ms: seq<Movie>, id: string)
    ensures |RemoveId(ms, id)| == |ms| - |Filter(ms, HasId(id))|
    ensures |Filter(ms, HasId(id))| == 1 ==> |RemoveId(ms, id)| == |ms| - 1
  {
    FilterSplitsLength(ms, LacksId(id), HasId(id));
  }

  /** After an update that keeps the id, looking it up finds the merged record. */
  lemma UpdateThenFind(ms: seq<Movie>, id: string, patch: Patch)
    requires patch.id.None? || patch.id.value == id
    ensures var r := UpdatedCollection(ms, id, patch);
            r.Some? ==> FindById(r.value, id) == Some(Merge(ms[FindIndex(ms, id).value], patch))
  {
    var r := UpdatedCollection(ms, id, patch);
    if r.Some? {
      var k := FindIndex(ms, id).value;
      assert r.value[k].id == id;
      assert FindIndex(r.value, id) == Some(k);
    }
  }

  /** The title test ignores case on both sides. */
  lemma TitleMatchIgnoresCase(m: Movie, title: string)
    ensures TitleMentions(m, ToLower(title)) == TitleMentions(m, title)
    ensures TitleMentions(m.(title := ToLower(m.title)), title) == TitleMentions(m, title)
  {
    ToLowerIdempotent(title);
    ToLowerIdempotent(m.title);
  }
}
