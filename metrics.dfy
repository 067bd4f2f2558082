/** `getMovieMetrics`: the summary computed in one pass over the collection
    plus one pass each for the decade and genre distributions. */
module MovieMetrics {
  import opened Wrappers
  import opened Seqs
  import opened Text
  import opened Movies

  /** The three fields the extremes are taken over. */
  datatype Key = Rating | Runtime | ReleaseYear

  /** Which extreme: the strictly greatest (`>`) or the strictly least (`<`). */
  datatype Direction = Greatest | Least

  /** `{id, title, runtime_minutes}`, `{id, title, year}` or `{id, title, rating}`. */
  datatype Highlight = Highlight(id: string, title: string, value: int)

  datatype Metrics = Metrics(
    totalMovies: nat,
    totalGenres: nat,
    averageRating: real,
    longestMovie: Option<Highlight>,
    shortestMovie: Option<Highlight>,
    newestMovie: Option<Highlight>,
    oldestMovie: Option<Highlight>,
    highestRatedMovie: Option<Highlight>,
    lowestRatedMovie: Option<Highlight>,
    moviesByDecade: map<int, nat>,
    moviesByGenre: map<string, nat>)

  /** The value of `key` when it is truthy (`if (movie.imdb_rating)` and so on). */
  function KeyOf(m: Movie, key: Key): Option<int>
  {
    match key
    case Rating => Truthy(m.imdbRating)
    case Runtime => Truthy(m.runtimeMinutes)
    case ReleaseYear => Truthy(Some(m.year))
  }

  predicate Better(v: int, w: int, d: Direction)
  {
    if d == Greatest then v > w else v < w
  }

  /** `!best || movie[key] > best[key]` (or `<`), inside the truthiness test on `movie[key]`. */
  predicate Replaces(m: Movie, best: Option<Movie>, key: Key, d: Direction)
  {
    KeyOf(m, key).Some? &&
    (best.None? || (KeyOf(best.value, key).Some? && Better(KeyOf(m, key).value, KeyOf(best.value, key).value, d)))
  }

  /** The record held in an extreme slot after visiting `ms` in order. */
  function Extremum(ms: seq<Movie>, key: Key, d: Direction): Option<Movie>
    decreases |ms|
  {
    if ms == [] then None
    else
      var best := Extremum(ms[..|ms| - 1], key, d);
      if Replaces(ms[|ms| - 1], best, key, d) then Some(ms[|ms| - 1]) else best
  }

  function RatedCount(ms: seq<Movie>): nat
    decreases |ms|
  {
    if ms == [] then 0
    else RatedCount(ms[..|ms| - 1]) + (if KeyOf(ms[|ms| - 1], Rating).Some? then 1 else 0)
  }

  /** `totalRating`, in tenths of a point. */
  function RatingSum(ms: seq<Movie>): int
    decreases |ms|
  {
    if ms == [] then 0
    else RatingSum(ms[..|ms| - 1]) + (if KeyOf(ms[|ms| - 1], Rating).Some? then KeyOf(ms[|ms| - 1], Rating).value else 0)
  }

  /** The mean rating in points, `0` when nothing is rated. */
  function AverageRating(ms: seq<Movie>): real
  {
    if RatedCount(ms) > 0 then (RatingSum(ms) as real) / (RatedCount(ms) as real) / 10.0 else 0.0
  }

  /** `Math.floor(year / 10) * 10`. */
  function Decade(year: int): (r: int)
    ensures r % 10 == 0 && r <= year < r + 10
  {
    (year / 10) * 10
  }

  function Get<K>(m: map<K, nat>, k: K): nat
  {
    if k in m then m[k] else 0
  }

  /** `counts[k] = (counts[k] || 0) + 1`. */
  function Bump<K>(m: map<K, nat>, k: K): map<K, nat>
  {
    m[k := Get(m, k) + 1]
  }

  function BumpAll<K>(m: map<K, nat>, ks: seq<K>): (r: map<K, nat>)
    ensures m.Keys <= r.Keys
    ensures (forall k :: k in m ==> m[k] >= 1) ==> forall k :: k in r ==> r[k] >= 1
    decreases |ks|
  {
    if ks == [] then m else Bump(BumpAll(m, ks[..|ks| - 1]), ks[|ks| - 1])
  }

  function Elements<T>(s: seq<T>): set<T>
  {
    set x | x in s
  }

  /** `movie.genre.split(',').map(g => g.trim())`, or nothing when `genre` is falsy. */
  function GenreTokens(m: Movie): seq<string>
  {
    if m.genre.Some? && m.genre.value != "" then TrimAll(Split(m.genre.value, ',')) else []
  }

  /** A record has genre tokens exactly when its genre is truthy, one per comma-separated
      piece, each with no white space at either end. */
  lemma GenreTokensTrimmed(m: Movie)
    ensures GenreTokens(m) == [] <==> m.genre.None? || m.genre.value == ""
    ensures m.genre.Some? && m.genre.value != "" ==> |GenreTokens(m)| == |Split(m.genre.value, ',')|
    ensures forall t :: t in GenreTokens(m) ==> t == [] || (!IsSpace(t[0]) && !IsSpace(t[|t| - 1]))
  {
  }

  /** `.map(g => g.trim())`. */
  function TrimAll(pieces: seq<string>): (r: seq<string>)
    ensures |r| == |pieces|
    ensures forall i :: 0 <= i < |r| ==> r[i] == Trim(pieces[i])
    decreases |pieces|
  {
    if pieces == [] then [] else [Trim(pieces[0])] + TrimAll(pieces[1..])
  }

  /** Every token that `tokens` gives for some record of `ms`. */
  function TokenUnion(ms: seq<Movie>, tokens: Movie -> seq<string>): set<string>
    decreases |ms|
  {
    if ms == [] then {} else TokenUnion(ms[..|ms| - 1], tokens) + Elements(tokens(ms[|ms| - 1]))
  }

  /** `uniqueGenres`. */
  function GenreSet(ms: seq<Movie>): set<string>
  {
    TokenUnion(ms, GenreTokens)
  }

  /** `moviesByDecade`. */
  function ByDecade(ms: seq<Movie>): (r: map<int, nat>)
    ensures forall k :: k in r ==> k % 10 == 0 && r[k] >= 1
    decreases |ms|
  {
    if ms == [] then map[]
    else
      var counts := ByDecade(ms[..|ms| - 1]);
      var m := ms[|ms| - 1];
      if KeyOf(m, ReleaseYear).Some? then Bump(counts, Decade(m.year)) else counts
  }

  /** `moviesByGenre`. */
  function ByGenre(ms: seq<Movie>): (r: map<string, nat>)
    ensures forall g :: g in r ==> r[g] >= 1
    decreases |ms|
  {
    if ms == [] then map[] else BumpAll(ByGenre(ms[..|ms| - 1]), GenreTokens(ms[|ms| - 1]))
  }

  function Summarize(best: Option<Movie>, key: Key): Option<Highlight>
  {
    if best.None? then None
    else
      var m := best.value;
      Some(Highlight(m.id, m.title, if KeyOf(m, key).Some? then KeyOf(m, key).value else 0))
  }

  /** The object `getMovieMetrics` returns, as a function of the collection. */
  function MetricsOf(ms: seq<Movie>): Metrics
  {
    Metrics(
      |ms|,
      |GenreSet(ms)|,
      AverageRating(ms),
      Summarize(Extremum(ms, Runtime, Greatest), Runtime),
      Summarize(Extremum(ms, Runtime, Least), Runtime),
      Summarize(Extremum(ms, ReleaseYear, Greatest), ReleaseYear),
      Summarize(Extremum(ms, ReleaseYear, Least), ReleaseYear),
      Summarize(Extremum(ms, Rating, Greatest), Rating),
      Summarize(Extremum(ms, Rating, Least), Rating),
      ByDecade(ms),
      ByGenre(ms))
  }

  // One-step unfoldings of the specification functions on a growing prefix.

  lemma RatingStep(ms: seq<Movie>, i: nat)
    requires i < |ms|
    ensures RatedCount(ms[..i + 1]) == RatedCount(ms[..i]) + (if KeyOf(ms[i], Rating).Some? then 1 else 0)
    ensures RatingSum(ms[..i + 1]) == RatingSum(ms[..i]) + (if KeyOf(ms[i], Rating).Some? then ms[i].imdbRating.value else 0)
  {
    assert ms[..i + 1][..i] == ms[..i];
  }

  lemma GenreSetStep(ms: seq<Movie>, i: nat)
    requires i < |ms|
    ensures GenreSet(ms[..i + 1]) == GenreSet(ms[..i]) + Elements(GenreTokens(ms[i]))
  {
    assert ms[..i + 1][..i] == ms[..i];
  }

  lemma ByDecadeStep(ms: seq<Movie>, i: nat)
    requires i < |ms|
    ensures ByDecade(ms[..i + 1]) == if KeyOf(ms[i], ReleaseYear).Some? then Bump(ByDecade(ms[..i]), Decade(ms[i].year)) else ByDecade(ms[..i])
  {
    assert ms[..i + 1][..i] == ms[..i];
  }

  lemma ByGenreStep(ms: seq<Movie>, i: nat)
    requires i < |ms|
    ensures ByGenre(ms[..i + 1]) == BumpAll(ByGenre(ms[..i]), GenreTokens(ms[i]))
  {
    assert ms[..i + 1][..i] == ms[..i];
  }

  lemma BumpAllStep<K>(m: map<K, nat>, ks: seq<K>, j: nat)
    requires j < |ks|
    ensures BumpAll(m, ks[..j + 1]) == Bump(BumpAll(m, ks[..j]), ks[j])
  {
    assert ks[..j + 1][..j] == ks[..j];
  }

  /** `ms[k]` has a truthy `key`, no record is strictly better, and every earlier
      record with a truthy `key` is strictly worse: the first record at the optimum. */
  ghost predicate FirstExtremeAt(ms: seq<Movie>, k: nat, key: Key, d: Direction)
    requires k < |ms|
  {
    && KeyOf(ms[k], key).Some?
    && (forall j :: 0 <= j < |ms| && KeyOf(ms[j], key).Some? ==>
          !Better(KeyOf(ms[j], key).value, KeyOf(ms[k], key).value, d))
    && (forall j :: 0 <= j < k && KeyOf(ms[j], key).Some? ==>
          Better(KeyOf(ms[k], key).value, KeyOf(ms[j], key).value, d))
  }

  /** No record of `ms` has a truthy `key`. */
  ghost predicate NoneKeyed(ms: seq<Movie>, key: Key)
  {
    forall i :: 0 <= i < |ms| ==> KeyOf(ms[i], key).None?
  }

  /** Appending a record with a falsy key, or one that is not strictly better, keeps an extreme position. */
  lemma FirstExtremeExtend(ms: seq<Movie>, m: Movie, k: nat, key: Key, d: Direction)
    requires k < |ms| && FirstExtremeAt(ms, k, key, d)
    requires KeyOf(m, key).Some? ==> !Better(KeyOf(m, key).value, KeyOf(ms[k], key).value, d)
    ensures FirstExtremeAt(ms + [m], k, key, d)
  {
    var s := ms + [m];
    assert forall j :: 0 <= j < |ms| ==> s[j] == ms[j];
  }

  /** A strictly better record appended after an extreme becomes the new first extreme. */
  lemma FirstExtremeOvertaken(ms: seq<Movie>, m: Movie, k: nat, key: Key, d: Direction)
    requires k < |ms| && FirstExtremeAt(ms, k, key, d)
    requires KeyOf(m, key).Some? && Better(KeyOf(m, key).value, KeyOf(ms[k], key).value, d)
    ensures FirstExtremeAt(ms + [m], |ms|, key, d)
  {
    var s := ms + [m];
    assert forall j :: 0 <= j < |ms| ==> s[j] == ms[j];
  }

  /** The first record with a truthy key, after records with none, is the first extreme. */
  lemma FirstExtremeStarts(ms: seq<Movie>, m: Movie, key: Key, d: Direction)
    requires NoneKeyed(ms, key) && KeyOf(m, key).Some?
    ensures FirstExtremeAt(ms + [m], |ms|, key, d)
  {
    var s := ms + [m];
    assert forall j :: 0 <= j < |ms| ==> s[j] == ms[j];
  }

  /** Each extreme slot is empty exactly when no record has a truthy key, and
      otherwise holds the first record at the optimum (ties keep the earlier record). */
  lemma {:induction false} ExtremumFirstWins(ms: seq<Movie>, key: Key, d: Direction)
    ensures Extremum(ms, key, d).None? <==> NoneKeyed(ms, key)
    ensures Extremum(ms, key, d).Some? ==>
              exists k :: 0 <= k < |ms| && FirstExtremeAt(ms, k, key, d) && Extremum(ms, key, d) == Some(ms[k])
    decreases |ms|
  {
    if ms != [] {
      var p, m := ms[..|ms| - 1], ms[|ms| - 1];
      assert ms == p + [m];
      ExtremumFirstWins(p, key, d);
      var best := Extremum(p, key, d);
      if best.None? {
        if KeyOf(m, key).Some? {
          FirstExtremeStarts(p, m, key, d);
        } else {
          assert forall i :: 0 <= i < |ms| ==> ms[i] == if i < |p| then p[i] else m;
        }
      } else {
        var k :| 0 <= k < |p| && FirstExtremeAt(p, k, key, d) && best == Some(p[k]);
        assert ms[k] == p[k];
        if Replaces(m, best, key, d) {
          FirstExtremeOvertaken(p, m, k, key, d);
        } else {
          FirstExtremeExtend(p, m, k, key, d);
        }
        assert KeyOf(ms[k], key).Some?;
      }
    }
  }

  /** `slot` is empty exactly when no record of `ms` has a truthy `key`, and otherwise
      holds the first record of `ms` at the optimum. */
  ghost predicate HoldsFirstExtreme(ms: seq<Movie>, slot: Option<Movie>, key: Key, d: Direction)
  {
    && (slot.None? <==> NoneKeyed(ms, key))
    && (slot.Some? ==> exists k :: 0 <= k < |ms| && FirstExtremeAt(ms, k, key, d) && slot == Some(ms[k]))
  }

  /** One extreme-slot update, `if (!best || movie[key] > best[key]) best = movie` (or `<`),
      where `seen` is the records visited so far, ending with `movie`: when `best` is the
      slot before `movie`, the result is the slot after it, so it is still empty exactly when
      no visited record has a truthy key, and otherwise the first visited record at the optimum. */
  method Consider(ghost seen: seq<Movie>, best: Option<Movie>, movie: Movie, key: Key, d: Direction) returns (r: Option<Movie>)
    requires seen != [] && seen[|seen| - 1] == movie
    requires best == Extremum(seen[..|seen| - 1], key, d)
    ensures r == Extremum(seen, key, d)
    ensures HoldsFirstExtreme(seen, r, key, d)
  {
    ExtremumFirstWins(seen, key, d);
    r := best;
    if Replaces(movie, best, key, d) {
      r := Some(movie);
    }
  }

  /** The inner `genres.forEach(genre => uniqueGenres.add(genre))`. */
  method AddGenres(uniqueGenres: set<string>, genres: seq<string>) returns (r: set<string>)
    ensures r == uniqueGenres + Elements(genres)
  {
    r := uniqueGenres;
    var j := 0;
    while j < |genres|
      invariant 0 <= j <= |genres|
      invariant r == uniqueGenres + Elements(genres[..j])
    {
      assert genres[..j + 1] == genres[..j] + [genres[j]];
      r := r + {genres[j]};
      j := j + 1;
    }
    assert genres[..j] == genres;
  }

  /** The inner `genres.forEach(genre => { moviesByGenre[genre] = (moviesByGenre[genre] || 0) + 1 })`. */
  method CountTokens(moviesByGenre: map<string, nat>, genres: seq<string>) returns (r: map<string, nat>)
    ensures r == BumpAll(moviesByGenre, genres)
  {
    r := moviesByGenre;
    var j := 0;
    while j < |genres|
      invariant 0 <= j <= |genres|
      invariant r == BumpAll(moviesByGenre, genres[..j])
    {
      BumpAllStep(moviesByGenre, genres, j);
      var genre := genres[j];
      r := r[genre := (if genre in r then r[genre] else 0) + 1];
      j := j + 1;
    }
    assert genres[..j] == genres;
  }

  /** The first `forEach`: totals, the six extreme slots and the set of genres. */
  method ScanMovies(movies: seq<Movie>)
    returns (totalRating: int, moviesWithRating: nat,
             highestRated: Option<Movie>, lowestRated: Option<Movie>,
             longest: Option<Movie>, shortest: Option<Movie>,
             newest: Option<Movie>, oldest: Option<Movie>,
             uniqueGenres: set<string>)
    ensures totalRating == RatingSum(movies) && moviesWithRating == RatedCount(movies)
    ensures highestRated == Extremum(movies, Rating, Greatest)
    ensures lowestRated == Extremum(movies, Rating, Least)
    ensures longest == Extremum(movies, Runtime, Greatest)
    ensures shortest == Extremum(movies, Runtime, Least)
    ensures newest == Extremum(movies, ReleaseYear, Greatest)
    ensures oldest == Extremum(movies, ReleaseYear, Least)
    ensures uniqueGenres == GenreSet(movies)
  {
    totalRating, moviesWithRating := 0, 0;
    highestRated, lowestRated, longest, shortest, newest, oldest := None, None, None, None, None, None;
    uniqueGenres := {};
    var i := 0;
    while i < |movies|
      invariant 0 <= i <= |movies|
      invariant totalRating == RatingSum(movies[..i]) && moviesWithRating == RatedCount(movies[..i])
      invariant highestRated == Extremum(movies[..i], Rating, Greatest)
      invariant lowestRated == Extremum(movies[..i], Rating, Least)
      invariant longest == Extremum(movies[..i], Runtime, Greatest)
      invariant shortest == Extremum(movies[..i], Runtime, Least)
      invariant newest == Extremum(movies[..i], ReleaseYear, Greatest)
      invariant oldest == Extremum(movies[..i], ReleaseYear, Least)
      invariant uniqueGenres == GenreSet(movies[..i])
    {
      var movie := movies[i];
      assert movies[..i + 1][..i] == movies[..i];
      RatingStep(movies, i);
      if KeyOf(movie, Rating).Some? {
        totalRating := totalRating + movie.imdbRating.value;
        moviesWithRating := moviesWithRating + 1;
      }
      // Each update below sits inside the source's truthiness test on its key;
      // Replaces begins with that same test, so the update is skipped when it fails.
      highestRated := Consider(movies[..i + 1], highestRated, movie, Rating, Greatest);
      lowestRated := Consider(movies[..i + 1], lowestRated, movie, Rating, Least);
      longest := Consider(movies[..i + 1], longest, movie, Runtime, Greatest);
      shortest := Consider(movies[..i + 1], shortest, movie, Runtime, Least);
      newest := Consider(movies[..i + 1], newest, movie, ReleaseYear, Greatest);
      oldest := Consider(movies[..i + 1], oldest, movie, ReleaseYear, Least);
      GenreSetStep(movies, i);
      uniqueGenres := AddGenres(uniqueGenres, GenreTokens(movie));
      i := i + 1;
    }
    assert movies[..i] == movies;
  }

  /** The second `forEach`: `moviesByDecade`. */
  method CountDecades(movies: seq<Movie>) returns (moviesByDecade: map<int, nat>)
    ensures moviesByDecade == ByDecade(movies)
  {
    moviesByDecade := map[];
    var i := 0;
    while i < |movies|
      invariant 0 <= i <= |movies|
      invariant moviesByDecade == ByDecade(movies[..i])
    {
      ByDecadeStep(movies, i);
      var movie := movies[i];
      if KeyOf(movie, ReleaseYear).Some? {
        var decade := (movie.year / 10) * 10;
        moviesByDecade := moviesByDecade[decade := (if decade in moviesByDecade then moviesByDecade[decade] else 0) + 1];
      }
      i := i + 1;
    }
    assert movies[..i] == movies;
  }

  /** The third `forEach`: `moviesByGenre`. */
  method CountGenres(movies: seq<Movie>) returns (moviesByGenre: map<string, nat>)
    ensures moviesByGenre == ByGenre(movies)
  {
    moviesByGenre := map[];
    var i := 0;
    while i < |movies|
      invariant 0 <= i <= |movies|
      invariant moviesByGenre == ByGenre(movies[..i])
    {
      ByGenreStep(movies, i);
      moviesByGenre := CountTokens(moviesByGenre, GenreTokens(movies[i]));
      i := i + 1;
    }
    assert movies[..i] == movies;
  }

  /** `getMovieMetrics` on a loaded collection. */
  method ComputeMetrics(movies: seq<Movie>) returns (r: Metrics)
    ensures r == MetricsOf(movies)
  {
    var totalMovies := |movies|;
    var totalRating, moviesWithRating, highestRated, lowestRated, longest, shortest, newest, oldest, uniqueGenres := ScanMovies(movies);
    var averageRating := if moviesWithRating > 0 then (totalRating as real) / (moviesWithRating as real) / 10.0 else 0.0;
    var moviesByDecade := CountDecades(movies);
    var moviesByGenre := CountGenres(movies);
    r := Metrics(
      totalMovies,
      |uniqueGenres|,
      averageRating,
      Summarize(longest, Runtime),
      Summarize(shortest, Runtime),
      Summarize(newest, ReleaseYear),
      Summarize(oldest, ReleaseYear),
      Summarize(highestRated, Rating),
      Summarize(lowestRated, Rating),
      moviesByDecade,
      moviesByGenre);
  }
}
