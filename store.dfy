/** `MovieService`: every operation reads the whole data file, and the three
    mutations write the whole collection back. */
module MovieStore {
  import opened Wrappers
  import opened Seqs
  import opened Movies
  import opened MovieQueries
  import opened MovieMetrics

  /** Why an operation threw. The service replaces every cause by one generic error
      per operation; the model keeps the cause so that contracts can tell the paths apart. */
  datatype Cause = ReadFailed | WriteFailed | NotFound

  datatype Outcome<T> = Ok(value: T) | Failed(cause: Cause)

  /** How `fs.writeFileSync(filePath, JSON.stringify(movies))` ends. It opens the file
      with flag `'w'`, which empties it before anything is written. */
  datatype WriteFault =
    | Completes    // the whole text is written
    | Refused      // opening fails (insufficient permissions): the file is untouched
    | Interrupted  // writing stops after the file was emptied (disk full)

  class MovieService {
    /** What `JSON.parse(fs.readFileSync(filePath))` gives: `None` when either throws. */
    var file: Option<seq<Movie>>
    /** How the next `fs.writeFileSync(filePath, ...)` ends. */
    var writes: WriteFault

    /** The service bound to its data file. */
    constructor (file: Option<seq<Movie>>, writes: WriteFault)
      ensures this.file == file && this.writes == writes
    {
      this.file := file;
      this.writes := writes;
    }

    /** The file after writing `movies` to it: the collection itself when the write
        completes, the old contents when it is refused, and `None` when it is interrupted,
        because what is left is a strict prefix of a JSON array text, which never parses. */
    method Save(movies: seq<Movie>) returns (ok: bool)
      modifies this
      ensures writes == old(writes)
      ensures ok <==> writes.Completes?
      ensures writes.Completes? ==> file == Some(movies)
      ensures writes.Refused? ==> file == old(file)
      ensures writes.Interrupted? ==> file.None?
    {
      match writes
      case Completes =>
        file := Some(movies);
        return true;
      case Refused =>
        return false;
      case Interrupted =>
        file := None;
        return false;
    }

    /** `getAllMovies`. */
    method GetAllMovies() returns (r: Outcome<seq<Movie>>)
      ensures r.Failed? <==> file.None?
      ensures r.Failed? ==> r.cause == ReadFailed
      ensures r.Ok? ==> r.value == file.value
    {
      if file.None? {
        return Failed(ReadFailed);
      }
      return Ok(file.value);
    }

    /** `getMovieById`: the first record with `id`, or `None` for `null`. */
    method GetMovieById(id: string) returns (r: Outcome<Option<Movie>>)
      ensures r.Failed? <==> file.None?
      ensures r.Ok? ==> r.value == FindById(file.value, id)
    {
      var movies := GetAllMovies();
      if movies.Failed? {
        return Failed(movies.cause);
      }
      return Ok(FindById(movies.value, id));
    }

    /** `createMovie`: append the record and write the collection back. */
    method CreateMovie(movieData: Movie) returns (r: Outcome<Movie>)
      modifies this
      ensures writes == old(writes)
      ensures old(file).None? ==> r == Failed(ReadFailed) && file == old(file)
      ensures old(file).Some? && writes.Completes? ==> r == Ok(movieData) && file == Some(old(file).value + [movieData])
      ensures old(file).Some? && writes.Refused? ==> r == Failed(WriteFailed) && file == old(file)
      ensures old(file).Some? && writes.Interrupted? ==> r == Failed(WriteFailed) && file.None?
    {
      var movies := GetAllMovies();
      if movies.Failed? {
        return Failed(movies.cause);
      }
      var updated := movies.value + [movieData];
      var written := Save(updated);
      if !written {
        return Failed(WriteFailed);
      }
      return Ok(movieData);
    }

    /** `updateMovie`: overlay the supplied fields on the first record with `id`. */
    method UpdateMovie(id: string, movieData: Patch) returns (r: Outcome<Movie>)
      modifies this
      ensures writes == old(writes)
      ensures old(file).None? ==> r == Failed(ReadFailed) && file == old(file)
      ensures old(file).Some? && UpdatedCollection(old(file).value, id, movieData).None? ==>
                r == Failed(NotFound) && file == old(file)
      ensures old(file).Some? && UpdatedCollection(old(file).value, id, movieData).Some? && writes.Refused? ==>
                r == Failed(WriteFailed) && file == old(file)
      ensures old(file).Some? && UpdatedCollection(old(file).value, id, movieData).Some? && writes.Interrupted? ==>
                r == Failed(WriteFailed) && file.None?
      ensures old(file).Some? && UpdatedCollection(old(file).value, id, movieData).Some? && writes.Completes? ==>
                && file == UpdatedCollection(old(file).value, id, movieData)
                && r == Ok(Merge(old(file).value[FindIndex(old(file).value, id).value], movieData))
    {
      var movies := GetAllMovies();
      if movies.Failed? {
        return Failed(movies.cause);
      }
      var ms := movies.value;
      var movieIndex := FindIndex(ms, id);
      if movieIndex.None? {
        return Failed(NotFound);
      }
      var k := movieIndex.value;
      ms := ms[k := Merge(ms[k], movieData)];
      var written := Save(ms);
      if !written {
        return Failed(WriteFailed);
      }
      return Ok(ms[k]);
    }

    /** `deleteMovie`: drop every record with `id`; `NotFound` when nothing was dropped. */
    method DeleteMovie(id: string) returns (r: Outcome<bool>)
      modifies this
      ensures writes == old(writes)
      ensures old(file).None? ==> r == Failed(ReadFailed) && file == old(file)
      ensures old(file).Some? ==>
                (r == Failed(NotFound) <==> forall i :: 0 <= i < |old(file).value| ==> old(file).value[i].id != id)
      ensures old(file).Some? && r == Failed(NotFound) ==> file == old(file)
      ensures old(file).Some? && r != Failed(NotFound) && writes.Refused? ==> r == Failed(WriteFailed) && file == old(file)
      ensures old(file).Some? && r != Failed(NotFound) && writes.Interrupted? ==> r == Failed(WriteFailed) && file.None?
      ensures old(file).Some? && r != Failed(NotFound) && writes.Completes? ==> r == Ok(true) && file == Some(RemoveId(old(file).value, id))
    {
      var movies := GetAllMovies();
      if movies.Failed? {
        return Failed(movies.cause);
      }
      var filteredMovies := RemoveId(movies.value, id);
      if |filteredMovies| == |movies.value| {
        return Failed(NotFound);
      }
      var written := Save(filteredMovies);
      if !written {
        return Failed(WriteFailed);
      }
      return Ok(true);
    }

    /** `getMoviesByMinRating`. */
    method GetMoviesByMinRating(rating: int) returns (r: Outcome<seq<Movie>>)
      ensures r.Failed? <==> file.None?
      ensures r.Ok? ==> r.value == MoviesByMinRating(file.value, rating)
    {
      var movies := GetAllMovies();
      if movies.Failed? {
        return Failed(movies.cause);
      }
      return Ok(MoviesByMinRating(movies.value, rating));
    }

    /** `getMoviesByYear`, given `parseInt(year)`. */
    method GetMoviesByYear(year: Option<int>) returns (r: Outcome<seq<Movie>>)
      ensures r.Failed? <==> file.None?
      ensures r.Ok? ==> r.value == MoviesByYear(file.value, year)
    {
      var movies := GetAllMovies();
      if movies.Failed? {
        return Failed(movies.cause);
      }
      return Ok(MoviesByYear(movies.value, year));
    }

    /** `getMoviesByYearRange`, given `parseInt` of both bounds. */
    method GetMoviesByYearRange(fromYear: Option<int>, toYear: Option<int>) returns (r: Outcome<seq<Movie>>)
      ensures r.Failed? <==> file.None?
      ensures r.Ok? ==> r.value == MoviesByYearRange(file.value, fromYear, toYear)
    {
      var movies := GetAllMovies();
      if movies.Failed? {
        return Failed(movies.cause);
      }
      return Ok(MoviesByYearRange(movies.value, fromYear, toYear));
    }

    /** `getMoviesByMinDuration`, given `parseInt(minDuration)`. */
    method GetMoviesByMinDuration(minDuration: Option<int>) returns (r: Outcome<seq<Movie>>)
      ensures r.Failed? <==> file.None?
      ensures r.Ok? ==> r.value == MoviesByMinDuration(file.value, minDuration)
    {
      var movies := GetAllMovies();
      if movies.Failed? {
        return Failed(movies.cause);
      }
      return Ok(MoviesByMinDuration(movies.value, minDuration));
    }

    /** `getMoviesByTitleAndYear`; `year` is compared as given, `None` for a non-number. */
    method GetMoviesByTitleAndYear(title: string, year: Option<int>) returns (r: Outcome<seq<Movie>>)
      ensures r.Failed? <==> file.None?
      ensures r.Ok? ==> r.value == MoviesByTitleAndYear(file.value, title, year)
    {
      var movies := GetAllMovies();
      if movies.Failed? {
        return Failed(movies.cause);
      }
      return Ok(MoviesByTitleAndYear(movies.value, title, year));
    }

    /** `getMovieMetrics`. */
    method GetMovieMetrics() returns (r: Outcome<Metrics>)
      ensures r.Failed? <==> file.None?
      ensures r.Ok? ==> r.value == MetricsOf(file.value)
    {
      var movies := GetAllMovies();
      if movies.Failed? {
        return Failed(movies.cause);
      }
      var metrics := ComputeMetrics(movies.value);
      return Ok(metrics);
    }
  }
}
