# Movie catalogue service — a Dafny model

This project models the core of a small movie-catalogue REST service: `MovieService`, which keeps every movie record in one JSON file and answers lookups, filters, creates, updates, deletes and a metrics summary over it; the legacy title-and-year search controller `buscarPorNombreAnio`, which no route uses (its example path `/peliculas/buscarNombreAnio/...` is served by `getMoviesByTitleAndYear` instead); and the `responseOk` middleware, which adds `ok: true` to successful JSON bodies.

Layout:

- `wrappers.dfy` (`Wrappers`) holds `Option`.
- `seqs.dfy` (`Seqs`) models `Array.prototype.filter` as `Filter`. `ExactlySelects` characterises it independently: an order-preserving subsequence that keeps every element satisfying the predicate, as often as it occurs. `Filter` is proved to be the only such sequence.
- `text.dfy` (`Text`) models `toLowerCase`, `includes`, `split` with a one-character separator, and `trim`.
- `movies.dfy` (`Movies`) holds the record, the update patch, object-spread merging, and JavaScript truthiness.
- `queries.dfy` (`MovieQueries`) holds the service's lookups and filters as pure functions over the loaded collection. It also holds the collections that update and delete write back.
- `metrics.dfy` (`MovieMetrics`) specifies `getMovieMetrics` as functions over growing prefixes. The source's three `forEach` passes become imperative methods, proved equal to those functions.
- `metrics_facts.dfy` (`MetricsFacts`) holds what the metrics mean:
  - each extreme slot holds the first record at the optimum;
  - the average lies between the lowest and highest rating;
  - the decade and genre buckets count what they claim.
- `store.dfy` (`MovieStore`) holds the `MovieService` class. Its state is the parsed data file, or `None` when reading or parsing fails, plus how the next write ends: it completes, it is refused before the file is opened, or it is interrupted after `writeFileSync` has emptied the file.
- `search.dfy` (`NombreAnioSearch`) holds the legacy `buscarPorNombreAnio` handler's filter and its three replies.
- `response.dfy` (`ResponseHandler`) holds the body-wrapping decision and an Express-like `Response` class whose `json` goes through every installed layer of the middleware.
- `scenarios.dfy` (`Scenarios`) works through a two-record collection: Alpha at 9.5 and Beta at 4.0, both from 1990.

Modelling conventions:

- **Ratings** are integers in tenths of a point, so 9.5 is `95`. The average rating is the exact rational mean in points.
- **Optional fields** are `Option`s. A JavaScript number used as a condition is truthy when present and non-zero (`Movies.Truthy`).
- **Numeric arguments.** `parseInt(...)` and `Number(...)` results are passed in as `Option<int>`, with `None` standing for `NaN`.
- **Errors.** Every failing operation throws one generic error per operation in the source. The model keeps the cause (`ReadFailed`, `WriteFailed`, `NotFound`), so the contracts can tell the paths apart.

In three places the code does something other than what its names and comments suggest. The model follows the code:

- **Genre buckets.** `movies_by_genre` counts token occurrences, not records: a genre string listing "Drama" twice counts twice. `MetricsFacts.GenreBucketCarriers` shows that a genre's bucket equals its number of records when no record lists that genre twice, and is at least that number in general.
- **Deleting** removes every record carrying the id, not necessarily one.
- **Creating** a record whose id already exists keeps both records. A lookup then still finds the earlier one (`MovieQueries.CreateThenFind`).

## Model

| member | source | states |
|---|---|---|
| MovieQueries.FindIndex | services/movieService.js:63-67 | `None` exactly when no record has the id; otherwise an in-range index holding the id, with no earlier record holding it |
| MovieQueries.FindById | services/movieService.js:29-36 | `None` (`null`) exactly when no record has the id; otherwise the first record whose id is equal |
| MovieQueries.MoviesByMinRating | services/movieService.js:105-112 | exactly the records, in order and with multiplicity, whose rating is present and at least the bound; membership iff |
| MovieQueries.MoviesByYear | services/movieService.js:119-126 | exactly the records whose year equals `parseInt(year)`; empty for `NaN`; membership iff |
| MovieQueries.MoviesByYearRange | services/movieService.js:134-169 | empty when either bound is `NaN`; otherwise exactly the records with `from <= year <= to`; empty for an inverted range |
| MovieQueries.MoviesByMinDuration | services/movieService.js:176-191 | exactly the records with a truthy runtime at least the bound; nothing for a `NaN` bound |
| MovieQueries.MoviesByTitleAndYear | services/movieService.js:199-210 | exactly the records whose lower-cased title contains the lower-cased query and whose year equals the argument |
| MovieQueries.UpdatedCollection | services/movieService.js:63-70 | `None` exactly when no record has the id; otherwise the same length, the first match merged with the patch, every other record unchanged |
| MovieQueries.RemoveId | services/movieService.js:87-91 | exactly the records without the id, in order; none of them has the id; unchanged length exactly when no record had it |
| MovieQueries.CreateThenFind | services/movieService.js:43-52 | after appending, a lookup of the new id returns the new record unless an earlier record already had that id |
| MovieQueries.DeleteThenFind | services/movieService.js:84-98 | after the delete no record with the id can be found |
| MovieQueries.DeleteShrinksByMatches | services/movieService.js:87-94 | the delete removes as many records as carried the id; with a unique id, exactly one |
| MovieQueries.UpdateThenFind | services/movieService.js:60-77 | after an update that keeps the id, a lookup returns the merged record |
| MovieQueries.TitleMatchIgnoresCase | services/movieService.js:204-205 | the title test gives the same answer whatever the case of the title or the query |
| Movies.Truthy | services/movieService.js:238 | a number is truthy exactly when present and non-zero |
| Movies.Merge | services/movieService.js:70 | `{...movie, ...data}` on one record; its contract is stated by `Movies.MergeFields` |
| Movies.MergeFields | services/movieService.js:70 | `{...movie, ...data}`: each of the nine fields takes the supplied value when there is one and keeps the record's value otherwise |
| Movies.MergeEmptyAndIdempotent | services/movieService.js:70 | merging nothing changes nothing; merging the same data twice is merging it once |
| Movies.MergeCombine | services/movieService.js:70 | two successive updates equal one update with the later fields winning |
| Seqs.Filter | services/movieService.js:108 | `filter` keeps only elements satisfying the predicate and never grows |
| Seqs.FilterSelects | services/movieService.js:108 | `filter` is an order-preserving selection keeping each satisfying element as often as it occurs |
| Seqs.SelectsUnique | services/movieService.js:108 | that selection is unique: any sequence with those properties is the filter's result |
| Seqs.SelectedMembers | services/movieService.js:108 | an element is in the result iff it is in the input and satisfies the predicate |
| Seqs.FilterKeepsAllIff | services/movieService.js:87-89 | the result has the input's length iff every element satisfies the predicate, and it is then the input |
| Seqs.FilterEmptyIff | controllers/buscarPorNombreAnio.controller.js:24 | the result is empty iff no element satisfies the predicate |
| Seqs.FilterSplitsLength | services/movieService.js:87 | the records kept and the records removed add up to the collection |
| Text.LowerChar | services/movieService.js:205 | the lowered character is never upper case; upper-case letters move by 32, others stay |
| Text.ToLower | services/movieService.js:205 | same length, each character lowered |
| Text.ToLowerIdempotent | services/movieService.js:205 | lowering twice is lowering once |
| Text.Contains | services/movieService.js:205 | true exactly when the needle occurs at some index of the haystack |
| Text.Split | services/movieService.js:282 | at least one piece, and no piece contains the separator |
| Text.JoinSplit | services/movieService.js:282 | joining the pieces with the separator restores the string |
| Text.SplitJoin | services/movieService.js:282 | splitting a join of separator-free pieces gives the pieces back |
| Text.Trim | services/movieService.js:282 | the result is a slice of the input with only white space before and after it, and neither starts nor ends with white space |
| Text.TrimIdempotent | services/movieService.js:282 | trimming twice is trimming once |
| MovieMetrics.Decade | services/movieService.js:295 | `Math.floor(year / 10) * 10` is the multiple of 10 at or below the year, within 10 of it |
| MovieMetrics.Extremum | services/movieService.js:243-277 | the record an extreme slot holds after the chain of `if (!best \|\| movie[key] > best[key])` updates; what it holds is stated by `MovieMetrics.ExtremumFirstWins` |
| MovieMetrics.ExtremumFirstWins | services/movieService.js:243-277 | a slot is empty iff no record has a truthy key; otherwise it holds a record with a truthy key that no record strictly beats and that strictly beats every earlier record with a truthy key |
| MovieMetrics.Consider | services/movieService.js:243-277 | one slot update keeps the slot's meaning: after the record it is empty iff no visited record has a truthy key, and otherwise holds the first visited record at the optimum |
| MovieMetrics.GenreTokensTrimmed | services/movieService.js:280-282 | a record has genre tokens iff its genre is truthy, one per comma-separated piece, none with white space at either end |
| MovieMetrics.ByDecade | services/movieService.js:292-298 | the decade distribution's keys are multiples of 10 and its counts are positive |
| MovieMetrics.ByGenre | services/movieService.js:301-310 | every genre bucket present has a positive count |
| MovieMetrics.MetricsOf | services/movieService.js:312-348 | the object returned, field by field from the specification functions; what each field means is stated by the `MetricsFacts` lemmas |
| MovieMetrics.AddGenres | services/movieService.js:283-285 | adding a record's tokens gives the union with the tokens |
| MovieMetrics.CountTokens | services/movieService.js:306-308 | each token's counter is bumped once per occurrence |
| MovieMetrics.ScanMovies | services/movieService.js:224-287 | the first pass's totals, six extreme slots and genre set equal their specification functions |
| MovieMetrics.CountDecades | services/movieService.js:292-298 | the decade pass yields the decade distribution function |
| MovieMetrics.CountGenres | services/movieService.js:301-310 | the genre pass yields the genre distribution function |
| MovieMetrics.ComputeMetrics | services/movieService.js:216-348 | the returned object equals the metrics of the collection |
| MetricsFacts.ExtremumIsFirstExtreme | services/movieService.js:243-277 | conversely, the first record at the optimum is what the slot holds |
| MetricsFacts.FirstExtremeUnique | services/movieService.js:243-277 | at most one position is the first at the optimum |
| MetricsFacts.HighlightDescribesExtreme | services/movieService.js:316-345 | a highlight is `null` iff no record has the key; otherwise it carries that record's id, title and key value |
| MetricsFacts.AverageWithinRatingExtremes | services/movieService.js:238-251 | both rating highlights are null iff nothing is rated, and then the average is 0; otherwise lowest <= average <= highest |
| MetricsFacts.RatedCountPositive | services/movieService.js:238-240 | some record is counted as rated iff some record has a truthy rating |
| MetricsFacts.DecadeBucket | services/movieService.js:292-298 | each decade's count is the number of records with a truthy year in it; keys are multiples of 10 with positive counts |
| MetricsFacts.GenreSetMembers | services/movieService.js:280-286 | a genre is in the distinct set iff some record lists it |
| MetricsFacts.GenreBucket | services/movieService.js:300-310 | each genre's count is its number of token occurrences, and its key exists iff it is a distinct genre (for tokens that are not `Object.prototype` property names) |
| MetricsFacts.GenreKeys | services/movieService.js:314 | `total_genres` equals the number of genre buckets (for tokens that are not `Object.prototype` property names) |
| MetricsFacts.GenreBucketCarriers | services/movieService.js:300-310 | a genre's count is at least the number of records listing it, and equal when no record lists it twice |
| MetricsFacts.MetricsOfEmpty | services/movieService.js:289 | an empty collection gives zero totals, an average of 0, null highlights and empty distributions |
| MovieStore.MovieService.constructor | services/movieService.js:7-9 | the service starts bound to its data file |
| MovieStore.MovieService.Save | services/movieService.js:47 | a completed write makes the file the collection; a refused write leaves it as it was; an interrupted write leaves a file that no longer parses |
| MovieStore.MovieService.GetAllMovies | services/movieService.js:15-22 | fails exactly when the file cannot be read or parsed; otherwise the stored collection |
| MovieStore.MovieService.GetMovieById | services/movieService.js:29-36 | fails exactly on a read failure; otherwise the first match or `null` |
| MovieStore.MovieService.CreateMovie | services/movieService.js:43-52 | a read failure leaves the file as it was; a completed write appends the record and returns it; a refused write fails and leaves the file; an interrupted write fails and leaves a file that no longer parses |
| MovieStore.MovieService.UpdateMovie | services/movieService.js:60-77 | read failure and not found leave the file unchanged; a completed write stores the updated collection and returns the merged record; a refused write fails and leaves the file; an interrupted write fails and leaves a file that no longer parses |
| MovieStore.MovieService.DeleteMovie | services/movieService.js:84-98 | not found iff no record has the id, leaving the file; otherwise a completed write stores the collection without the id and returns `true`, a refused write fails and leaves the file, an interrupted write fails and leaves a file that no longer parses |
| MovieStore.MovieService.GetMoviesByMinRating | services/movieService.js:105-112 | fails exactly on a read failure; otherwise the minimum-rating filter of the collection |
| MovieStore.MovieService.GetMoviesByYear | services/movieService.js:119-126 | fails exactly on a read failure; otherwise the year filter |
| MovieStore.MovieService.GetMoviesByYearRange | services/movieService.js:134-169 | fails exactly on a read failure; otherwise the year-range filter |
| MovieStore.MovieService.GetMoviesByMinDuration | services/movieService.js:176-191 | fails exactly on a read failure; otherwise the duration filter |
| MovieStore.MovieService.GetMoviesByTitleAndYear | services/movieService.js:199-210 | fails exactly on a read failure; otherwise the title-and-year filter |
| MovieStore.MovieService.GetMovieMetrics | services/movieService.js:216-352 | fails exactly on a read failure; otherwise the metrics of the collection |
| NombreAnioSearch.Matches | controllers/buscarPorNombreAnio.controller.js:11-22 | a record matches iff the name is empty or its title mentions the name, and the year is empty or equals `Number(anio)`; the both-empty shortcut agrees with this |
| NombreAnioSearch.Search | controllers/buscarPorNombreAnio.controller.js:10-23 | exactly the matching records in order; empty iff no record matches |
| NombreAnioSearch.BuscarPorNombreAnio | controllers/buscarPorNombreAnio.controller.js:3-39 | 500 exactly when the file cannot be read; 404 exactly when no record matches; otherwise the non-empty search result |
| NombreAnioSearch.EmptyQueryReturnsAll | controllers/buscarPorNombreAnio.controller.js:15-17 | with neither criterion every record is returned |
| NombreAnioSearch.YearOnlyIsByYear | controllers/buscarPorNombreAnio.controller.js:19-22 | with only a year the search equals the service's year filter given the same parsed year (`Number(anio)` here, `parseInt(year)` there) |
| NombreAnioSearch.NameOnlyMatchesTitle | controllers/buscarPorNombreAnio.controller.js:19-22 | with only a name a record is returned iff its title mentions the name, ignoring case |
| NombreAnioSearch.BothGivenIsTitleAndYear | controllers/buscarPorNombreAnio.controller.js:19-22 | with both the search equals the service's title-and-year filter given the same parsed year |
| ResponseHandler.DecimalDigits | middlewares/resHandler.js:14 | an index's property name is a non-empty string starting with a digit |
| ResponseHandler.DecimalDigitsInjective | middlewares/resHandler.js:14 | distinct indices have distinct property names |
| ResponseHandler.IndexEntriesLookup | middlewares/resHandler.js:14 | spreading a string puts code point `i` under the name of `i` |
| ResponseHandler.IndexEntriesKeys | middlewares/resHandler.js:14 | spreading a string adds no property other than its indices |
| ResponseHandler.OwnEntries | middlewares/resHandler.js:14 | spreading an object copies its fields; spreading a string gives its indexed code points; other primitives give nothing |
| ResponseHandler.WrapBody | middlewares/resHandler.js:7-19 | a non-array body on a 2xx status gets `ok` plus its own entries, its own values winning; arrays and non-2xx bodies pass unchanged |
| ResponseHandler.OkUnlessOverridden | middlewares/resHandler.js:14 | on success every non-array body carries `ok: true` unless it is an object with its own `ok` |
| ResponseHandler.WrapIdempotent | middlewares/resHandler.js:5-20 | wrapping an already wrapped body changes nothing |
| ResponseHandler.WrappedCollapses | middlewares/resHandler.js:3-20 | any number of installed layers wraps like one |
| ResponseHandler.Response.Json | middlewares/resHandler.js:5-20 | the body sent is the data passed through every installed layer; status and layers are unchanged |
| ResponseHandler.Response.Status | middlewares/resHandler.js:7 | `status` sets the status code used by the wrapping decision and changes nothing else |
| ResponseHandler.ResponseOk | middlewares/resHandler.js:1-23 | installing the middleware adds one wrapping layer and changes nothing else |
| Scenarios.MinRatingExample | services/movieService.js:105-112 | with Alpha at 9.5 and Beta at 4.0, a minimum of 9 keeps only Alpha |
| Scenarios.TitleMentionsExample | services/movieService.js:204-205 | "alp" occurs in the lower-cased title "Alpha" and not in "Beta" |
| Scenarios.MetricsExample | services/movieService.js:289-298 | for the same two records the 1990 bucket is 2 and the average is 6.75 |
| Scenarios.TitleAndYearExample | services/movieService.js:199-210 | "alp" in 1990 finds Alpha; "alp" in 1991 finds nothing |

## Left out

- Reading and writing the data file, and JSON parsing and serialisation, become the service's `file` and `writes` state. A completed write is taken to make the next read return exactly the collection written.
- `MovieStore.MovieService.Save`: a write that fails after the whole text has reached the file (an error on close) is not modelled. Every interrupted write is taken to stop before the closing `]`, so the file no longer parses.
- `console.log` and `console.error` output in `getMoviesByYearRange`.
- `MovieMetrics.ComputeMetrics`: `toFixed(2)` followed by `parseFloat` is left out. The model returns the exact mean, and floating-point ratings are modelled as tenths.
- `parseInt` and `Number` on request strings are not modelled. Their results are inputs: an integer, or `None` for `NaN`. A fractional argument to `getMoviesByMinRating` below a tenth cannot be expressed.
- `NombreAnioSearch.YearOnlyIsByYear` and `NombreAnioSearch.BothGivenIsTitleAndYear` relate the search to the service filters only for the same parsed year. The controller uses `Number(anio)`, which gives `NaN` for "1990abc" and 2000 for "2e3". The service route uses `parseInt`, which gives 1990 and 2. So the same text can select different records.
- Records are assumed to have the fields of `Movies.Movie`. A `null` field, a field of the wrong type (a year stored as a string, which `getMoviesByYearRange` would `parseInt`), and extra fields are not modelled.
- `Text.ToLower` lower-cases Basic Latin and Latin-1 letters only. Unicode case mapping beyond them is left out.
- The order of object keys in JSON bodies is left out. A `map` stands for an object.
- `ResponseHandler.OwnEntries` and `ResponseHandler.IndexEntriesLookup`: a string is spread by code point, while JavaScript spreads it by UTF-16 code unit. A string body with a character outside the Basic Multilingual Plane therefore spreads into fewer entries here than in the source: one entry per such character instead of one per surrogate. No caller in the service sends a string body.
- `MetricsFacts.GenreBucket`, `MetricsFacts.GenreKeys`, `MovieMetrics.ByGenre`, `MovieMetrics.CountGenres`, `MovieMetrics.MetricsOf`, `MovieMetrics.ComputeMetrics` and `MovieStore.MovieService.GetMovieMetrics` treat `moviesByGenre` as an empty map, but the source builds it on a plain `{}`. A genre token that names an `Object.prototype` property behaves differently there. `"constructor"` starts from the inherited function, and its "count" becomes a string. `"__proto__"` never becomes a key, although it is counted in `total_genres`. Such tokens are excluded from what the model promises.
- The exception messages are left out. Each operation's single generic error is modelled as `Failed` with the underlying cause.
- The `next()` call in `responseOk`, and the method-replacement mechanics, become a layer count on the response.
- Concurrent requests, and lost updates between them, are left out: each operation is one atomic step on the state.
- Routing, the other controllers, application set-up and API documentation are not part of this model.
