/** `buscarPorNombreAnio`: a legacy title-and-year search handler that no route
    uses; its own example URL is `/peliculas/buscarNombreAnio/nombre/:nombre/anio/:anio`,
    a path the router now serves through `getMoviesByTitleAndYear`. */
module NombreAnioSearch {
  import opened Wrappers
  import opened Seqs
  import opened Text
  import opened Movies
  import opened MovieQueries

  /** The filter callback. An empty `nombre` or `anio` drops that criterion, and with both
      empty every record matches. `anioNumber` is `Number(anio)` when that is an integer
      and `None` otherwise (`NaN` or a fraction, which no year equals). */
  function Matches(peli: Movie, nombre: string, anio: string, anioNumber: Option<int>): (r: bool)
    ensures r <==> (nombre == "" || TitleMentions(peli, nombre)) && (anio == "" || anioNumber == Some(peli.year))
  {
    var hasNombre := nombre != "";
    var hasAnio := anio != "";
    if !hasNombre && !hasAnio then true
    else
      var titleMatch := !hasNombre || TitleMentions(peli, nombre);
      var yearMatch := !hasAnio || anioNumber == Some(peli.year);
      titleMatch && yearMatch
  }

  function MatchesQuery(nombre: string, anio: string, anioNumber: Option<int>): Movie -> bool
  {
    (m: Movie) => Matches(m, nombre, anio, anioNumber)
  }

  /** `peliculas.filter(...)`: the matching records in stored order. */
  function Search(peliculas: seq<Movie>, nombre: string, anio: string, anioNumber: Option<int>): (r: seq<Movie>)
    ensures ExactlySelects(r, peliculas, MatchesQuery(nombre, anio, anioNumber))
    ensures r == [] <==> forall i :: 0 <= i < |peliculas| ==> !Matches(peliculas[i], nombre, anio, anioNumber)
  {
    FilterSelects(peliculas, MatchesQuery(nombre, anio, anioNumber));
    FilterEmptyIff(peliculas, MatchesQuery(nombre, anio, anioNumber));
    Filter(peliculas, MatchesQuery(nombre, anio, anioNumber))
  }

  /** The three replies: 200 with the records, 404 when nothing matched, 500 when the
      data file could not be read or parsed. */
  datatype Reply = Found(peliculas: seq<Movie>) | NoResults | Failure

  function StatusOf(r: Reply): int
  {
    match r
    case Found(_) => 200
    case NoResults => 404
    case Failure => 500
  }

  /** The handler, given the parsed data file (`None` when reading or parsing throws). */
  function BuscarPorNombreAnio(file: Option<seq<Movie>>, nombre: string, anio: string, anioNumber: Option<int>): (r: Reply)
    ensures r.Failure? <==> file.None?
    ensures file.Some? ==>
              (r.NoResults? <==> forall i :: 0 <= i < |file.value| ==> !Matches(file.value[i], nombre, anio, anioNumber))
    ensures r.Found? ==> r.peliculas != [] && r.peliculas == Search(file.value, nombre, anio, anioNumber)
  {
    if file.None? then Failure
    else
      var encontradas := Search(file.value, nombre, anio, anioNumber);
      if |encontradas| > 0 then Found(encontradas) else NoResults
  }

  /** With no criteria the search returns the whole collection. */
  lemma EmptyQueryReturnsAll(peliculas: seq<Movie>, anioNumber: Option<int>)
    ensures Search(peliculas, "", "", anioNumber) == peliculas
  {
    FilterKeepsAllIff(peliculas, MatchesQuery("", "", anioNumber));
  }

  /** With only a year it is `getMoviesByYear`, given the same parsed year. The two
      callers parse differently (`Number(anio)` here, `parseInt(year)` on the service
      route), so the same text can reach them as different numbers. */
  lemma YearOnlyIsByYear(peliculas: seq<Movie>, anio: string, anioNumber: Option<int>)
    requires anio != ""
    ensures Search(peliculas, "", anio, anioNumber) == MoviesByYear(peliculas, anioNumber)
  {
    if anioNumber.Some? {
      FilterCongruent(peliculas, MatchesQuery("", anio, anioNumber), ReleasedIn(anioNumber));
    } else {
      FilterEmptyIff(peliculas, MatchesQuery("", anio, anioNumber));
    }
  }

  /** With only a name it keeps the records whose title mentions it, ignoring case. */
  lemma NameOnlyMatchesTitle(peliculas: seq<Movie>, nombre: string, anioNumber: Option<int>)
    requires nombre != ""
    ensures forall m :: m in Search(peliculas, nombre, "", anioNumber) <==> m in peliculas && TitleMentions(m, nombre)
  {
    var r := Search(peliculas, nombre, "", anioNumber);
    SelectedMembers(r, peliculas, MatchesQuery(nombre, "", anioNumber));
  }

  /** With both it is `getMoviesByTitleAndYear`, given the same parsed year (see above). */
  lemma BothGivenIsTitleAndYear(peliculas: seq<Movie>, nombre: string, anio: string, anioNumber: Option<int>)
    requires nombre != "" && anio != ""
    ensures Search(peliculas, nombre, anio, anioNumber) == MoviesByTitleAndYear(peliculas, nombre, anioNumber)
  {
    FilterCongruent(peliculas, MatchesQuery(nombre, anio, anioNumber), TitleAndYearMatch(nombre, anioNumber));
  }
}
