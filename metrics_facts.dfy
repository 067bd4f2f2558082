/** What the metrics mean: the extremes are the first records attaining the
    optimum, the average lies between them, and the buckets count what they say. */
module MetricsFacts {
  import opened Wrappers
  import opened Seqs
  import opened Movies
  import opened MovieMetrics

  /** At most one position is the first extreme. */
  lemma FirstExtremeUnique(ms: seq<Movie>, k: nat, k': nat, key: Key, d: Direction)
    requires k < |ms| && k' < |ms|
    requires FirstExtremeAt(ms, k, key, d) && FirstExtremeAt(ms, k', key, d)
    ensures k == k'
  {
  }

  /** Conversely, whatever position is the first extreme is the one the slot holds. */
  lemma ExtremumIsFirstExtreme(ms: seq<Movie>, k: nat, key: Key, d: Direction)
    requires k < |ms| && FirstExtremeAt(ms, k, key, d)
    ensures Extremum(ms, key, d) == Some(ms[k])
  {
    ExtremumFirstWins(ms, key, d);
    assert !NoneKeyed(ms, key);
    var k' :| 0 <= k' < |ms| && FirstExtremeAt(ms, k', key, d) && Extremum(ms, key, d) == Some(ms[k']);
    FirstExtremeUnique(ms, k, k', key, d);
  }

  /** A highlight in the result describes its slot's record: the same id and title, and the truthy key value. */
  lemma HighlightDescribesExtreme(ms: seq<Movie>, key: Key, d: Direction)
    ensures Summarize(Extremum(ms, key, d), key).None? <==> NoneKeyed(ms, key)
    ensures var h := Summarize(Extremum(ms, key, d), key);
            h.Some? ==> exists k :: 0 <= k < |ms| && FirstExtremeAt(ms, k, key, d) &&
                                    h.value == Highlight(ms[k].id, ms[k].title, KeyOf(ms[k], key).value)
  {
    ExtremumFirstWins(ms, key, d);
  }

  // The average rating.

  /** Every truthy rating lies in `[lo, hi]`. */
  ghost predicate RatingsWithin(ms: seq<Movie>, lo: int, hi: int)
  {
    forall i :: 0 <= i < |ms| && KeyOf(ms[i], Rating).Some? ==> lo <= KeyOf(ms[i], Rating).value <= hi
  }

  lemma {:induction false} RatedCountPositive(ms: seq<Movie>)
    ensures RatedCount(ms) > 0 <==> !NoneKeyed(ms, Rating)
    decreases |ms|
  {
    if ms != [] {
      var p := ms[..|ms| - 1];
      RatedCountPositive(p);
      assert forall i :: 0 <= i < |p| ==> p[i] == ms[i];
    }
  }

  lemma {:induction false} RatingSumWithin(ms: seq<Movie>, lo: int, hi: int)
    requires RatingsWithin(ms, lo, hi)
    ensures RatedCount(ms) * lo <= RatingSum(ms) <= RatedCount(ms) * hi
    decreases |ms|
  {
    if ms != [] {
      var p := ms[..|ms| - 1];
      assert forall i :: 0 <= i < |p| ==> p[i] == ms[i];
      RatingSumWithin(p, lo, hi);
      if KeyOf(ms[|ms| - 1], Rating).Some? {
        assert RatedCount(ms) * lo == RatedCount(p) * lo + lo;
        assert RatedCount(ms) * hi == RatedCount(p) * hi + hi;
      }
    }
  }

  lemma MeanWithin(sum: int, count: int, lo: int, hi: int)
    requires count > 0 && count * lo <= sum <= count * hi
    ensures lo as real <= (sum as real) / (count as real) <= hi as real
  {
    var c := count as real;
    var a := (sum as real) / c;
    assert a * c == sum as real;
    assert (lo as real) * c <= a * c <= (hi as real) * c;
  }

  /** Both rating highlights are absent exactly when nothing is rated, and then the average is 0;
      otherwise the average lies between the lowest and the highest rating. */
  lemma AverageWithinRatingExtremes(ms: seq<Movie>)
    ensures var mt := MetricsOf(ms);
            (mt.highestRatedMovie.None? <==> RatedCount(ms) == 0) &&
            (mt.lowestRatedMovie.None? <==> RatedCount(ms) == 0)
    ensures var mt := MetricsOf(ms);
            mt.highestRatedMovie.None? ==> mt.averageRating == 0.0
    ensures var mt := MetricsOf(ms);
            mt.highestRatedMovie.Some? && mt.lowestRatedMovie.Some? ==>
              (mt.lowestRatedMovie.value.value as real) / 10.0 <= mt.averageRating <=
              (mt.highestRatedMovie.value.value as real) / 10.0
  {
    RatedCountPositive(ms);
    ExtremumFirstWins(ms, Rating, Greatest);
    ExtremumFirstWins(ms, Rating, Least);
    if RatedCount(ms) > 0 {
      var hk :| 0 <= hk < |ms| && FirstExtremeAt(ms, hk, Rating, Greatest) && Extremum(ms, Rating, Greatest) == Some(ms[hk]);
      var lk :| 0 <= lk < |ms| && FirstExtremeAt(ms, lk, Rating, Least) && Extremum(ms, Rating, Least) == Some(ms[lk]);
      var hi, lo := KeyOf(ms[hk], Rating).value, KeyOf(ms[lk], Rating).value;
      assert RatingsWithin(ms, lo, hi);
      RatingSumWithin(ms, lo, hi);
      MeanWithin(RatingSum(ms), RatedCount(ms), lo, hi);
    }
  }

  // The decade distribution.

  /** Records with a truthy year in the decade starting at `decade`. */
  function InDecade(decade: int): Movie -> bool
  {
    (m: Movie) => KeyOf(m, ReleaseYear).Some? && Decade(m.year) == decade
  }

  /** Each decade bucket counts the records with a truthy year in that decade, and only
      decades (multiples of 10) that some record falls in appear as keys. */
  lemma {:induction false} DecadeBucket(ms: seq<Movie>, decade: int)
    ensures Get(ByDecade(ms), decade) == |Filter(ms, InDecade(decade))|
    ensures decade in ByDecade(ms) ==> decade % 10 == 0 && ByDecade(ms)[decade] > 0
    decreases |ms|
  {
    if ms != [] {
      var p, m := ms[..|ms| - 1], ms[|ms| - 1];
      assert ms == p + [m];
      DecadeBucket(p, decade);
      FilterAppend(p, m, InDecade(decade));
    }
  }

  // The genre distribution.

  /** Occurrences of `g` among the trimmed genre tokens of all records. */
  function TokenCount(ms: seq<Movie>, g: string): nat
    decreases |ms|
  {
    if ms == [] then 0 else TokenCount(ms[..|ms| - 1], g) + multiset(GenreTokens(ms[|ms| - 1]))[g]
  }

  lemma {:induction false} BumpAllCounts<K>(m: map<K, nat>, ks: seq<K>, k: K)
    ensures Get(BumpAll(m, ks), k) == Get(m, k) + multiset(ks)[k]
    ensures k in BumpAll(m, ks) <==> k in m || k in ks
    decreases |ks|
  {
    if ks != [] {
      var p := ks[..|ks| - 1];
      assert ks == p + [ks[|ks| - 1]];
      BumpAllCounts(m, p, k);
    }
  }

  lemma {:induction false} TokenUnionMembers(ms: seq<Movie>, tokens: Movie -> seq<string>, g: string)
    ensures g in TokenUnion(ms, tokens) <==> exists i :: 0 <= i < |ms| && g in tokens(ms[i])
    decreases |ms|
  {
    if ms != [] {
      var p, last := ms[..|ms| - 1], |ms| - 1;
      TokenUnionMembers(p, tokens, g);
      if g in TokenUnion(p, tokens) {
        var i :| 0 <= i < |p| && g in tokens(p[i]);
        assert ms[i] == p[i];
      } else if g in tokens(ms[last]) {
        assert g in Elements(tokens(ms[last]));
      }
      if exists i :: 0 <= i < |ms| && g in tokens(ms[i]) {
        var i :| 0 <= i < |ms| && g in tokens(ms[i]);
        if i < last {
          assert p[i] == ms[i];
        } else {
          assert g in Elements(tokens(ms[last]));
        }
      }
    }
  }

  /** `g` is one of the distinct genres exactly when some record lists it. */
  lemma GenreSetMembers(ms: seq<Movie>, g: string)
    ensures g in GenreSet(ms) <==> exists i :: 0 <= i < |ms| && g in GenreTokens(ms[i])
  {
    TokenUnionMembers(ms, GenreTokens, g);
  }

  /** Each genre bucket counts the token's occurrences, and the buckets' keys are the distinct genres. */
  lemma {:induction false} GenreBucket(ms: seq<Movie>, g: string)
    ensures Get(ByGenre(ms), g) == TokenCount(ms, g)
    ensures g in ByGenre(ms) <==> g in GenreSet(ms)
    decreases |ms|
  {
    if ms != [] {
      var p, m := ms[..|ms| - 1], ms[|ms| - 1];
      GenreBucket(p, g);
      BumpAllCounts(ByGenre(p), GenreTokens(m), g);
    }
  }

  /** `total_genres` is the number of genre buckets. */
  lemma GenreKeys(ms: seq<Movie>)
    ensures ByGenre(ms).Keys == GenreSet(ms)
    ensures MetricsOf(ms).totalGenres == |MetricsOf(ms).moviesByGenre|
  {
    forall g
      ensures g in ByGenre(ms) <==> g in GenreSet(ms)
    {
      GenreBucket(ms, g);
    }
    assert ByGenre(ms).Keys == GenreSet(ms);
  }

  /** Records listing `g` among their genre tokens. */
  function Carries(g: string): Movie -> bool
  {
    (m: Movie) => g in GenreTokens(m)
  }

  /** A genre bucket is at least the number of records listing the genre, and equal to it
      when no record lists the genre twice. */
  lemma {:induction false} GenreBucketCarriers(ms: seq<Movie>, g: string)
    ensures TokenCount(ms, g) >= |Filter(ms, Carries(g))|
    ensures (forall i :: 0 <= i < |ms| ==> multiset(GenreTokens(ms[i]))[g] <= 1) ==>
              TokenCount(ms, g) == |Filter(ms, Carries(g))|
    decreases |ms|
  {
    if ms != [] {
      var p, m := ms[..|ms| - 1], ms[|ms| - 1];
      assert ms == p + [m];
      assert forall i :: 0 <= i < |p| ==> p[i] == ms[i];
      GenreBucketCarriers(p, g);
      FilterAppend(p, m, Carries(g));
      assert g in GenreTokens(m) <==> multiset(GenreTokens(m))[g] > 0;
    }
  }

  /** An empty collection gives zero totals, no highlights and empty distributions. */
  lemma MetricsOfEmpty()
    ensures MetricsOf([]) == Metrics(0, 0, 0.0, None, None, None, None, None, None, map[], map[])
  {
  }
}
