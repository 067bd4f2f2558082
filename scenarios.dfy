/** A worked two-record collection: Alpha rated 9.5 and Beta rated 4.0, both from 1990. */
module Scenarios {
  import opened Wrappers
  import opened Seqs
  import opened Text
  import opened Movies
  import opened MovieQueries
  import opened MovieMetrics

  const Alpha := Movie("1", "Alpha", 1990, None, None, None, None, Some(95), None)
  const Beta := Movie("2", "Beta", 1990, None, None, None, None, Some(40), None)

  /** Rating at least 9 keeps only Alpha. */
  lemma MinRatingExample()
    ensures MoviesByMinRating([Alpha, Beta], 90) == [Alpha]
  {
    assert [Alpha, Beta][1..] == [Beta];
  }

  /** Both records fall in the 1990s, and the mean of 9.5 and 4.0 is 6.75. */
  lemma MetricsExample()
    ensures ByDecade([Alpha, Beta]) == map[1990 := 2]
    ensures AverageRating([Alpha, Beta]) == 6.75
  {
    var ms := [Alpha, Beta];
    assert ms[..1] == [Alpha] && ms[..1][..0] == [] && ms[..|ms| - 1] == [Alpha];
    assert Decade(1990) == 1990;
    assert RatedCount([Alpha]) == 1 && RatingSum([Alpha]) == 95;
    assert RatedCount(ms) == 2 && RatingSum(ms) == 135;
    assert ByDecade([Alpha]) == map[1990 := 1];
  }

  /** "alp" occurs in "Alpha" once both are lower-cased, and not in "Beta". */
  lemma TitleMentionsExample()
    ensures TitleMentions(Alpha, "alp") && !TitleMentions(Beta, "alp")
  {
    assert ToLower("Alpha") == "alpha";
    assert ToLower("alp") == "alp";
    assert OccursAt("alpha", "alp", 0);
    assert ToLower("Beta") == "beta";
    assert "beta"[..3][0] != "alp"[0] && "beta"[1..] == "eta";
    assert "eta"[..3][0] != "alp"[0] && "eta"[1..] == "ta";
    assert !Contains("ta", "alp");
    assert !Contains("eta", "alp");
  }

  /** The title-and-year search finds Alpha in 1990 and nothing in 1991. */
  lemma TitleAndYearExample()
    ensures MoviesByTitleAndYear([Alpha, Beta], "alp", Some(1990)) == [Alpha]
    ensures MoviesByTitleAndYear([Alpha, Beta], "alp", Some(1991)) == []
  {
    TitleMentionsExample();
    var ms := [Alpha, Beta];
    assert ms[1..] == [Beta] && [Beta][1..] == [];
    var p, q := TitleAndYearMatch("alp", Some(1990)), TitleAndYearMatch("alp", Some(1991));
    assert p(Alpha) && !p(Beta) && !q(Alpha) && !q(Beta);
    assert Filter([Beta], p) == [] && Filter([Beta], q) == [];
    assert Filter(ms, p) == [Alpha] + Filter([Beta], p);
  }
}
