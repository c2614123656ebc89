/** The sentiment decision of `analyze_sentiment_vader` (app1.py): a VADER compound score,
    nudged by the star rating, cut into three labels. The compound score itself is an oracle. */
module Sentiment {
  import opened Wrappers

  /** The three labels, spelled "Positif", "Négatif" and "Neutre" in the JSON output. */
  datatype Label = Positif | Negatif | Neutre

  function Name(l: Label): string {
    match l
    case Positif => "Positif"
    case Negatif => "N\U{E9}gatif"
    case Neutre => "Neutre"
  }

  /** The rating assumed when none was found. */
  const DefaultRating: real := 3.0
  /** How far a strong rating moves the score. */
  const Nudge: real := 0.2
  /** Half-width of the neutral band around zero. */
  const Band: real := 0.05

  /** Labels ordered from most negative to most positive. */
  function Rank(l: Label): nat {
    match l
    case Negatif => 0
    case Neutre => 1
    case Positif => 2
  }

  /** The amount the rating adds to the compound score. */
  function Shift(rating: real): (d: real)
    ensures d == Nudge <==> rating >= 4.0
    ensures d == -Nudge <==> rating <= 2.0
    ensures d == 0.0 <==> 2.0 < rating < 4.0
  {
    if rating >= 4.0 then Nudge
    else if rating <= 2.0 then -Nudge
    else 0.0
  }

  /** The three-way cut of an adjusted score: exactly one label, chosen by the band. */
  function Classify(score: real): (l: Label)
    ensures l == Positif <==> score >= Band
    ensures l == Negatif <==> score <= -Band
    ensures l == Neutre <==> -Band < score < Band
  {
    if score >= Band then Positif
    else if score <= -Band then Negatif
    else Neutre
  }

  /** The decision once a compound score is known; an absent rating counts as the default. */
  function Decide(compound: real, rating: Option<real>): (l: Label)
    ensures l == Positif <==> compound + Shift(rating.GetOr(DefaultRating)) >= Band
    ensures l == Negatif <==> compound + Shift(rating.GetOr(DefaultRating)) <= -Band
  {
    var r := rating.GetOr(DefaultRating);
    Classify(compound + Shift(r))
  }

  /** `analyze_sentiment_vader(comment, rating)` with the VADER compound score as `compound`
      (which also stands for the punctuation-stripping and lower-casing before scoring). */
  function AnalyzeSentiment(comment: string, rating: Option<real>, compound: string -> real): (l: Label)
    ensures comment == [] ==> l == Neutre
    ensures comment != [] ==> l == Decide(compound(comment), rating)
  {
    if comment == [] then Neutre
    else Decide(compound(comment), rating)
  }

  /** An empty comment is neutral whatever the rating and whatever the scorer says. */
  lemma EmptyCommentNeutral(rating: Option<real>, compound: string -> real)
    ensures AnalyzeSentiment([], rating, compound) == Neutre
  {
  }

  /** A missing rating behaves exactly like a rating of 3, which leaves the score alone. */
  lemma MissingRatingIsThree(compound: real)
    ensures Decide(compound, None) == Decide(compound, Some(3.0))
    ensures Decide(compound, None) == Classify(compound)
  {
  }

  /** Ratings strictly between 2 and 4 (3.5, say) never move the score. */
  lemma MidRatingsNoShift(compound: real, rating: real)
    requires 2.0 < rating < 4.0
    ensures Decide(compound, Some(rating)) == Classify(compound)
  {
  }

  /** A higher compound score never yields a more negative label. */
  lemma MonotoneInScore(c1: real, c2: real, rating: Option<real>)
    requires c1 <= c2
    ensures Rank(Decide(c1, rating)) <= Rank(Decide(c2, rating))
  {
  }

  /** A higher rating never yields a more negative label. */
  lemma MonotoneInRating(compound: real, r1: real, r2: real)
    requires r1 <= r2
    ensures Rank(Decide(compound, Some(r1))) <= Rank(Decide(compound, Some(r2)))
  {
    assert Shift(r1) <= Shift(r2);
  }

  /** A rating of 4 or more turns any compound score of at least -0.15 positive; a rating of
      2 or less turns any compound score of at most 0.15 negative. */
  lemma RatingOverridesMildText(compound: real, rating: real)
    ensures rating >= 4.0 && compound >= -0.15 ==> Decide(compound, Some(rating)) == Positif
    ensures rating <= 2.0 && compound <= 0.15 ==> Decide(compound, Some(rating)) == Negatif
  {
  }

  /** The three labels have distinct names. */
  lemma NamesDistinct(l: Label, m: Label)
    ensures Name(l) == Name(m) <==> l == m
  {
    if l != m {
      assert Name(l)[1] != Name(m)[1] || Name(l)[0] != Name(m)[0];
    }
  }
}
