/** `preprocess_reviews` of the batch scraper (scraper_amazon_reviews.py): every review dict
    gets its string rating turned into a number (or `None`), its string comment normalised,
    and one shared time stamp. */
module Preprocess {
  import opened Wrappers
  import opened Text
  import opened Ratings
  import opened Normalizer

  /** The JSON-like values a review dict holds. */
  datatype Value = Str(s: string) | Num(x: real) | Null

  /** A review dict: field names to values. */
  type Doc = map<string, Value>

  const UsernameField: string := "username"
  const RatingField: string := "rating"
  const CommentField: string := "comment"
  const ScrapedAtField: string := "scraped_at"

  /** The suffix appended to the ISO time: the stamp is written as UTC. */
  const UtcMarker: string := "Z"

  /** A parsed rating as stored: the number, or `None`. */
  function RatingValue(r: Option<real>): (v: Value)
    ensures r.None? <==> v == Null
    ensures r.Some? <==> v == Num(r.GetOr(0.0))
  {
    match r
    case None => Null
    case Some(x) => Num(x)
  }

  predicate HasString(doc: Doc, field: string) {
    field in doc && doc[field].Str?
  }

  /** The rating step: only a string rating is touched. */
  function CleanRating(doc: Doc, other: string -> Option<real>): (d: Doc)
    ensures d.Keys == doc.Keys
    ensures forall k :: k in doc && k != RatingField ==> d[k] == doc[k]
    ensures HasString(doc, RatingField) ==>
              d[RatingField] == RatingValue(ParseRatingText(doc[RatingField].s, other))
    ensures !HasString(doc, RatingField) ==> d == doc
  {
    if HasString(doc, RatingField) then
      doc[RatingField := RatingValue(ParseRatingText(doc[RatingField].s, other))]
    else doc
  }

  /** The comment step: only a string comment is touched. */
  function CleanComment(doc: Doc): (d: Doc)
    ensures d.Keys == doc.Keys
    ensures forall k :: k in doc && k != CommentField ==> d[k] == doc[k]
    ensures HasString(doc, CommentField) ==> d[CommentField] == Str(NormalizeComment(doc[CommentField].s))
    ensures !HasString(doc, CommentField) ==> d == doc
  {
    if HasString(doc, CommentField) then
      doc[CommentField := Str(NormalizeComment(doc[CommentField].s))]
    else doc
  }

  /** One iteration of the loop, with `now` the ISO text of the time read before the loop. */
  function PreprocessReview(doc: Doc, now: string, other: string -> Option<real>): (d: Doc)
    ensures d.Keys == doc.Keys + {ScrapedAtField}
    ensures d[ScrapedAtField] == Str(now + UtcMarker)
    ensures forall k :: k in doc && k != RatingField && k != CommentField && k != ScrapedAtField ==>
              d[k] == doc[k]
    ensures HasString(doc, RatingField) ==>
              d[RatingField] == RatingValue(ParseRatingText(doc[RatingField].s, other))
    ensures RatingField in doc && !doc[RatingField].Str? ==> d[RatingField] == doc[RatingField]
    ensures HasString(doc, CommentField) ==> d[CommentField] == Str(NormalizeComment(doc[CommentField].s))
    ensures CommentField in doc && !doc[CommentField].Str? ==> d[CommentField] == doc[CommentField]
  {
    CleanComment(CleanRating(doc, other))[ScrapedAtField := Str(now + UtcMarker)]
  }

  /** `preprocess_reviews(data)`: the same list, each dict processed, all stamped alike. */
  function PreprocessReviews(data: seq<Doc>, now: string, other: string -> Option<real>): (r: seq<Doc>)
    ensures |r| == |data|
    ensures forall i :: 0 <= i < |data| ==> r[i] == PreprocessReview(data[i], now, other)
  {
    seq(|data|, i requires 0 <= i < |data| => PreprocessReview(data[i], now, other))
  }

  /** Every record of one call carries the same time stamp. */
  lemma OneStampPerCall(data: seq<Doc>, now: string, other: string -> Option<real>, i: nat, j: nat)
    requires i < |data| && j < |data|
    ensures ScrapedAtField in PreprocessReviews(data, now, other)[i]
    ensures PreprocessReviews(data, now, other)[i][ScrapedAtField]
         == PreprocessReviews(data, now, other)[j][ScrapedAtField]
  {
  }

  /** A rating that is empty or only whitespace is stored as `None`. */
  lemma BlankRatingStoredAsNull(doc: Doc, now: string, other: string -> Option<real>)
    requires HasString(doc, RatingField) && AllSpace(doc[RatingField].s)
    ensures PreprocessReview(doc, now, other)[RatingField] == Null
  {
  }

  /** A rating the fallback parser rejects is stored as `None` rather than raising. */
  lemma UnparsableRatingStoredAsNull(doc: Doc, now: string, other: string -> Option<real>)
    requires HasString(doc, RatingField)
    requires !AllSpace(doc[RatingField].s)
    requires forall v :: !FloatLiteral(NumberPart(Strip(doc[RatingField].s)), v)
    requires other(NumberPart(Strip(doc[RatingField].s))) == None
    ensures PreprocessReview(doc, now, other)[RatingField] == Null
  {
  }

  /** "<a>,<b> sur 5 étoiles" is stored as the number a.b. */
  lemma StarsRatingStoredAsNumber(doc: Doc, a: string, b: string, now: string, other: string -> Option<real>)
    requires a != [] && b != [] && AllDigits(a) && AllDigits(b)
    requires RatingField in doc && doc[RatingField] == Str(a + "," + b + StarsSuffix)
    ensures PreprocessReview(doc, now, other)[RatingField] == Num(DecimalValue(a, b))
  {
    ParseDecimalStars(a, b, other);
  }

  /** Preprocessing twice changes nothing further except the stamp: a parsed rating is no
      longer a string, and the comment normalisation is idempotent. */
  lemma PreprocessTwice(doc: Doc, now: string, later: string, other: string -> Option<real>)
    ensures PreprocessReview(PreprocessReview(doc, now, other), later, other)
         == PreprocessReview(doc, later, other)
  {
    var d2 := PreprocessReview(PreprocessReview(doc, now, other), later, other);
    var e := PreprocessReview(doc, later, other);
    forall k | k in e
      ensures k in d2 && d2[k] == e[k]
    {
      PreprocessTwiceAt(doc, now, later, other, k);
    }
  }

  /** The field-by-field step of `PreprocessTwice`. */
  lemma PreprocessTwiceAt(doc: Doc, now: string, later: string, other: string -> Option<real>, k: string)
    requires k in doc || k == ScrapedAtField
    ensures k in PreprocessReview(PreprocessReview(doc, now, other), later, other)
    ensures PreprocessReview(PreprocessReview(doc, now, other), later, other)[k]
         == PreprocessReview(doc, later, other)[k]
  {
    if k == CommentField && HasString(doc, CommentField) {
      NormalizeIdempotent(doc[CommentField].s);
    }
  }
}
