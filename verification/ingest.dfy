/** The `/scrape` route of the web app (app1.py): check the product URL, scrape, then for
    every scraped review stamp the time, recompute its numeric rating and sentiment, and store
    it in the vector index; answer with the reviews and the index's row count. The browser,
    the clock, the sentiment scorer and the encoder are oracles; the JSON file written on the
    way is not modelled. */
module Ingest {
  import opened Wrappers
  import opened Ratings
  import opened Sentiment
  import opened VectorStore
  import opened PageUrl

  /** The three texts read from one review element of the product page. */
  datatype Scraped = Scraped(username: string, rating: string, comment: string)

  /** One review dict; `scrapedAt` is absent until the route stamps it. */
  datatype Review = Review(username: string, rating: string, ratingNum: Option<real>,
                           comment: string, sentiment: Label, scrapedAt: Option<string>)

  /** The dict `scrape_reviews` builds for one element: numeric rating and sentiment computed
      from the texts as read. */
  function FirstPass(s: Scraped, compound: string -> real): (r: Review)
    ensures r.username == s.username && r.rating == s.rating && r.comment == s.comment
    ensures r.ratingNum == ExtractNumericRating(s.rating)
    ensures r.sentiment == AnalyzeSentiment(s.comment, ExtractNumericRating(s.rating), compound)
    ensures r.scrapedAt.None?
  {
    var num := ExtractNumericRating(s.rating);
    Review(s.username, s.rating, num, s.comment, AnalyzeSentiment(s.comment, num, compound), None)
  }

  /** One pass of the route's loop over a review dict, without the store: the time stamp is
      set and the numeric rating and sentiment are computed again from the dict's own texts. */
  function Restamp(r: Review, stamp: string, compound: string -> real): (t: Review)
    ensures t.username == r.username && t.rating == r.rating && t.comment == r.comment
    ensures t.ratingNum == ExtractNumericRating(r.rating)
    ensures t.sentiment == AnalyzeSentiment(r.comment, t.ratingNum, compound)
    ensures t.scrapedAt == Some(stamp)
  {
    var num := ExtractNumericRating(r.rating);
    r.(scrapedAt := Some(stamp), ratingNum := num, sentiment := AnalyzeSentiment(r.comment, num, compound))
  }

  /** Recomputing changes nothing but the stamp: both computations are pure, so the second
      pass agrees with the first. */
  lemma RecomputeAgrees(s: Scraped, stamp: string, compound: string -> real)
    ensures Restamp(FirstPass(s, compound), stamp, compound)
         == FirstPass(s, compound).(scrapedAt := Some(stamp))
  {
  }

  /** The records the store receives for a list of review dicts, in order. */
  function EntriesOf(raw: seq<Review>, encode: string -> Vector): (es: seq<Entry>)
    ensures |es| == |raw|
    ensures forall i :: 0 <= i < |raw| ==> es[i] == Entry(raw[i].username, raw[i].comment, encode(raw[i].comment))
  {
    seq(|raw|, i requires 0 <= i < |raw| => Entry(raw[i].username, raw[i].comment, encode(raw[i].comment)))
  }

  lemma EntriesOfCons(prefix: seq<Entry>, raw: seq<Review>, encode: string -> Vector)
    requires raw != []
    ensures prefix + EntriesOf(raw, encode)
         == (prefix + [Entry(raw[0].username, raw[0].comment, encode(raw[0].comment))]) + EntriesOf(raw[1..], encode)
  {
    var e := EntriesOf(raw, encode);
    var t := EntriesOf(raw[1..], encode);
    var head := Entry(raw[0].username, raw[0].comment, encode(raw[0].comment));
    assert e == [head] + t by {
      forall i | 0 <= i < |e|
        ensures e[i] == ([head] + t)[i]
      {
        if i > 0 {
          assert raw[1..][i - 1] == raw[i];
        }
      }
    }
    assert prefix + ([head] + t) == (prefix + [head]) + t;
  }

  /** The dict updates of the route's loop: each review gets the time read at its own
      iteration and a recomputed numeric rating and sentiment, in place. */
  function StampAll(raw: seq<Review>, clock: nat -> string, compound: string -> real): (rs: seq<Review>)
    ensures |rs| == |raw|
    ensures forall i :: 0 <= i < |raw| ==> rs[i] == Restamp(raw[i], clock(i), compound)
  {
    seq(|raw|, i requires 0 <= i < |raw| => Restamp(raw[i], clock(i), compound))
  }

  /** The store updates of the route's loop: `store_review_faiss` once per review, in order. */
  function StoreLoop(st: Store, raw: seq<Review>, encode: string -> Vector): (r: Store)
    ensures r.reviews == st.reviews + EntriesOf(raw, encode)
    ensures raw == [] ==> r == st
    decreases |raw|
  {
    if raw == [] then st
    else
      var next := StoreReview(st, raw[0].username, raw[0].comment, encode);
      EntriesOfCons(st.reviews, raw, encode);
      StoreLoop(next, raw[1..], encode)
  }

  /** After a non-empty loop the index is flat and has gained one row per review, counted
      from zero when the loop started on the route function instead of an index. */
  lemma {:induction false} StoreLoopRows(st: Store, raw: seq<Review>, encode: string -> Vector)
    requires raw != []
    ensures StoreLoop(st, raw, encode).index.Flat?
    ensures RowCount(StoreLoop(st, raw, encode).index) == RowCount(st.index) + |raw|
    decreases |raw|
  {
    var next := StoreReview(st, raw[0].username, raw[0].comment, encode);
    if raw[1..] != [] {
      StoreLoopRows(next, raw[1..], encode);
    }
  }

  /** The loop keeps the store reachable, and afterwards every stored review has its row. */
  lemma {:induction false} StoreLoopKeepsInv(st: Store, raw: seq<Review>, encode: string -> Vector)
    requires Inv(st, encode)
    ensures Inv(StoreLoop(st, raw, encode), encode)
    ensures raw != [] ==> Aligned(StoreLoop(st, raw, encode), encode)
    decreases |raw|
  {
    if raw != [] {
      StorePreservesInv(st, raw[0].username, raw[0].comment, encode);
      var next := StoreReview(st, raw[0].username, raw[0].comment, encode);
      StoreLoopKeepsInv(next, raw[1..], encode);
    }
  }

  /** Why a scrape request is answered with an error. */
  datatype ScrapeError = BadUrl(e: UrlError) | NoReviewsFound

  /** A successful answer: the stamped reviews and `faiss_count`. */
  datatype Answer = Answer(reviews: seq<Review>, faissCount: nat)

  /** `scrape()`. `scraper(url)` stands for what the browser reads from the product page (an
      empty list when the page says it has no reviews). */
  function ScrapeRoute(st: Store, field: Option<string>, scraper: string -> seq<Scraped>,
                       clock: nat -> string, compound: string -> real, encode: string -> Vector)
    : (r: (Store, Result<Answer, ScrapeError>))
    ensures RouteProductUrl(field).Failure? <==> r.1.Failure? && r.1.error.BadUrl?
    ensures RouteProductUrl(field).Failure? ==> r == (st, Failure(BadUrl(RouteProductUrl(field).error)))
    ensures RouteProductUrl(field).Success? && scraper(RouteProductUrl(field).value) == [] <==>
              r.1 == Failure(NoReviewsFound)
    ensures r.1.Failure? ==> r.0 == st
    ensures r.1.Success? ==>
              var scraped := scraper(RouteProductUrl(field).value);
              && |r.1.value.reviews| == |scraped| > 0
              && r.0.index.Flat?
              && r.1.value.faissCount == |r.0.index.rows|
              && r.0.reviews == st.reviews + EntriesOf(r.1.value.reviews, encode)
              && forall i :: 0 <= i < |scraped| ==>
                   r.1.value.reviews[i] == FirstPass(scraped[i], compound).(scrapedAt := Some(clock(i)))
  {
    match RouteProductUrl(field)
    case Failure(e) => (st, Failure(BadUrl(e)))
    case Success(url) =>
      var scraped := scraper(url);
      if scraped == [] then (st, Failure(NoReviewsFound))
      else
        var raw := seq(|scraped|, i requires 0 <= i < |scraped| => FirstPass(scraped[i], compound));
        var out := StampAll(raw, clock, compound);
        var next := StoreLoop(st, raw, encode);
        StoreLoopRows(st, raw, encode);
        assert EntriesOf(out, encode) == EntriesOf(raw, encode);
        (next, Success(Answer(out, |next.index.rows|)))
  }

  /** On a reachable store, a successful scrape grows the store by exactly one aligned entry
      per scraped review, and the reported count is the new number of stored reviews. */
  lemma ScrapeRouteCountsStored(st: Store, field: Option<string>, scraper: string -> seq<Scraped>,
                                clock: nat -> string, compound: string -> real, encode: string -> Vector)
    requires Inv(st, encode)
    requires ScrapeRoute(st, field, scraper, clock, compound, encode).1.Success?
    ensures Aligned(ScrapeRoute(st, field, scraper, clock, compound, encode).0, encode)
    ensures |ScrapeRoute(st, field, scraper, clock, compound, encode).0.reviews|
         == |st.reviews| + |ScrapeRoute(st, field, scraper, clock, compound, encode).1.value.reviews|
    ensures ScrapeRoute(st, field, scraper, clock, compound, encode).1.value.faissCount
         == |ScrapeRoute(st, field, scraper, clock, compound, encode).0.reviews|
  {
    var url := RouteProductUrl(field).value;
    var scraped := scraper(url);
    var raw := seq(|scraped|, i requires 0 <= i < |scraped| => FirstPass(scraped[i], compound));
    StoreLoopKeepsInv(st, raw, encode);
  }
}
