/** The guard of the `/summary` route (app1.py): a summary is asked for only when there are
    stored reviews and their comments, joined with spaces, hold at least 50 words. The BART
    summariser is an oracle taking the text and the maximum and minimum summary lengths. */
module Summary {
  import opened Text
  import opened VectorStore

  /** The fewest words worth summarising. */
  const MinWords: nat := 50
  /** The length bounds `summarize_text` passes to the generator by default. */
  const MaxSummaryLength: nat := 130
  const MinSummaryLength: nat := 30

  /** The route's three answers: "Aucun avis disponible", "Pas assez de texte pour un résumé"
      (both with status 400), or the summary. */
  datatype Outcome = NoReviews | NotEnoughText | Summarised(text: string)

  /** `summarize_reviews()` over the stored reviews. */
  function SummarizeReviews(reviews: seq<Entry>, summarizer: (string, nat, nat) -> string): (r: Outcome)
    ensures r == NoReviews <==> reviews == []
    ensures r == NotEnoughText <==> reviews != [] && WordCountSum(Comments(reviews)) < MinWords
    ensures r.Summarised? ==>
              && WordCountSum(Comments(reviews)) >= MinWords
              && r.text == summarizer(JoinSpace(Comments(reviews)), MaxSummaryLength, MinSummaryLength)
  {
    if reviews == [] then NoReviews
    else
      var fullText := JoinSpace(Comments(reviews));
      WordCountOfJoin(Comments(reviews));
      if |Words(fullText)| < MinWords then NotEnoughText
      else Summarised(summarizer(fullText, MaxSummaryLength, MinSummaryLength))
  }

  /** Whatever the summariser is given has at least 50 whitespace-separated words. */
  lemma SummariserSeesEnoughWords(reviews: seq<Entry>, summarizer: (string, nat, nat) -> string)
    requires SummarizeReviews(reviews, summarizer).Summarised?
    ensures |Words(JoinSpace(Comments(reviews)))| >= MinWords
  {
    WordCountOfJoin(Comments(reviews));
  }

  /** Appending a text adds its words to the total. */
  lemma {:induction false} WordCountSumGrows(parts: seq<string>, more: string)
    ensures WordCountSum(parts + [more]) == WordCountSum(parts) + |Words(more)|
  {
    if parts == [] {
      assert parts + [more] == [more];
      assert [more][1..] == [];
    } else {
      assert (parts + [more])[1..] == parts[1..] + [more];
      WordCountSumGrows(parts[1..], more);
    }
  }

  /** Adding a review never takes away a summary: more comments mean at least as many words. */
  lemma SummaryStaysAvailable(reviews: seq<Entry>, e: Entry, summarizer: (string, nat, nat) -> string)
    requires SummarizeReviews(reviews, summarizer).Summarised?
    ensures SummarizeReviews(reviews + [e], summarizer).Summarised?
  {
    assert Comments(reviews + [e]) == Comments(reviews) + [e.comment];
    WordCountSumGrows(Comments(reviews), e.comment);
  }
}
