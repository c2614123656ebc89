# Amazon review pipeline — a Dafny model of its decision and bookkeeping logic

The system scrapes customer reviews from French Amazon product pages. It does two things with them:

- A Flask web application (`app1.py`) rates each review's sentiment with VADER. It keeps the comments in an in-memory FAISS index for similarity search and summarises them with BART.
- A batch scraper (`scraper_amazon_reviews.py`) cleans the reviews and upserts them into MongoDB.

This project models the deterministic logic between those services as pure Dafny functions and proves properties about it:

- reading a star-rating text such as "4,5 sur 5 étoiles" as a number, in both of the program's variants;
- the comment whitespace normalisation;
- the sentiment decision rule;
- the state machine formed by the vector index and the `reviews` list beside it, and the search over it;
- the `/scrape` ingest loop;
- the guard in front of the summariser;
- review preprocessing;
- the upsert semantics of the bulk write;
- page-URL query rewriting.

The ML models, the browser, the clock, the database driver and the HTTP layer appear as function-typed parameters (oracles):

- `compound` is VADER's compound score;
- `encode` is the sentence encoder;
- `knn` is FAISS's k-nearest-neighbour search returning ids;
- `summarizer` is BART;
- `scraper` is what Selenium reads from the product page;
- `clock` is `utcnow().isoformat()`;
- `other` is the part of `float()` beyond plain decimal literals.

Modules (one file each):

| module | file | models |
|---|---|---|
| `Wrappers` | wrappers.dfy | `Option` (Python `None`) and `Result` (a value or what would be raised) |
| `Text` | text.dfy | the Python string primitives used: `str.isspace`, `strip()`, `split()`, `" ".join`, `split(sep)[0]`, `replace`, `str(n)` |
| `Ratings` | ratings.dfy | `extract_numeric_rating` (regex search) and the rating step of `preprocess_reviews` (`float` parse) |
| `Normalizer` | normalizer.dfy | `re.sub(r'\s+', ' ', c).strip()` |
| `Sentiment` | sentiment.dfy | `analyze_sentiment_vader` |
| `VectorStore` | vectorstore.dfy | the globals `index`/`reviews`, `store_review_faiss`, `search_reviews_faiss`, `get_faiss_info`, the `/search` guard |
| `Summary` | summary.dfy | the guard of `summarize_reviews` |
| `PageUrl` | pageurl.dfy | `build_page_url` and the two Amazon-prefix checks |
| `Ingest` | ingest.dfy | the `/scrape` route: URL check, scrape, per-review loop, reported row count |
| `Preprocess` | preprocess.dfy | `preprocess_reviews` on review dicts |
| `Upsert` | upsert.dfy | `store_reviews` as a sequence of `$set` upserts keyed on (username, comment) |

## Model

| member | source | states |
|---|---|---|
| Text.NatToString | scraper_amazon_reviews.py:70 | `str(n)` of a non-negative integer is a non-empty digit string without a leading zero whose decimal value is `n` |
| Text.IntToString | scraper_amazon_reviews.py:70 | `str(n)` of any integer starts with "-" exactly when `n` is negative; the rest is the digit string, without a leading zero, whose value is the magnitude of `n` |
| Text.DigitRunEnd | app1.py:78 | the greedy end of a `\d+` run from `i`: everything before it is a digit, the character at it is not |
| Text.Strip | scraper_amazon_reviews.py:24 | `str.strip()` removes a whitespace-only prefix and suffix and leaves a result that neither starts nor ends with whitespace |
| Text.StripNoop | scraper_amazon_reviews.py:24 | a string with non-whitespace at both ends is its own strip |
| Text.StripEmptyIff | scraper_amazon_reviews.py:24-26 | the stripped rating is empty exactly when the rating is all whitespace |
| Text.Words | app1.py:233 | `str.split()` gives no word exactly when the text is empty or all whitespace |
| Text.WordsOfWord | app1.py:233 | a non-empty run of non-whitespace characters splits into itself alone |
| Text.WordsAreWords | app1.py:233 | every word of `split()` is non-empty and contains no whitespace |
| Text.WordsAroundSpace | app1.py:232-233 | `(x + " " + y).split() == x.split() + y.split()` |
| Text.WordsSkipSpaces | app1.py:233 | leading whitespace adds no word to `split()` |
| Text.WordsAppendSpaces | app1.py:233 | trailing whitespace adds no word to `split()` |
| Text.WordsCons | app1.py:233 | a non-whitespace character in front starts a new first word or joins the existing one, depending on what follows |
| Text.StripKeepsWords | scraper_amazon_reviews.py:37 | `s.strip().split() == s.split()` |
| Text.JoinSpace | app1.py:232 | `" ".join(parts)` is as long as all the parts together plus one separator between each two neighbours; joining no parts gives "" |
| Text.SplitOfJoin | app1.py:232-233 | `" ".join(ws).split() == ws` whenever every `ws[k]` is a non-empty run of non-whitespace characters |
| Text.WordCountOfJoin | app1.py:232-233 | the word count of `" ".join(parts)` is the sum of the parts' word counts |
| Text.FindFrom | scraper_amazon_reviews.py:30 | the position found is an occurrence and no earlier position at or after the start is one; `None` only when there is none |
| Text.BeforeFirst | scraper_amazon_reviews.py:30 | for a non-empty `sep` (Python raises ValueError on an empty one), `s.split(sep)[0]` is the prefix of `s` that ends at the first occurrence of `sep`: no occurrence starts inside it, and it is all of `s` or `sep` follows it |
| Text.BeforeFirstAt | scraper_amazon_reviews.py:30 | when `sep` occurs at `i` and its first character appears nowhere before, `split(sep)[0]` is `s[..i]` |
| Text.StripAfterHead | scraper_amazon_reviews.py:24 | when the text starts with non-whitespace, `strip()` keeps a prefix of it that reaches past every non-whitespace character |
| Text.ReplaceChar | scraper_amazon_reviews.py:29-31 | single-character `replace` keeps the length and swaps exactly the matching characters |
| Text.ReplaceConcat | scraper_amazon_reviews.py:29-31 | `replace` distributes over concatenation |
| Text.ReplaceAbsent | scraper_amazon_reviews.py:29-31 | replacing a character that does not occur changes nothing |
| Ratings.MatchAt | app1.py:78 | the regex engine at one start position reports a value only where a digit starts, and the value is never negative (its full characterisation is MatchAtSpec) |
| Ratings.MatchAtSpec | app1.py:78 | the regex engine's answer at one position (greedy `\d+`, decimal alternative first) is exactly the declarative match relation there, both directions |
| Ratings.MatchAtSound | app1.py:78 | whatever the engine reports at a position is a match of the pattern there |
| Ratings.MatchAtFindsInteger | app1.py:78 | an integer match `\d+ sur 5 étoiles` is reported with its value |
| Ratings.MatchAtFindsDecimal | app1.py:78 | a decimal match `\d+,\d+ sur 5 étoiles` is reported with its value, comma read as point |
| Ratings.RatingAtUnique | app1.py:78 | at a given position the pattern denotes at most one value |
| Ratings.SearchFrom | app1.py:78 | `re.search` from `p`: `None` iff no position matches; otherwise the value at the leftmost matching position |
| Ratings.ExtractNumericRating | app1.py:74-79 | `None` iff the pattern matches nowhere; otherwise the leftmost match's group with the comma read as a point; never fails |
| Ratings.ExtractNumericRatingSpec | app1.py:78-79 | the same, stated against the declarative relation: `None` iff no digit run (optionally `,digits`) is followed by " sur 5 étoiles", else the leftmost one's value |
| Ratings.ExtractFirstMatch | app1.py:78-79 | a match at position 0 decides the result |
| Ratings.ExtractDecimal | app1.py:78-79 | "a,b sur 5 étoiles…" gives a.b |
| Ratings.ExtractInteger | app1.py:78-79 | "a sur 5 étoiles…" gives a |
| Ratings.ExtractNeedsSuffix | app1.py:78-79 | without the literal suffix the result is `None` |
| Ratings.ExtractExampleDecimal | app1.py:76-79 | "4,5 sur 5 étoiles" gives 4.5 |
| Ratings.ExtractExampleInteger | app1.py:78-79 | "4 sur 5 étoiles" gives 4.0 |
| Ratings.ExtractExampleNoNumber | app1.py:78-79 | "sur 5 étoiles" gives `None` |
| Ratings.ExtractIgnoresNbsp | app1.py:78 | a no-break space before "sur" is not accepted: "a,b\xa0sur 5 étoiles" gives `None` |
| Ratings.ParseUnsignedDecimal | scraper_amazon_reviews.py:32 | what it accepts is a plain unsigned decimal literal denoting the returned value |
| Ratings.ParseUnsignedComplete | scraper_amazon_reviews.py:32 | every plain unsigned decimal literal is accepted, with its value |
| Ratings.ParseFraction | scraper_amazon_reviews.py:31-32 | "a.b" (either side may be empty, not both) reads as a.b |
| Ratings.ParseWhole | scraper_amazon_reviews.py:32 | a digit run reads as its value |
| Ratings.ParseDecimalLiteral | scraper_amazon_reviews.py:32 | what it accepts is an optionally signed literal denoting the returned value, "-" negating |
| Ratings.ParseDecimalLiteralComplete | scraper_amazon_reviews.py:32 | every optionally signed literal ("-4.5", "+4", ".5") is accepted, with its value |
| Ratings.FloatCore | scraper_amazon_reviews.py:32 | `float`'s whitespace skipping removes a prefix and a suffix of `float` whitespace only and leaves a text that neither starts nor ends with it |
| Ratings.FloatCoreOfLiteral | scraper_amazon_reviews.py:32 | around a literal, `float`'s whitespace skipping leaves exactly the literal |
| Ratings.FloatLiteralCore | scraper_amazon_reviews.py:32 | the text left by `float`'s whitespace skipping is a literal for `v` iff the whole argument is one |
| Ratings.ParseFloat | scraper_amazon_reviews.py:32-35 | `float(t)`: a text that is an optionally signed plain decimal literal surrounded by `float`'s whitespace (which excludes U+001C to U+001F) gives that value; any other text gives the fallback's answer, `None` standing for the caught exception |
| Ratings.FloatKeepsUnitSeparator | scraper_amazon_reviews.py:24-32 | `float("4\x1f")` is not read as 4, although `"4\x1f".strip()` is "4" |
| Ratings.ParseRatingText | scraper_amazon_reviews.py:23-35 | a blank rating gives `None`; otherwise `float` of the NBSP-replaced text before the first " sur", commas turned into points |
| Ratings.NumberPart | scraper_amazon_reviews.py:29-31 | the text given to `float` is the stripped rating, no-break spaces turned into spaces and commas into points, cut just before the first " sur" of the NBSP-replaced text (or not cut when there is none) |
| Ratings.StripKeepsSeparator | scraper_amazon_reviews.py:24 | stripping a rating that starts with a digit and continues with " sur" (ordinary or no-break space) keeps the number and the whole " sur"; only text after the "r" can go |
| Ratings.NumberPartDecimal | scraper_amazon_reviews.py:29-31 | for "a,b" followed by " sur…" (ordinary or no-break space) the text given to `float` is "a.b" |
| Ratings.NumberPartInteger | scraper_amazon_reviews.py:29-31 | for "a" followed by " sur…" (ordinary or no-break space, whatever follows) the text given to `float` is "a" |
| Ratings.ParseFloatDecimal | scraper_amazon_reviews.py:32 | `float("a.b")` is a.b, whatever the fallback |
| Ratings.ParseFloatWhole | scraper_amazon_reviews.py:32 | `float("a")` is a |
| Ratings.ParseDecimalRating | scraper_amazon_reviews.py:24-32 | "a,b" followed by any tail starting " sur" or "\xa0sur" reads as a.b, whatever else the tail holds (trailing whitespace and further no-break spaces included) |
| Ratings.ParseIntegerRating | scraper_amazon_reviews.py:24-32 | "a" followed by any tail starting " sur" or "\xa0sur" reads as a, whatever else the tail holds |
| Ratings.ParseTrailingSpaceRating | scraper_amazon_reviews.py:24-32 | "a,b sur " (trailing space) reads as a.b |
| Ratings.ParseNbspTailRating | scraper_amazon_reviews.py:24-32 | "a sur\xa05" (no-break space after the separator) reads as a |
| Ratings.ExtractDecimalStars | app1.py:78-79 | "a,b sur 5 étoiles" gives a.b in the web app |
| Ratings.ParseDecimalStars | scraper_amazon_reviews.py:29-32 | "a,b sur 5 étoiles" gives a.b in the batch scraper ("4,5 sur 5 étoiles" gives 4.5) |
| Ratings.ExtractIntegerStars | app1.py:78-79 | "a sur 5 étoiles" gives a in the web app |
| Ratings.ParseIntegerStars | scraper_amazon_reviews.py:29-32 | "a sur 5 étoiles" gives a in the batch scraper |
| Ratings.VariantsAgreeDecimal | app1.py:74-79 | on "a,b sur 5 étoiles" the web app and the batch scraper both give a.b |
| Ratings.VariantsAgreeInteger | app1.py:74-79 | on "a sur 5 étoiles" both give a |
| Ratings.ParseNbspRating | scraper_amazon_reviews.py:29-32 | the batch scraper reads "a,b\xa0sur 5 étoiles" as a.b |
| Ratings.VariantsDisagreeOnNbsp | scraper_amazon_reviews.py:29-30 | on "a,b\xa0sur 5 étoiles" the batch scraper gives a.b while the web app gives `None` |
| Ratings.BlankRatingIsNone | scraper_amazon_reviews.py:24-27 | an empty or whitespace-only rating gives `None` |
| Ratings.UnitSeparatorRating | scraper_amazon_reviews.py:24-35 | "4\x1f sur 5 étoiles" reaches `float` as "4\x1f" and is stored as the fallback's answer (`None` when `float` raises), not as 4 |
| Normalizer.NonSpacesConcat | scraper_amazon_reviews.py:37 | the non-whitespace content of a concatenation is that of the parts |
| Normalizer.CollapseSpaces | scraper_amazon_reviews.py:37 | `re.sub(r'\s+', ' ', s)`: empty iff `s` is; starts with whitespace iff `s` does; no two adjacent whitespace characters; only ordinary spaces; the non-whitespace characters kept in order |
| Normalizer.NormalizeComment | scraper_amazon_reviews.py:36-37 | the cleaned comment has no whitespace at either end, no two adjacent whitespace characters, only ordinary spaces, and the same non-whitespace characters in order |
| Normalizer.StripKeepsNonSpaces | scraper_amazon_reviews.py:37 | `strip()` removes only whitespace |
| Normalizer.SliceKeepsShape | scraper_amazon_reviews.py:37 | a slice of a collapsed string is still collapsed |
| Normalizer.CollapseFixpoint | scraper_amazon_reviews.py:37 | a string already in collapsed form is left unchanged by the substitution |
| Normalizer.NormalizeIdempotent | scraper_amazon_reviews.py:36-37 | normalising twice is normalising once |
| Normalizer.CollapseKeepsWords | scraper_amazon_reviews.py:37 | `re.sub(r'\s+', ' ', s).split() == s.split()` |
| Normalizer.NormalizeKeepsWords | scraper_amazon_reviews.py:36-37 | the cleaned comment has exactly the words of the scraped one, in order |
| Normalizer.CleanShapeIsJoin | scraper_amazon_reviews.py:37 | a string in the cleaned shape is `" ".join` of its own words |
| Normalizer.NormalizeIsJoinOfWords | scraper_amazon_reviews.py:36-37 | the clean-up equals `" ".join(comment.split())` for every comment |
| Sentiment.Shift | app1.py:60-63 | the rating adds 0.2 iff it is ≥ 4, subtracts 0.2 iff it is ≤ 2, and nothing iff it is strictly between |
| Sentiment.Classify | app1.py:65-70 | exactly one label: "Positif" iff score ≥ 0.05, "Négatif" iff ≤ -0.05, "Neutre" iff strictly between |
| Sentiment.Decide | app1.py:53-70 | "Positif"/"Négatif" iff the rating-adjusted score crosses ±0.05, an absent rating counting as 3 |
| Sentiment.AnalyzeSentiment | app1.py:43-70 | an empty comment is "Neutre"; otherwise the decision on the comment's compound score and the rating |
| Sentiment.EmptyCommentNeutral | app1.py:47-48 | an empty comment yields "Neutre" whatever the rating and scorer |
| Sentiment.MissingRatingIsThree | app1.py:57-58 | an absent rating behaves exactly like rating 3, i.e. no adjustment |
| Sentiment.MidRatingsNoShift | app1.py:60-63 | ratings strictly between 2 and 4 do not move the score |
| Sentiment.MonotoneInScore | app1.py:60-70 | a higher compound score never gives a more negative label |
| Sentiment.MonotoneInRating | app1.py:60-70 | a higher rating never gives a more negative label |
| Sentiment.RatingOverridesMildText | app1.py:60-70 | rating ≥ 4 with compound ≥ -0.15 is "Positif"; rating ≤ 2 with compound ≤ 0.15 is "Négatif" |
| Sentiment.NamesDistinct | app1.py:66-70 | the three label strings are distinct |
| VectorStore.InitialAsWritten | app1.py:28-29 | after module load the global `index` is not a flat index (the `/` route function took its name) and `reviews` is empty |
| VectorStore.Initial | app1.py:27-29 | the intended start: an empty flat index and an empty list |
| VectorStore.StoreReview | app1.py:185-194 | afterwards the index is flat and has gained exactly the comment's embedding as its last row (from zero rows when it had to be re-created); `reviews` gains exactly one record |
| VectorStore.StorePreservesInv | app1.py:185-194 | from a reachable state, storing leaves row i holding the embedding of `reviews[i]["comment"]` for every i, with as many rows as records |
| VectorStore.ReinitBreaksAlignment | app1.py:188-190 | the re-creation branch keeps the old records: with any prior record the row count falls behind `len(reviews)` and alignment is lost |
| VectorStore.FaissTotal | app1.py:152-153 | the row count, or AttributeError while `index` is the route function |
| VectorStore.FaissTotalCountsReviews | app1.py:215-217 | in a reachable state with a flat index, `faiss_total` equals `len(reviews)` |
| VectorStore.Kept | app1.py:131 | the ids the comprehension keeps: at most as many as given, each one of them |
| VectorStore.KeptConcat | app1.py:131 | filtering keeps the oracle's order |
| VectorStore.KeptAllNonNegative | app1.py:131 | non-negative ids are all kept, unchanged |
| VectorStore.MapIds | app1.py:131 | succeeds iff every id is below `len(reviews)`; then result j is `reviews[i]["comment"]` for the j-th non-negative id; otherwise an IndexError naming an offending id |
| VectorStore.SearchReviews | app1.py:126-131 | AttributeError on the route function; exactly `["Aucun avis disponible."]` on an empty index; otherwise the mapped oracle ids |
| VectorStore.SearchMapsRowsToComments | app1.py:126-131 | in a reachable non-empty store with oracle ids below the row count, the search succeeds with at most k results, each the comment whose embedding is at the chosen row, in oracle order |
| VectorStore.SearchBeforeFirstStoreFails | app1.py:127 | from the state after module load, search and `faiss_status` raise instead of answering |
| VectorStore.SearchOnInitialReportsNoReviews | app1.py:127-128 | from the intended initial state search answers "Aucun avis disponible." and the count is 0 |
| VectorStore.InitialStatesConvergeAfterStore | app1.py:188-194 | after one store both initial states coincide |
| VectorStore.SearchRoute | app1.py:201-205 | a missing or empty query is refused; otherwise the search result with k = 5 |
| VectorStore.Comments | app1.py:223 | the comments of the stored records, in order |
| Summary.SummarizeReviews | app1.py:228-236 | no reviews gives the "Aucun avis disponible" error; fewer than 50 words in total gives the "Pas assez de texte" error; otherwise the summariser's output on the joined comments with lengths 130/30 |
| Summary.SummariserSeesEnoughWords | app1.py:232-236 | the text the summariser receives has at least 50 whitespace-separated words |
| Summary.WordCountSumGrows | app1.py:232-233 | appending a comment adds its words to the total |
| Summary.SummaryStaysAvailable | app1.py:229-236 | storing another review never takes a summary away |
| PageUrl.Lookup | scraper_amazon_reviews.py:68 | absent iff the name is not a parameter |
| PageUrl.LookupIsFirst | scraper_amazon_reviews.py:68 | the values found are those of the first entry with the name |
| PageUrl.Assign | scraper_amazon_reviews.py:69-70 | dict assignment: afterwards the name has the given values |
| PageUrl.AssignKeys | scraper_amazon_reviews.py:69-71 | an existing name keeps its place in the encoded order, a new one goes last |
| PageUrl.AssignAppends | scraper_amazon_reviews.py:69-70 | assigning a missing name appends exactly one entry |
| PageUrl.AssignInPlace | scraper_amazon_reviews.py:69-70 | assigning a present name keeps every entry's name in its position |
| PageUrl.AssignOther | scraper_amazon_reviews.py:69-70 | every other name keeps its values |
| PageUrl.AssignFrame | scraper_amazon_reviews.py:69-70 | the same, for all other names at once |
| PageUrl.AssignKeepsDistinct | scraper_amazon_reviews.py:69-70 | assignment keeps names unique |
| PageUrl.AssignExisting | scraper_amazon_reviews.py:69-70 | assigning a name the values it already has changes nothing |
| PageUrl.AssignTwice | scraper_amazon_reviews.py:69-70 | of two assignments to one name the second alone counts |
| PageUrl.BuildPageUrl | scraper_amazon_reviews.py:62-73 | the result has reviewerType = ["all_reviews"] and pageNumber = [str(n)], every other parameter unchanged, and scheme, netloc, path, params and fragment unchanged |
| PageUrl.BuildPageUrlKeepsDistinct | scraper_amazon_reviews.py:67-73 | a query with unique names stays so |
| PageUrl.BuildPageUrlTwice | scraper_amazon_reviews.py:62-73 | `build(build(u, m), n) == build(u, n)` |
| PageUrl.BuildPageUrlKeys | scraper_amazon_reviews.py:69-71 | new parameters are encoded after the original ones, reviewerType before pageNumber |
| PageUrl.RouteProductUrl | app1.py:168-170 | a missing field raises; otherwise the URL is accepted iff it starts with "https://www.amazon." |
| PageUrl.CliProductUrl | scraper_amazon_reviews.py:131-134 | the typed line is accepted iff its stripped form starts with the prefix, and the stripped form is used |
| PageUrl.EntryPointsDisagreeOnLeadingSpace | scraper_amazon_reviews.py:131-132 | a valid URL typed with a leading space is accepted by the command line and refused by the `/scrape` route |
| Ingest.FirstPass | app1.py:104-112 | the first dict has the texts read, `rating_num` extracted from the rating text, and the sentiment of comment and `rating_num` |
| Ingest.Restamp | app1.py:176-179 | the loop sets `scraped_at` and recomputes `rating_num` and `sentiment` from the dict's own texts |
| Ingest.RecomputeAgrees | app1.py:107-110 | the recomputed `rating_num` and `sentiment` equal those first computed, only the stamp is new |
| Ingest.EntriesOf | app1.py:180 | one record per review, in order, with the comment's embedding |
| Ingest.EntriesOfCons | app1.py:176-180 | the records of a list are those of its head followed by those of its tail |
| Ingest.StampAll | app1.py:176-179 | each dict is updated in place with the time read at its own iteration |
| Ingest.StoreLoop | app1.py:176-180 | the loop appends exactly one record per review, in input order |
| Ingest.StoreLoopRows | app1.py:176-180 | after a non-empty loop the index is flat with one more row per review |
| Ingest.StoreLoopKeepsInv | app1.py:176-180 | the loop keeps the store reachable and aligned |
| Ingest.ScrapeRoute | app1.py:167-183 | URL errors and "Aucun avis trouvé." leave the store unchanged; on success every scraped review is returned, stamped, with rating and sentiment as first computed, the store grows by exactly those records in order, and `faiss_count` is the new row count |
| Ingest.ScrapeRouteCountsStored | app1.py:176-183 | from a reachable store the store grows by exactly `len(raw_data)` aligned entries and `faiss_count` equals the new `len(reviews)` |
| Preprocess.RatingValue | scraper_amazon_reviews.py:27-35 | a parsed rating is stored as the number, a failure as `None` |
| Preprocess.CleanRating | scraper_amazon_reviews.py:23-35 | only a string rating is replaced, by its parse; every other field and every non-string rating is untouched |
| Preprocess.CleanComment | scraper_amazon_reviews.py:36-37 | only a string comment is replaced, by its normalisation |
| Preprocess.PreprocessReview | scraper_amazon_reviews.py:22-38 | fields are the old ones plus `scraped_at = now + "Z"`; rating and comment processed when strings, kept otherwise; all other fields unchanged |
| Preprocess.PreprocessReviews | scraper_amazon_reviews.py:19-40 | the list keeps its length and order, each dict processed with the one time read before the loop |
| Preprocess.OneStampPerCall | scraper_amazon_reviews.py:21-38 | every record of one call gets the same `scraped_at` |
| Preprocess.BlankRatingStoredAsNull | scraper_amazon_reviews.py:24-27 | an empty or whitespace-only rating is stored as `None` |
| Preprocess.UnparsableRatingStoredAsNull | scraper_amazon_reviews.py:32-35 | a rating `float` rejects is stored as `None`, nothing propagates |
| Preprocess.StarsRatingStoredAsNumber | scraper_amazon_reviews.py:29-32 | "a,b sur 5 étoiles" is stored as a.b |
| Preprocess.PreprocessTwice | scraper_amazon_reviews.py:22-38 | preprocessing a preprocessed dict again only changes the stamp |
| Preprocess.PreprocessTwiceAt | scraper_amazon_reviews.py:22-38 | field by field: a second preprocessing gives each field the value a single one gives |
| Upsert.SetFields | scraper_amazon_reviews.py:53 | `$set` overwrites the given fields and keeps the others |
| Upsert.Upsert | scraper_amazon_reviews.py:52-54 | a document with the same (username, comment) gets the fields set; otherwise the review is inserted; other documents unchanged |
| Upsert.ApplyBatch | scraper_amazon_reviews.py:55-56 | after the bulk write the keys are the old ones plus those of the batch |
| Upsert.FirstUnkeyed | scraper_amazon_reviews.py:51-52 | finds the first review lacking username or comment, if any |
| Upsert.StoreReviews | scraper_amazon_reviews.py:42-59 | a review without username or comment raises before anything is written; an empty batch writes nothing; otherwise the ordered bulk write |
| Upsert.Overlay | scraper_amazon_reviews.py:51-56 | laying merged documents over a collection |
| Upsert.SetFieldsAssoc | scraper_amazon_reviews.py:53 | setting fields in two rounds equals setting their combination |
| Upsert.OverlayAssoc | scraper_amazon_reviews.py:51-56 | two overlays in a row equal one combined overlay |
| Upsert.OverlayTwice | scraper_amazon_reviews.py:51-56 | the same overlay twice equals once |
| Upsert.UpsertIsOverlay | scraper_amazon_reviews.py:52-54 | one operation is a one-key overlay |
| Upsert.BatchIsOverlay | scraper_amazon_reviews.py:51-56 | a whole batch equals one overlay of what it builds alone |
| Upsert.BatchIdempotent | scraper_amazon_reviews.py:51-56 | sending the same batch again changes nothing and creates no record |
| Upsert.LastWriteWins | scraper_amazon_reviews.py:51-56 | on duplicate keys the later operation's fields win |
| Upsert.KeepsUntouched | scraper_amazon_reviews.py:51-56 | operations on other keys leave a document alone |
| Upsert.RestampedReviewMerges | scraper_amazon_reviews.py:47-54 | the same review with a new `scraped_at` updates the one document: the filter, not the unique index on (username, comment, scraped_at), decides identity |

## Left out

- Browser scraping (app1.py:83-118 apart from the per-review computation, scraper_amazon_reviews.py:75-128). It is Selenium I/O and becomes the `scraper` oracle: the "Aucun avis client" page check, skipped elements, pagination, sleeps.
- The skipped scraper elements include the broad `except Exception` in the first pass: an element that fails to read is simply absent from the oracle's list.
- The JSON file (app1.py:121-141) and the `/reviews` and `/` routes. These are file I/O and template rendering.
- HTTP status codes, `jsonify`, request parsing. Errors are datatype values.
- VADER: `polarity_scores` and the punctuation-stripping/lower-casing before it (app1.py:51-54) are folded into the `compound` oracle.
- Sentence encoding, the float32 conversion and the 384-dimension check are folded into `encode`. The dimension is not enforced.
- FAISS distances, ranking and tie-breaking are the `knn` oracle. No nearest-first ordering is asserted.
- VectorStore.SearchMapsRowsToComments assumes the oracle returns at most `k` ids, all below the row count. FAISS promises this, but it is not in the code shown.
- BART tokenisation (truncation at 1024 tokens) and generation parameters are the `summarizer` oracle, which receives the text and the 130/30 bounds.
- Floating point: ratings and scores are reals. Rounding at exact threshold boundaries (e.g. -0.15 + 0.2 against 0.05) is not captured. `float("inf")`, `float("-inf")` and `float("nan")` have no real counterpart, so a rating such as "inf sur 5 étoiles", which the batch scraper stores as infinity, cannot be represented: no `other` reproduces it.
- Ratings.ParseFloat: only plain decimal literals with an optional sign are read exactly; exponents, digit underscores and non-ASCII digits are left to the `other` oracle.
- Ratings.ExtractNumericRating: `\d` is modelled as the ASCII digits. Python's `\d` on `str` and `float()` also accept other Unicode decimal digits.
- Ratings.ParseUnsignedDecimal: likewise, ASCII digits only.
- Text.BeforeFirst: requires a non-empty separator. `s.split("")` raises ValueError, a case the program never reaches because it always splits at " sur".
- URL parsing and encoding (`urlparse`, `parse_qs`, `urlencode`, `urlunparse`) are not modelled. This covers percent-encoding and `parse_qs` dropping blank values. A URL is taken already split, with its query as an ordered list of names and value lists.
- MongoDB: the client, index creation (scraper_amazon_reviews.py:47, including whether its uniqueness ever rejects a write), `_id`, driver errors and the `upserted_count + modified_count` report. The collection is a map from the (username, comment) filter to the document.
- Timestamps are oracle text: `clock(i)` for the i-th loop iteration in app1.py, `now` for the batch scraper. The ISO format is not modelled.
- Logging, environment variables (app1.py:16-18, scraper_amazon_reviews.py:15), `input()` and `app.run`.
- Concurrency: Flask may serve requests on several threads over the same globals. The model is sequential.
- In-place mutation and aliasing of the review dicts: the model returns new values.

## Findings

| source | as written | input that shows it | evidently intended | confidence | as-written member | corrected member |
|---|---|---|---|---|---|---|
| app1.py:162 | the route function `def index()` is defined at module level after `index = faiss.IndexFlatL2(d)` (app1.py:28), so it rebinds the global `index` to a function | any `/search` with a non-empty query, or `/faiss_status`, before the first `/scrape`: `index.ntotal` raises AttributeError (500) instead of answering "Aucun avis disponible." or 0 | the flat index defined at line 28 stays the global `index`, so the empty store answers normally | not executed; high (plain Python name binding) | VectorStore.InitialAsWritten, VectorStore.SearchBeforeFirstStoreFails | VectorStore.Initial, VectorStore.SearchOnInitialReportsNoReviews |
