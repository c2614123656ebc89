/** The in-memory FAISS index and the `reviews` list kept beside it (app1.py): storing a
    review, searching by similarity, and the row count. The sentence encoder and the k-nearest
    neighbour ranking are oracles. */
module VectorStore {
  import opened Wrappers

  /** An embedding, as produced by the sentence encoder (384 components in the source). */
  type Vector = seq<real>

  /** The global `index`: either something that is not an `IndexFlatL2` (the state the module
      is left in, see `InitialAsWritten`) or a flat L2 index holding its rows in insertion
      order. `ntotal` is the number of rows. */
  datatype Index = Invalid | Flat(rows: seq<Vector>)

  /** One element of the global `reviews` list. */
  datatype Entry = Entry(username: string, comment: string, vector: Vector)

  /** The two globals together. */
  datatype Store = Store(index: Index, reviews: seq<Entry>)

  /** What the search or status code raises instead of answering. */
  datatype StoreError =
    | IndexNotInitialised   // `index.ntotal` on the route function: AttributeError
    | IdOutOfRange(id: int) // `reviews[i]` past the end: IndexError

  /** The answer to a search over an empty index. */
  const NoReviewsNotice: string := "Aucun avis disponible."

  /** The state after the module has been loaded: the route function named `index` has
      replaced the flat index bound a few lines earlier, and `reviews` is empty. */
  function InitialAsWritten(): (st: Store)
    ensures st.index.Invalid? && st.reviews == []
  {
    Store(Invalid, [])
  }

  /** The intended initial state: an empty flat index beside an empty list. */
  function Initial(): (st: Store)
    ensures st.index == Flat([]) && st.reviews == []
  {
    Store(Flat([]), [])
  }

  /** Row i of the index is the embedding of review i's comment, and the record keeps that
      same vector: the link `search_reviews_faiss` relies on to map ids back to comments. */
  predicate Aligned(st: Store, encode: string -> Vector) {
    && st.index.Flat?
    && |st.index.rows| == |st.reviews|
    && forall i :: 0 <= i < |st.reviews| ==>
         st.index.rows[i] == encode(st.reviews[i].comment) && st.reviews[i].vector == st.index.rows[i]
  }

  /** The states the program can reach: before the first store nothing has been recorded;
      afterwards the index and the list are aligned. */
  predicate Inv(st: Store, encode: string -> Vector) {
    (st.index.Invalid? && st.reviews == []) || Aligned(st, encode)
  }

  function RowCount(ix: Index): nat {
    match ix
    case Invalid => 0
    case Flat(rows) => |rows|
  }

  /** `store_review_faiss(username, comment)`: re-create the index if it is not a flat index
      (keeping `reviews` as it is), then append the comment's embedding as one row and the
      record as one list element. */
  function StoreReview(st: Store, username: string, comment: string, encode: string -> Vector): (r: Store)
    ensures r.index.Flat?
    ensures st.index.Flat? ==> r.index.rows == st.index.rows + [encode(comment)]
    ensures st.index.Invalid? ==> r.index.rows == [encode(comment)]
    ensures r.reviews == st.reviews + [Entry(username, comment, encode(comment))]
  {
    var rows := if st.index.Flat? then st.index.rows else [];
    var v := encode(comment);
    Store(Flat(rows + [v]), st.reviews + [Entry(username, comment, v)])
  }

  /** Storing keeps the invariant, and after a store the index and the list are aligned. */
  lemma StorePreservesInv(st: Store, username: string, comment: string, encode: string -> Vector)
    requires Inv(st, encode)
    ensures Aligned(StoreReview(st, username, comment, encode), encode)
    ensures Inv(StoreReview(st, username, comment, encode), encode)
  {
    var r := StoreReview(st, username, comment, encode);
    var n := |st.reviews|;
    forall i | 0 <= i < |r.reviews|
      ensures r.index.rows[i] == encode(r.reviews[i].comment) && r.reviews[i].vector == r.index.rows[i]
    {
      if i < n {
        assert r.reviews[i] == st.reviews[i];
        assert r.index.rows[i] == st.index.rows[i];
      }
    }
  }

  /** The re-initialising branch empties the index but not the list: if anything had been
      recorded before, the row count falls behind the list and alignment is lost. */
  lemma ReinitBreaksAlignment(st: Store, username: string, comment: string, encode: string -> Vector)
    requires st.index.Invalid? && st.reviews != []
    ensures RowCount(StoreReview(st, username, comment, encode).index)
         < |StoreReview(st, username, comment, encode).reviews|
    ensures !Aligned(StoreReview(st, username, comment, encode), encode)
  {
  }

  /** `get_faiss_info()` and the `/faiss_status` route: the row count, or the AttributeError
      raised while the global is still the route function. */
  function FaissTotal(st: Store): (r: Result<nat, StoreError>)
    ensures st.index.Invalid? <==> r == Failure(IndexNotInitialised)
    ensures st.index.Flat? ==> r == Success(|st.index.rows|)
  {
    match st.index
    case Invalid => Failure(IndexNotInitialised)
    case Flat(rows) => Success(|rows|)
  }

  /** Under the invariant, once the index is flat its row count is the length of `reviews`. */
  lemma FaissTotalCountsReviews(st: Store, encode: string -> Vector)
    requires Inv(st, encode) && st.index.Flat?
    ensures FaissTotal(st) == Success(|st.reviews|)
  {
  }

  /** The ids the list comprehension keeps (`if i >= 0`), in the oracle's order. */
  function Kept(ids: seq<int>): (r: seq<nat>)
    ensures |r| <= |ids|
    ensures forall j :: 0 <= j < |r| ==> r[j] in ids
  {
    if ids == [] then []
    else if ids[0] >= 0 then [ids[0] as nat] + Kept(ids[1..])
    else Kept(ids[1..])
  }

  /** Filtering keeps the order: the ids kept from a concatenation are those kept from each part. */
  lemma {:induction false} KeptConcat(a: seq<int>, b: seq<int>)
    ensures Kept(a + b) == Kept(a) + Kept(b)
  {
    if a == [] {
      assert a + b == b;
    } else {
      assert (a + b)[0] == a[0] && (a + b)[1..] == a[1..] + b;
      KeptConcat(a[1..], b);
    }
  }

  /** Ids that are all non-negative are kept as they are. */
  lemma {:induction false} KeptAllNonNegative(ids: seq<int>)
    requires forall j :: 0 <= j < |ids| ==> ids[j] >= 0
    ensures |Kept(ids)| == |ids|
    ensures forall j :: 0 <= j < |ids| ==> Kept(ids)[j] == ids[j]
  {
    if ids != [] {
      KeptAllNonNegative(ids[1..]);
    }
  }

  /** The list comprehension `[reviews[i]["comment"] for i in ids if i >= 0]`, evaluated
      left to right: it raises at the first kept id past the end of `reviews`. */
  function MapIds(ids: seq<int>, reviews: seq<Entry>): (r: Result<seq<string>, StoreError>)
    ensures r.Success? <==> forall j :: 0 <= j < |ids| ==> ids[j] < |reviews|
    ensures r.Success? ==> |r.value| == |Kept(ids)|
    ensures r.Success? ==> forall j :: 0 <= j < |r.value| ==> r.value[j] == reviews[Kept(ids)[j]].comment
    ensures r.Failure? ==> exists j :: 0 <= j < |ids| && r.error == IdOutOfRange(ids[j]) && ids[j] >= |reviews|
  {
    if ids == [] then Success([])
    else if ids[0] < 0 then
      assert forall j :: 0 < j < |ids| ==> ids[j] == ids[1..][j - 1];
      MapIds(ids[1..], reviews)
    else if ids[0] >= |reviews| then Failure(IdOutOfRange(ids[0]))
    else
      assert forall j :: 0 < j < |ids| ==> ids[j] == ids[1..][j - 1];
      match MapIds(ids[1..], reviews)
      case Failure(e) => Failure(e)
      case Success(rest) =>
        var r := [reviews[ids[0]].comment] + rest;
        assert Kept(ids) == [ids[0] as nat] + Kept(ids[1..]);
        assert forall j :: 0 < j < |r| ==> r[j] == rest[j - 1];
        Success(r)
  }

  /** `search_reviews_faiss(query, k)`. `knn(rows, q, k)` stands for FAISS's search: the ids
      it returns for the `k` nearest rows to `q` (with -1 where there are fewer rows). */
  function SearchReviews(st: Store, query: string, k: nat, encode: string -> Vector,
                         knn: (seq<Vector>, Vector, nat) -> seq<int>): (r: Result<seq<string>, StoreError>)
    ensures st.index.Invalid? ==> r == Failure(IndexNotInitialised)
    ensures st.index == Flat([]) ==> r == Success([NoReviewsNotice])
    ensures st.index.Flat? && st.index.rows != [] ==>
              r == MapIds(knn(st.index.rows, encode(query), k), st.reviews)
  {
    match st.index
    case Invalid => Failure(IndexNotInitialised)
    case Flat(rows) =>
      if |rows| == 0 then Success([NoReviewsNotice])
      else MapIds(knn(rows, encode(query), k), st.reviews)
  }

  /** In a reachable, non-empty store, a search whose oracle returns at most `k` ids, each
      below the row count, succeeds; it yields at most `k` comments, and each is the comment
      of the review whose embedding sits at the row the oracle chose, in the oracle's order. */
  lemma SearchMapsRowsToComments(st: Store, query: string, k: nat, encode: string -> Vector,
                                 knn: (seq<Vector>, Vector, nat) -> seq<int>)
    requires Inv(st, encode) && st.index.Flat? && st.index.rows != []
    requires |knn(st.index.rows, encode(query), k)| <= k
    requires forall j :: 0 <= j < |knn(st.index.rows, encode(query), k)| ==>
               knn(st.index.rows, encode(query), k)[j] < |st.index.rows|
    ensures SearchReviews(st, query, k, encode, knn).Success?
    ensures |SearchReviews(st, query, k, encode, knn).value| <= k
    ensures forall j :: 0 <= j < |SearchReviews(st, query, k, encode, knn).value| ==>
              var i := Kept(knn(st.index.rows, encode(query), k))[j];
              && SearchReviews(st, query, k, encode, knn).value[j] == st.reviews[i].comment
              && st.index.rows[i] == encode(st.reviews[i].comment)
  {
  }

  /** The search on the state the module is left in raises instead of reporting that there
      are no reviews. */
  lemma SearchBeforeFirstStoreFails(query: string, k: nat, encode: string -> Vector,
                                    knn: (seq<Vector>, Vector, nat) -> seq<int>)
    ensures SearchReviews(InitialAsWritten(), query, k, encode, knn) == Failure(IndexNotInitialised)
    ensures FaissTotal(InitialAsWritten()) == Failure(IndexNotInitialised)
  {
  }

  /** With the intended initial state the same calls answer: no reviews, and a count of 0. */
  lemma SearchOnInitialReportsNoReviews(query: string, k: nat, encode: string -> Vector,
                                        knn: (seq<Vector>, Vector, nat) -> seq<int>)
    ensures SearchReviews(Initial(), query, k, encode, knn) == Success([NoReviewsNotice])
    ensures FaissTotal(Initial()) == Success(0)
    ensures Inv(Initial(), encode)
  {
  }

  /** Both initial states lead to the same store once one review has been stored. */
  lemma InitialStatesConvergeAfterStore(username: string, comment: string, encode: string -> Vector)
    ensures StoreReview(InitialAsWritten(), username, comment, encode)
         == StoreReview(Initial(), username, comment, encode)
  {
  }

  /** The `/search` route: a missing or empty query is refused; otherwise five results are
      asked for. */
  datatype SearchRouteError = EmptyQuery | Raised(e: StoreError)

  const RouteK: nat := 5

  function SearchRoute(st: Store, query: Option<string>, encode: string -> Vector,
                       knn: (seq<Vector>, Vector, nat) -> seq<int>): (r: Result<seq<string>, SearchRouteError>)
    ensures (query == None || query == Some([])) <==> r == Failure(EmptyQuery)
    ensures query.Some? && query.value != [] ==>
              match SearchReviews(st, query.value, RouteK, encode, knn)
              case Success(v) => r == Success(v)
              case Failure(e) => r == Failure(Raised(e))
  {
    match query
    case None => Failure(EmptyQuery)
    case Some(q) =>
      if q == [] then Failure(EmptyQuery)
      else
        match SearchReviews(st, q, RouteK, encode, knn)
        case Success(v) => Success(v)
        case Failure(e) => Failure(Raised(e))
  }

  /** The comments of the stored reviews, in order (`[rev["comment"] for rev in reviews]`). */
  function Comments(reviews: seq<Entry>): (cs: seq<string>)
    ensures |cs| == |reviews|
    ensures forall i :: 0 <= i < |reviews| ==> cs[i] == reviews[i].comment
  {
    seq(|reviews|, i requires 0 <= i < |reviews| => reviews[i].comment)
  }
}
