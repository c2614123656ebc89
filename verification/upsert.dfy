/** The effect of `store_reviews` (scraper_amazon_reviews.py) on the review collection: one
    `$set` update with `upsert=True` per review, filtered on (username, comment), sent as one
    ordered bulk write. The database driver and its counters are not modelled; the collection
    is a map from the filter key to the stored document. */
module Upsert {
  import opened Wrappers
  import opened Preprocess

  /** The filter of one operation: the review's username and comment values. */
  type Key = (Value, Value)

  /** The collection, one document per filter key. */
  type Collection = map<Key, Doc>

  predicate HasKey(doc: Doc) {
    UsernameField in doc && CommentField in doc
  }

  function KeyOf(doc: Doc): Key
    requires HasKey(doc)
  {
    (doc[UsernameField], doc[CommentField])
  }

  /** `$set` of `doc` on `stored`: the given fields overwritten, the others kept. */
  function SetFields(stored: Doc, doc: Doc): (d: Doc)
    ensures d.Keys == stored.Keys + doc.Keys
    ensures forall f :: f in doc ==> d[f] == doc[f]
    ensures forall f :: f in stored && f !in doc ==> d[f] == stored[f]
  {
    stored + doc
  }

  /** One `UpdateOne(filter, {"$set": doc}, upsert=True)`: a document with the same key has
      the fields of `doc` set on it; otherwise `doc` is inserted. */
  function Upsert(c: Collection, doc: Doc): (r: Collection)
    requires HasKey(doc)
    ensures r.Keys == c.Keys + {KeyOf(doc)}
    ensures KeyOf(doc) in c ==> r[KeyOf(doc)] == SetFields(c[KeyOf(doc)], doc)
    ensures KeyOf(doc) !in c ==> r[KeyOf(doc)] == doc
    ensures forall k :: k in c && k != KeyOf(doc) ==> r[k] == c[k]
  {
    var k := KeyOf(doc);
    c[k := if k in c then SetFields(c[k], doc) else doc]
  }

  predicate AllKeyed(batch: seq<Doc>) {
    forall i :: 0 <= i < |batch| ==> HasKey(batch[i])
  }

  /** The filter keys of a batch. */
  ghost function BatchKeys(batch: seq<Doc>): set<Key>
    requires AllKeyed(batch)
  {
    set i | 0 <= i < |batch| :: KeyOf(batch[i])
  }

  lemma BatchKeysCons(batch: seq<Doc>)
    requires batch != [] && AllKeyed(batch)
    ensures AllKeyed(batch[1..])
    ensures BatchKeys(batch) == {KeyOf(batch[0])} + BatchKeys(batch[1..])
  {
    assert AllKeyed(batch[1..]) by {
      forall i | 0 <= i < |batch[1..]|
        ensures HasKey(batch[1..][i])
      {
        assert batch[1..][i] == batch[i + 1];
      }
    }
    forall i | 0 <= i < |batch|
      ensures KeyOf(batch[i]) in {KeyOf(batch[0])} + BatchKeys(batch[1..])
    {
      if i > 0 {
        assert KeyOf(batch[i]) == KeyOf(batch[1..][i - 1]);
      }
    }
    forall i | 0 <= i < |batch[1..]|
      ensures KeyOf(batch[1..][i]) in BatchKeys(batch)
    {
      assert batch[1..][i] == batch[i + 1];
    }
  }

  /** The ordered bulk write: the operations applied one after another. */
  function ApplyBatch(c: Collection, batch: seq<Doc>): (r: Collection)
    requires AllKeyed(batch)
    ensures r.Keys == c.Keys + BatchKeys(batch)
    decreases |batch|
  {
    if batch == [] then c
    else
      BatchKeysCons(batch);
      ApplyBatch(Upsert(c, batch[0]), batch[1..])
  }

  /** Why `store_reviews` writes nothing. */
  datatype StoreOutcome =
    | MissingKey(at: nat)        // `review["username"]` or `review["comment"]` raised KeyError
    | NoOperations               // an empty batch: nothing is sent
    | Written(c: Collection)     // the bulk write went through

  /** The first review lacking a filter field, if any. */
  function FirstUnkeyed(batch: seq<Doc>, from: nat): (r: Option<nat>)
    requires from <= |batch|
    ensures r.None? <==> forall i :: from <= i < |batch| ==> HasKey(batch[i])
    ensures r.Some? ==> from <= r.value < |batch| && !HasKey(batch[r.value])
                        && forall i :: from <= i < r.value ==> HasKey(batch[i])
    decreases |batch| - from
  {
    if from == |batch| then None
    else if !HasKey(batch[from]) then Some(from)
    else FirstUnkeyed(batch, from + 1)
  }

  /** `store_reviews(data)`: the operations are all built before anything is sent, so a
      review without a username or comment stops the call with nothing written. */
  function StoreReviews(c: Collection, data: seq<Doc>): (r: StoreOutcome)
    ensures r.MissingKey? <==> !AllKeyed(data)
    ensures r.MissingKey? ==> r.at < |data| && !HasKey(data[r.at])
                              && forall i :: 0 <= i < r.at ==> HasKey(data[i])
    ensures r == NoOperations <==> data == []
    ensures r.Written? ==> AllKeyed(data) && r.c == ApplyBatch(c, data)
  {
    match FirstUnkeyed(data, 0)
    case Some(i) => MissingKey(i)
    case None => if data == [] then NoOperations else Written(ApplyBatch(c, data))
  }

  // ---------------------------------------------------------------------------
  // The batch as one overlay
  // ---------------------------------------------------------------------------

  /** `m` laid over `c`: keys of `m` get their fields set on the existing document (or are
      inserted), other documents stay as they are. */
  function Overlay(c: Collection, m: Collection): (r: Collection)
    ensures r.Keys == c.Keys + m.Keys
    ensures forall k :: k in m ==> r[k] == if k in c then SetFields(c[k], m[k]) else m[k]
    ensures forall k :: k in c && k !in m ==> r[k] == c[k]
  {
    map k | k in c.Keys + m.Keys :: if k in m then (if k in c then SetFields(c[k], m[k]) else m[k]) else c[k]
  }

  /** Laying two overlays one after the other is laying their combination. */
  lemma OverlayAssoc(c: Collection, a: Collection, b: Collection)
    ensures Overlay(Overlay(c, a), b) == Overlay(c, Overlay(a, b))
  {
    var ca := Overlay(c, a);
    var ab := Overlay(a, b);
    var l := Overlay(ca, b);
    var r := Overlay(c, ab);
    assert l.Keys == r.Keys;
    forall k | k in l
      ensures l[k] == r[k]
    {
      if k in b && k in a && k in c {
        SetFieldsAssoc(c[k], a[k], b[k]);
      }
    }
  }

  /** Setting fields in two rounds is setting their combination. */
  lemma SetFieldsAssoc(x: Doc, y: Doc, z: Doc)
    ensures SetFields(SetFields(x, y), z) == SetFields(x, SetFields(y, z))
  {
  }

  /** Laying the same overlay twice is laying it once. */
  lemma OverlayTwice(c: Collection, m: Collection)
    ensures Overlay(Overlay(c, m), m) == Overlay(c, m)
  {
    var l := Overlay(Overlay(c, m), m);
    var r := Overlay(c, m);
    forall k | k in l
      ensures l[k] == r[k]
    {
      if k in m && k in c {
        assert (c[k] + m[k]) + m[k] == c[k] + m[k];
      } else if k in m {
        assert m[k] + m[k] == m[k];
      }
    }
  }

  /** One operation is a one-key overlay. */
  lemma UpsertIsOverlay(c: Collection, doc: Doc)
    requires HasKey(doc)
    ensures Upsert(c, doc) == Overlay(c, map[KeyOf(doc) := doc])
  {
  }

  /** The whole batch acts as one overlay: what the batch alone builds in an empty
      collection, laid over the collection. */
  lemma {:induction false} BatchIsOverlay(c: Collection, batch: seq<Doc>)
    requires AllKeyed(batch)
    ensures ApplyBatch(c, batch) == Overlay(c, ApplyBatch(map[], batch))
    decreases |batch|
  {
    if batch == [] {
      assert Overlay(c, map[]) == c;
    } else {
      var single := map[KeyOf(batch[0]) := batch[0]];
      var rest := ApplyBatch(map[], batch[1..]);
      UpsertIsOverlay(c, batch[0]);
      UpsertIsOverlay(map[], batch[0]);
      assert Overlay(map[], single) == single;
      BatchIsOverlay(Upsert(c, batch[0]), batch[1..]);
      BatchIsOverlay(single, batch[1..]);
      OverlayAssoc(c, single, rest);
    }
  }

  /** Sending the same batch again changes nothing: in particular it creates no document. */
  lemma BatchIdempotent(c: Collection, batch: seq<Doc>)
    requires AllKeyed(batch)
    ensures ApplyBatch(ApplyBatch(c, batch), batch) == ApplyBatch(c, batch)
  {
    var m := ApplyBatch(map[], batch);
    BatchIsOverlay(c, batch);
    BatchIsOverlay(ApplyBatch(c, batch), batch);
    OverlayTwice(c, m);
  }

  /** Of several operations on one key, the later one wins on every field it sets: after a
      batch whose last operation on `k` is at position j, the document under `k` holds
      batch[j]'s value for each of batch[j]'s fields. */
  lemma {:induction false} LastWriteWins(c: Collection, batch: seq<Doc>, j: nat)
    requires AllKeyed(batch) && j < |batch|
    requires forall i :: j < i < |batch| ==> KeyOf(batch[i]) != KeyOf(batch[j])
    ensures KeyOf(batch[j]) in ApplyBatch(c, batch)
    ensures batch[j].Keys <= ApplyBatch(c, batch)[KeyOf(batch[j])].Keys
    ensures forall f :: f in batch[j] ==> ApplyBatch(c, batch)[KeyOf(batch[j])][f] == batch[j][f]
    decreases |batch|
  {
    if j == 0 {
      KeepsUntouched(Upsert(c, batch[0]), batch[1..], KeyOf(batch[0]));
    } else {
      LastWriteWins(Upsert(c, batch[0]), batch[1..], j - 1);
    }
  }

  /** Operations on other keys leave a document alone. */
  lemma {:induction false} KeepsUntouched(c: Collection, batch: seq<Doc>, k: Key)
    requires AllKeyed(batch) && k in c
    requires forall i :: 0 <= i < |batch| ==> KeyOf(batch[i]) != k
    ensures ApplyBatch(c, batch)[k] == c[k]
    decreases |batch|
  {
    if batch != [] {
      KeepsUntouched(Upsert(c, batch[0]), batch[1..], k);
    }
  }

  /** Two reviews that differ only in time stamp land in one document: the filter, not the
      declared unique index on (username, comment, scraped_at), decides identity. */
  lemma RestampedReviewMerges(c: Collection, doc: Doc, later: Value)
    requires HasKey(doc)
    ensures HasKey(doc[ScrapedAtField := later])
    ensures ApplyBatch(c, [doc, doc[ScrapedAtField := later]]).Keys == Upsert(c, doc).Keys
    ensures KeyOf(doc) in ApplyBatch(c, [doc, doc[ScrapedAtField := later]])
    ensures ScrapedAtField in ApplyBatch(c, [doc, doc[ScrapedAtField := later]])[KeyOf(doc)]
    ensures ApplyBatch(c, [doc, doc[ScrapedAtField := later]])[KeyOf(doc)][ScrapedAtField] == later
  {
    var d2 := doc[ScrapedAtField := later];
    assert ScrapedAtField != UsernameField && ScrapedAtField != CommentField;
    assert KeyOf(d2) == KeyOf(doc);
    assert [doc, d2][1..] == [d2];
    assert [d2][1..] == [];
    var c1 := Upsert(c, doc);
    assert ApplyBatch(c, [doc, d2]) == ApplyBatch(c1, [d2]);
    assert ApplyBatch(c1, [d2]) == ApplyBatch(Upsert(c1, d2), []);
  }
}
