/** Product URLs in the batch scraper (scraper_amazon_reviews.py) and the web app (app1.py):
    the Amazon prefix check both entry points apply, and `build_page_url`, which sets the
    review-filter and page-number query parameters. URL parsing, percent-encoding and
    re-assembly are not modelled: a URL is taken already split into its six components with
    the query decoded into named value lists. */
module PageUrl {
  import opened Wrappers
  import opened Text

  /** Both entry points accept only URLs starting with this text. */
  const AmazonPrefix: string := "https://www.amazon."

  /** The query of a URL as `parse_qs` returns it: parameter names with their value lists,
      in the order the dict keeps them (first insertion first). */
  type Query = seq<(string, seq<string>)>

  /** `urlparse`'s six components, with the query decoded. */
  datatype Url = Url(scheme: string, netloc: string, path: string, params: string,
                     query: Query, fragment: string)

  /** Each parameter name appears once, as in a dict. */
  predicate DistinctKeys(q: Query) {
    forall i, j :: 0 <= i < j < |q| ==> q[i].0 != q[j].0
  }

  /** The parameter names in order: the order `urlencode` writes them. */
  function Keys(q: Query): (ks: seq<string>)
    ensures |ks| == |q|
    ensures forall i :: 0 <= i < |q| ==> ks[i] == q[i].0
  {
    seq(|q|, i requires 0 <= i < |q| => q[i].0)
  }

  /** `q.get(key)`: the values of the first entry named `key`. */
  function Lookup(q: Query, key: string): (r: Option<seq<string>>)
    ensures r.None? <==> key !in Keys(q)
  {
    if q == [] then None
    else if q[0].0 == key then Some(q[0].1)
    else
      Lookup(q[1..], key)
  }

  /** The values found are those of the first entry with the name. */
  lemma {:induction false} LookupIsFirst(q: Query, key: string, i: nat)
    requires i < |q| && q[i].0 == key
    requires forall j :: 0 <= j < i ==> q[j].0 != key
    ensures Lookup(q, key) == Some(q[i].1)
  {
    if i > 0 {
      assert q[0].0 != key;
      forall j | 0 <= j < i - 1
        ensures q[1..][j].0 != key
      {
        assert q[1..][j] == q[j + 1];
      }
      LookupIsFirst(q[1..], key, i - 1);
    }
  }

  /** `q[key] = vals` on a dict: an existing entry is overwritten where it stands, otherwise a
      new entry goes at the end. Every other name keeps its values and its place. */
  function Assign(q: Query, key: string, vals: seq<string>): (r: Query)
    ensures Lookup(r, key) == Some(vals)
  {
    if q == [] then [(key, vals)]
    else if q[0].0 == key then [(key, vals)] + q[1..]
    else
      var rest := Assign(q[1..], key, vals);
      var r := [q[0]] + rest;
      assert r[0] == q[0] && r[1..] == rest;
      r
  }

  /** An existing name keeps its place; a new one is added at the end. */
  lemma AssignKeys(q: Query, key: string, vals: seq<string>)
    ensures key in Keys(q) ==> Keys(Assign(q, key, vals)) == Keys(q)
    ensures key !in Keys(q) ==> Keys(Assign(q, key, vals)) == Keys(q) + [key]
  {
    var r := Assign(q, key, vals);
    if Lookup(q, key).None? {
      AssignAppends(q, key, vals);
      assert Keys(r) == Keys(q) + [key];
    } else {
      AssignInPlace(q, key, vals);
      assert Keys(r) == Keys(q);
    }
  }

  /** Assigning a missing name appends one entry. */
  lemma {:induction false} AssignAppends(q: Query, key: string, vals: seq<string>)
    requires Lookup(q, key).None?
    ensures Assign(q, key, vals) == q + [(key, vals)]
  {
    if q != [] {
      assert q[0].0 != key;
      AssignAppends(q[1..], key, vals);
      assert [q[0]] + (q[1..] + [(key, vals)]) == q + [(key, vals)];
    }
  }

  /** Assigning a present name keeps every entry's name where it was. */
  lemma {:induction false} AssignInPlace(q: Query, key: string, vals: seq<string>)
    requires Lookup(q, key).Some?
    ensures |Assign(q, key, vals)| == |q|
    ensures forall i :: 0 <= i < |q| ==> Assign(q, key, vals)[i].0 == q[i].0
  {
    var r := Assign(q, key, vals);
    if q[0].0 == key {
      forall i | 0 <= i < |q|
        ensures r[i].0 == q[i].0
      {
        if i > 0 {
          assert r[i] == q[1..][i - 1];
        }
      }
    } else {
      var rest := Assign(q[1..], key, vals);
      AssignInPlace(q[1..], key, vals);
      forall i | 0 <= i < |q|
        ensures r[i].0 == q[i].0
      {
        if i > 0 {
          assert r[i] == rest[i - 1];
          assert q[i] == q[1..][i - 1];
        }
      }
    }
  }

  /** Assigning one name leaves the values of every other name as they were. */
  lemma {:induction false} AssignOther(q: Query, key: string, vals: seq<string>, k: string)
    requires k != key
    ensures Lookup(Assign(q, key, vals), k) == Lookup(q, k)
  {
    if q != [] && q[0].0 != key {
      AssignOther(q[1..], key, vals, k);
    }
  }

  lemma AssignFrame(q: Query, key: string, vals: seq<string>)
    ensures forall k :: k != key ==> Lookup(Assign(q, key, vals), k) == Lookup(q, k)
  {
    forall k | k != key
      ensures Lookup(Assign(q, key, vals), k) == Lookup(q, k)
    {
      AssignOther(q, key, vals, k);
    }
  }

  /** Assigning keeps parameter names unique. */
  lemma AssignKeepsDistinct(q: Query, key: string, vals: seq<string>)
    requires DistinctKeys(q)
    ensures DistinctKeys(Assign(q, key, vals))
  {
    var r := Assign(q, key, vals);
    AssignKeys(q, key, vals);
    forall i, j | 0 <= i < j < |r|
      ensures r[i].0 != r[j].0
    {
      assert Keys(r)[i] == r[i].0 && Keys(r)[j] == r[j].0;
      if j < |q| {
        assert Keys(q)[i] == q[i].0 && Keys(q)[j] == q[j].0;
      } else {
        assert Keys(q)[i] == q[i].0;
      }
    }
  }

  /** Setting a name to the value it already has changes nothing. */
  lemma {:induction false} AssignExisting(q: Query, key: string, vals: seq<string>)
    requires Lookup(q, key) == Some(vals)
    ensures Assign(q, key, vals) == q
  {
    if q != [] && q[0].0 != key {
      AssignExisting(q[1..], key, vals);
    }
  }

  /** Of two assignments to the same name, the second one alone decides the result. */
  lemma {:induction false} AssignTwice(q: Query, key: string, v: seq<string>, w: seq<string>)
    ensures Assign(Assign(q, key, v), key, w) == Assign(q, key, w)
  {
    if q != [] && q[0].0 != key {
      AssignTwice(q[1..], key, v, w);
    }
  }

  const ReviewerTypeKey: string := "reviewerType"
  const AllReviews: string := "all_reviews"
  const PageNumberKey: string := "pageNumber"

  /** `build_page_url(base_url, page_number)`: the same URL asking for all reviews, on the
      given page. */
  function BuildPageUrl(u: Url, page: int): (r: Url)
    ensures Lookup(r.query, ReviewerTypeKey) == Some([AllReviews])
    ensures Lookup(r.query, PageNumberKey) == Some([IntToString(page)])
    ensures forall k :: k != ReviewerTypeKey && k != PageNumberKey ==> Lookup(r.query, k) == Lookup(u.query, k)
    ensures r.scheme == u.scheme && r.netloc == u.netloc && r.path == u.path
    ensures r.params == u.params && r.fragment == u.fragment
  {
    var q := Assign(u.query, ReviewerTypeKey, [AllReviews]);
    AssignFrame(u.query, ReviewerTypeKey, [AllReviews]);
    AssignFrame(q, PageNumberKey, [IntToString(page)]);
    AssignOther(q, PageNumberKey, [IntToString(page)], ReviewerTypeKey);
    u.(query := Assign(q, PageNumberKey, [IntToString(page)]))
  }

  /** A page URL built from a query with unique names has unique names. */
  lemma BuildPageUrlKeepsDistinct(u: Url, page: int)
    requires DistinctKeys(u.query)
    ensures DistinctKeys(BuildPageUrl(u, page).query)
  {
    var q := Assign(u.query, ReviewerTypeKey, [AllReviews]);
    AssignKeepsDistinct(u.query, ReviewerTypeKey, [AllReviews]);
    AssignKeepsDistinct(q, PageNumberKey, [IntToString(page)]);
  }

  /** Building a page URL from a page URL only changes the page: the earlier page number is
      gone without trace. */
  lemma BuildPageUrlTwice(u: Url, m: int, n: int)
    ensures BuildPageUrl(BuildPageUrl(u, m), n) == BuildPageUrl(u, n)
  {
    var q1 := Assign(u.query, ReviewerTypeKey, [AllReviews]);
    var q2 := Assign(q1, PageNumberKey, [IntToString(m)]);
    assert BuildPageUrl(u, m) == u.(query := q2);
    AssignOther(q1, PageNumberKey, [IntToString(m)], ReviewerTypeKey);
    AssignExisting(q2, ReviewerTypeKey, [AllReviews]);
    AssignTwice(q1, PageNumberKey, [IntToString(m)], [IntToString(n)]);
    assert BuildPageUrl(u.(query := q2), n).query == Assign(q2, PageNumberKey, [IntToString(n)]);
  }

  /** The parameter names of a page URL are the original ones, followed by whichever of the
      two added names were missing. */
  lemma BuildPageUrlKeys(u: Url, page: int)
    requires ReviewerTypeKey !in Keys(u.query) && PageNumberKey !in Keys(u.query)
    ensures Keys(BuildPageUrl(u, page).query) == Keys(u.query) + [ReviewerTypeKey, PageNumberKey]
  {
    var q0 := u.query;
    var q1 := Assign(q0, ReviewerTypeKey, [AllReviews]);
    AssignKeys(q0, ReviewerTypeKey, [AllReviews]);
    var k1 := Keys(q1);
    assert k1 == Keys(q0) + [ReviewerTypeKey];
    assert PageNumberKey !in k1 by {
      assert PageNumberKey != ReviewerTypeKey;
    }
    var q2 := Assign(q1, PageNumberKey, [IntToString(page)]);
    AssignKeys(q1, PageNumberKey, [IntToString(page)]);
    assert Keys(q2) == k1 + [PageNumberKey];
    assert k1 + [PageNumberKey] == Keys(q0) + [ReviewerTypeKey, PageNumberKey];
    assert BuildPageUrl(u, page).query == q2;
  }

  /** The check of the `/scrape` route: the submitted text itself must start with the prefix;
      a missing form field is an AttributeError (`None.startswith`). */
  datatype UrlError = MissingUrl | InvalidUrl

  function RouteProductUrl(field: Option<string>): (r: Result<string, UrlError>)
    ensures field.None? <==> r == Failure(MissingUrl)
    ensures field.Some? && StartsWith(field.value, AmazonPrefix) <==> r == Success(field.GetOr([]))
    ensures field.Some? && !StartsWith(field.value, AmazonPrefix) <==> r == Failure(InvalidUrl)
  {
    match field
    case None => Failure(MissingUrl)
    case Some(url) => if StartsWith(url, AmazonPrefix) then Success(url) else Failure(InvalidUrl)
  }

  /** The check of the command-line entry point: the typed line is stripped first, then
      tested, and the stripped text is what gets scraped. */
  function CliProductUrl(line: string): (r: Option<string>)
    ensures r.Some? <==> StartsWith(Strip(line), AmazonPrefix)
    ensures r.Some? ==> r.value == Strip(line) && StartsWith(r.value, AmazonPrefix)
  {
    var url := Strip(line);
    if StartsWith(url, AmazonPrefix) then Some(url) else None
  }

  /** The two entry points disagree on surrounding whitespace: a valid URL typed with a
      leading space is accepted by the command line and refused by the web route. */
  lemma EntryPointsDisagreeOnLeadingSpace(url: string)
    requires StartsWith(url, AmazonPrefix) && !IsSpace(url[|url| - 1])
    ensures CliProductUrl(" " + url) == Some(url)
    ensures RouteProductUrl(Some(" " + url)) == Failure(InvalidUrl)
  {
    var s := " " + url;
    assert url[0] == AmazonPrefix[0];
    assert s[1..] == url;
    assert LeadingSpaces(s) == 1;
    StripNoop(url);
    assert Strip(s) == url;
    assert s[0] != AmazonPrefix[0];
  }
}
