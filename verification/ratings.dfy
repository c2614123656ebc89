/** Reading the scraped star-rating text ("4,5 sur 5 étoiles") as a number. The web
    application and the batch scraper do this in two different ways; both are modelled here,
    together with the places where they agree and where they do not. */
module Ratings {
  import opened Wrappers
  import opened Text

  /** The literal that must follow the number for the web application to recognise it. */
  const StarsSuffix: string := " sur 5 \U{E9}toiles"

  /** The separator the batch scraper cuts the rating text at. */
  const SurSeparator: string := " sur"

  predicate SuffixAt(s: string, i: nat) {
    OccursAt(s, StarsSuffix, i)
  }

  /** The number written `<whole>.<frac>` (or `<whole>,<frac>`) in decimal. */
  function DecimalValue(whole: string, frac: string): (v: real)
    requires AllDigits(whole) && AllDigits(frac)
    ensures DigitsValue(whole) as real <= v
  {
    var f := DigitsValue(frac) as real / Pow10(|frac|) as real;
    assert 0.0 <= f;
    DigitsValue(whole) as real + f
  }

  lemma SuffixAtHead(s: string, i: nat)
    requires SuffixAt(s, i)
    ensures i < |s| && s[i] == ' '
  {
    OccursAtHead(s, StarsSuffix, i);
  }

  // ---------------------------------------------------------------------------
  // Web application: re.search(r"(\d+,\d+|\d+) sur 5 étoiles", text)
  // ---------------------------------------------------------------------------

  /** The second alternative matches at `p`: digits `s[p..k]`, then the suffix. */
  ghost predicate IntegerRatingAt(s: string, p: nat, k: nat) {
    p < k <= |s| && AllDigits(s[p..k]) && SuffixAt(s, k)
  }

  /** The first alternative matches at `p`: digits `s[p..k]`, a comma, digits `s[k + 1..m]`,
      then the suffix. */
  ghost predicate DecimalRatingAt(s: string, p: nat, k: nat, m: nat) {
    && p < k && k + 1 < m <= |s|
    && AllDigits(s[p..k]) && s[k] == ',' && AllDigits(s[k + 1..m])
    && SuffixAt(s, m)
  }

  /** The pattern matches at position `p` and its group, with the comma read as a decimal
      point, denotes `v`. */
  ghost predicate RatingAt(s: string, p: nat, v: real) {
    || (exists k: nat :: IntegerRatingAt(s, p, k) && v == DigitsValue(s[p..k]) as real)
    || (exists k: nat, m: nat :: DecimalRatingAt(s, p, k, m) && v == DecimalValue(s[p..k], s[k + 1..m]))
  }

  /** No match starts anywhere in `[from, to)`. */
  ghost predicate NoRatingIn(s: string, from: nat, to: nat) {
    forall q: nat, v :: from <= q < to ==> !RatingAt(s, q, v)
  }

  /** The regular-expression engine at one start position: `\d+` is greedy, the decimal
      alternative is tried first, and a shorter digit run can never help because the next
      character would then be a digit rather than `,` or the space of the suffix. */
  function MatchAt(s: string, p: nat): (r: Option<real>)
    requires p <= |s|
    ensures r.Some? ==> p < |s| && IsDigit(s[p]) && 0.0 <= r.value
  {
    var e1 := DigitRunEnd(s, p);
    if e1 == p then None
    else if e1 < |s| && s[e1] == ',' && DigitRunEnd(s, e1 + 1) > e1 + 1
            && SuffixAt(s, DigitRunEnd(s, e1 + 1)) then
      Some(DecimalValue(s[p..e1], s[e1 + 1..DigitRunEnd(s, e1 + 1)]))
    else if SuffixAt(s, e1) then Some(DigitsValue(s[p..e1]) as real)
    else None
  }

  /** The engine's answer at `p` is exactly the declarative match relation at `p`. */
  lemma MatchAtSpec(s: string, p: nat)
    requires p <= |s|
    ensures forall v :: MatchAt(s, p) == Some(v) <==> RatingAt(s, p, v)
  {
    forall v
      ensures MatchAt(s, p) == Some(v) <==> RatingAt(s, p, v)
    {
      if MatchAt(s, p) == Some(v) {
        MatchAtSound(s, p, v);
      }
      if RatingAt(s, p, v) {
        if k: nat :| IntegerRatingAt(s, p, k) && v == DigitsValue(s[p..k]) as real {
          MatchAtFindsInteger(s, p, k);
        } else {
          var k: nat, m: nat :| DecimalRatingAt(s, p, k, m) && v == DecimalValue(s[p..k], s[k + 1..m]);
          MatchAtFindsDecimal(s, p, k, m);
        }
      }
    }
  }

  /** What the engine reports is a match. */
  lemma MatchAtSound(s: string, p: nat, v: real)
    requires p <= |s| && MatchAt(s, p) == Some(v)
    ensures RatingAt(s, p, v)
  {
    var e1 := DigitRunEnd(s, p);
    if e1 < |s| && s[e1] == ',' && DigitRunEnd(s, e1 + 1) > e1 + 1
       && SuffixAt(s, DigitRunEnd(s, e1 + 1)) {
      assert DecimalRatingAt(s, p, e1, DigitRunEnd(s, e1 + 1));
    } else {
      assert IntegerRatingAt(s, p, e1);
    }
  }

  /** An integer match is found: the digit run ends at the suffix's space, not at a comma. */
  lemma MatchAtFindsInteger(s: string, p: nat, k: nat)
    requires IntegerRatingAt(s, p, k)
    ensures MatchAt(s, p) == Some(DigitsValue(s[p..k]) as real)
  {
    SuffixAtHead(s, k);
    DigitRunEndUnique(s, p, k);
  }

  /** A decimal match is found: both digit runs are maximal. */
  lemma MatchAtFindsDecimal(s: string, p: nat, k: nat, m: nat)
    requires DecimalRatingAt(s, p, k, m)
    ensures MatchAt(s, p) == Some(DecimalValue(s[p..k], s[k + 1..m]))
  {
    SuffixAtHead(s, m);
    DigitRunEndUnique(s, p, k);
    DigitRunEndUnique(s, k + 1, m);
  }

  /** At most one value matches at a given position. */
  lemma RatingAtUnique(s: string, p: nat, v: real, w: real)
    requires RatingAt(s, p, v) && RatingAt(s, p, w)
    ensures v == w
  {
    if p > |s| {
      if k: nat :| IntegerRatingAt(s, p, k) {
      }
    } else {
      MatchAtSpec(s, p);
    }
  }

  /** No match can start past the end of the text. */
  lemma NoRatingPastEnd(s: string, q: nat, v: real)
    requires q >= |s|
    ensures !RatingAt(s, q, v)
  {
  }

  /** `re.search`: try every start position from `p` on, leftmost first. */
  function SearchFrom(s: string, p: nat): (r: Option<real>)
    requires p <= |s|
    ensures r.None? <==> forall q :: p <= q <= |s| ==> MatchAt(s, q).None?
    ensures r.Some? ==> exists q :: p <= q <= |s| && MatchAt(s, q) == r
                                    && forall q' :: p <= q' < q ==> MatchAt(s, q').None?
    decreases |s| - p
  {
    if p == |s| || MatchAt(s, p).Some? then MatchAt(s, p)
    else SearchFrom(s, p + 1)
  }

  /** `extract_numeric_rating` (app1.py): the group of the leftmost match, comma read as a
      decimal point; `None` exactly when the pattern matches nowhere. It never fails. */
  function ExtractNumericRating(text: string): (r: Option<real>)
    ensures r.None? <==> forall q :: 0 <= q <= |text| ==> MatchAt(text, q).None?
    ensures r.Some? ==> exists q :: 0 <= q <= |text| && MatchAt(text, q) == r
                                    && forall q' :: 0 <= q' < q ==> MatchAt(text, q').None?
  {
    SearchFrom(text, 0)
  }

  /** The same contract against the declarative match relation: `None` exactly when the
      pattern matches nowhere, otherwise the value of the leftmost match. */
  lemma ExtractNumericRatingSpec(text: string)
    ensures ExtractNumericRating(text).None? <==> forall q: nat, v :: !RatingAt(text, q, v)
    ensures ExtractNumericRating(text).Some? ==>
              exists q: nat :: RatingAt(text, q, ExtractNumericRating(text).value)
                               && NoRatingIn(text, 0, q)
  {
    var r := ExtractNumericRating(text);
    forall q: nat, v | RatingAt(text, q, v)
      ensures q <= |text| && MatchAt(text, q) == Some(v)
    {
      if q > |text| {
        NoRatingPastEnd(text, q, v);
      } else {
        MatchAtSpec(text, q);
      }
    }
    if r.Some? {
      var q :| 0 <= q <= |text| && MatchAt(text, q) == r
               && forall q' :: 0 <= q' < q ==> MatchAt(text, q').None?;
      MatchAtSpec(text, q);
      assert RatingAt(text, q, r.value);
    } else {
      forall q: nat, v
        ensures !RatingAt(text, q, v)
      {
        if q <= |text| {
          MatchAtSpec(text, q);
        } else {
          NoRatingPastEnd(text, q, v);
        }
      }
    }
  }

  /** A match at the very start decides the result. */
  lemma ExtractFirstMatch(text: string, v: real)
    requires RatingAt(text, 0, v)
    ensures ExtractNumericRating(text) == Some(v)
  {
    MatchAtSpec(text, 0);
    assert MatchAt(text, 0) == Some(v);
  }

  /** "<a>,<b> sur 5 étoiles…" reads as the decimal number a.b. */
  lemma ExtractDecimal(a: string, b: string, tail: string)
    requires a != [] && b != [] && AllDigits(a) && AllDigits(b)
    ensures ExtractNumericRating(a + "," + b + StarsSuffix + tail) == Some(DecimalValue(a, b))
  {
    var s := a + "," + b + StarsSuffix + tail;
    var k, m := |a|, |a| + 1 + |b|;
    assert s[..k] == a && s[k + 1..m] == b;
    assert s[m..m + |StarsSuffix|] == StarsSuffix;
    assert DecimalRatingAt(s, 0, k, m);
    ExtractFirstMatch(s, DecimalValue(a, b));
  }

  /** "<a> sur 5 étoiles…" reads as the whole number a. */
  lemma ExtractInteger(a: string, tail: string)
    requires a != [] && AllDigits(a)
    ensures ExtractNumericRating(a + StarsSuffix + tail) == Some(DigitsValue(a) as real)
  {
    var s := a + StarsSuffix + tail;
    assert s[..|a|] == a;
    assert s[|a|..|a| + |StarsSuffix|] == StarsSuffix;
    assert IntegerRatingAt(s, 0, |a|);
    ExtractFirstMatch(s, DigitsValue(a) as real);
  }

  /** Without the literal suffix (with an ordinary space) nothing is recognised. */
  lemma ExtractNeedsSuffix(text: string)
    requires forall i: nat :: !SuffixAt(text, i)
    ensures ExtractNumericRating(text) == None
  {
  }

  lemma FourCommaFive()
    ensures DecimalValue("4", "5") == 4.5
  {
  }

  /** Worked example: "4,5 sur 5 étoiles" is 4.5. */
  lemma ExtractExampleDecimal(text: string)
    requires text == "4,5" + StarsSuffix
    ensures ExtractNumericRating(text) == Some(4.5)
  {
    var a, b := "4", "5";
    assert text == a + "," + b + StarsSuffix;
    FourCommaFive();
    ExtractDecimalStars(a, b);
  }

  /** Worked example: "4 sur 5 étoiles" is 4.0. */
  lemma ExtractExampleInteger(text: string)
    requires text == "4" + StarsSuffix
    ensures ExtractNumericRating(text) == Some(4.0)
  {
    ExtractIntegerStars("4");
  }

  /** Worked example: "sur 5 étoiles" (no number) gives `None`. */
  lemma ExtractExampleNoNumber(text: string)
    requires text == "sur 5 \U{E9}toiles"
    ensures ExtractNumericRating(text) == None
  {
    ExtractNeedsSuffix(text);
  }

  /** The web application does not treat a no-break space as a space: "4,5\xa0sur 5 étoiles"
      is not recognised. */
  lemma ExtractIgnoresNbsp(a: string, b: string)
    requires a != [] && b != [] && AllDigits(a) && AllDigits(b)
    ensures ExtractNumericRating(a + "," + b + [Nbsp] + "sur 5 \U{E9}toiles") == None
  {
    var s := a + "," + b + [Nbsp] + "sur 5 \U{E9}toiles";
    forall i | 0 <= i <= |a| + |b| + 1
      ensures s[i] != ' '
    {
      assert i < |a| ==> s[i] == a[i];
      assert |a| < i <= |a| + |b| ==> s[i] == b[i - |a| - 1];
    }
    forall i: nat
      ensures !SuffixAt(s, i)
    {
      if SuffixAt(s, i) {
        SuffixAtHead(s, i);
      }
    }
    ExtractNeedsSuffix(s);
  }

  // ---------------------------------------------------------------------------
  // Batch scraper: float(rating.strip().replace("\xa0", " ").split(" sur")[0].replace(",", "."))
  // ---------------------------------------------------------------------------

  /** The plain decimal literals `float()` accepts without a sign: digits, optionally a point
      and more digits, at least one digit in all. */
  ghost predicate UnsignedDecimal(u: string, v: real) {
    || (u != [] && AllDigits(u) && v == DigitsValue(u) as real)
    || (exists i :: 0 <= i < |u| && u[i] == '.' && |u| > 1
                    && AllDigits(u[..i]) && AllDigits(u[i + 1..])
                    && v == DecimalValue(u[..i], u[i + 1..]))
  }

  function ParseUnsignedDecimal(u: string): (r: Option<real>)
    ensures r.Some? ==> UnsignedDecimal(u, r.value)
  {
    var i := DigitRunEnd(u, 0);
    assert u[0..|u|] == u;
    if i == |u| then
      if i == 0 then None else Some(DigitsValue(u) as real)
    else if u[i] != '.' then None
    else
      var j := DigitRunEnd(u, i + 1);
      if j != |u| || |u| == 1 then None
      else
        assert u[..i] == u[0..i];
        Some(DecimalValue(u[..i], u[i + 1..]))
  }

  /** Digits, a point, digits (either side possibly empty, not both) read as that decimal. */
  lemma ParseFraction(a: string, b: string)
    requires AllDigits(a) && AllDigits(b) && |a| + |b| > 0
    ensures ParseUnsignedDecimal(a + "." + b) == Some(DecimalValue(a, b))
  {
    var u := a + "." + b;
    assert u[0..|a|] == a;
    DigitRunEndUnique(u, 0, |a|);
    assert u[|a| + 1..|u|] == b;
    DigitRunEndUnique(u, |a| + 1, |u|);
    assert u[..|a|] == a && u[|a| + 1..] == b;
  }

  /** A run of digits reads as its value. */
  lemma ParseWhole(a: string)
    requires AllDigits(a) && a != []
    ensures ParseUnsignedDecimal(a) == Some(DigitsValue(a) as real)
  {
    assert a[0..|a|] == a;
    DigitRunEndUnique(a, 0, |a|);
  }

  /** Every unsigned literal begins and ends with a digit or the point. */
  lemma {:induction false} UnsignedDecimalEnds(u: string, v: real)
    requires UnsignedDecimal(u, v)
    ensures u != []
    ensures IsDigit(u[0]) || u[0] == '.'
    ensures IsDigit(u[|u| - 1]) || u[|u| - 1] == '.'
  {
    if !(u != [] && AllDigits(u) && v == DigitsValue(u) as real) {
      var i :| 0 <= i < |u| && u[i] == '.' && |u| > 1
               && AllDigits(u[..i]) && AllDigits(u[i + 1..]);
      if i > 0 {
        assert u[0] == u[..i][0];
      }
      if i < |u| - 1 {
        assert u[|u| - 1] == u[i + 1..][|u| - i - 2];
      }
    }
  }

  /** Every unsigned literal is read, with its value. */
  lemma {:induction false} ParseUnsignedComplete(u: string, v: real)
    requires UnsignedDecimal(u, v)
    ensures ParseUnsignedDecimal(u) == Some(v)
  {
    if u != [] && AllDigits(u) && v == DigitsValue(u) as real {
      ParseWhole(u);
    } else {
      var i :| 0 <= i < |u| && u[i] == '.' && |u| > 1
               && AllDigits(u[..i]) && AllDigits(u[i + 1..])
               && v == DecimalValue(u[..i], u[i + 1..]);
      var a, b := u[..i], u[i + 1..];
      assert u == a + "." + b;
      ParseFraction(a, b);
    }
  }

  /** The literals `float()` reads exactly: an unsigned literal with an optional sign. */
  ghost predicate SignedDecimal(u: string, v: real) {
    || UnsignedDecimal(u, v)
    || (u != [] && u[0] == '+' && UnsignedDecimal(u[1..], v))
    || (u != [] && u[0] == '-' && UnsignedDecimal(u[1..], -v))
  }

  /** A plain decimal literal with an optional sign. */
  function ParseDecimalLiteral(u: string): (r: Option<real>)
    ensures r.Some? ==> SignedDecimal(u, r.value)
  {
    if u != [] && (u[0] == '+' || u[0] == '-') then
      match ParseUnsignedDecimal(u[1..])
      case Some(v) => Some(if u[0] == '-' then -v else v)
      case None => None
    else ParseUnsignedDecimal(u)
  }

  /** Every signed literal is read, with its value: in particular "-4.5" and "+4". */
  lemma {:induction false} ParseDecimalLiteralComplete(u: string)
    ensures forall v :: SignedDecimal(u, v) ==> ParseDecimalLiteral(u) == Some(v)
  {
    forall v | SignedDecimal(u, v)
      ensures ParseDecimalLiteral(u) == Some(v)
    {
      if UnsignedDecimal(u, v) {
        UnsignedDecimalEnds(u, v);
        ParseUnsignedComplete(u, v);
      } else if u[0] == '+' {
        ParseUnsignedComplete(u[1..], v);
      } else {
        ParseUnsignedComplete(u[1..], -v);
      }
    }
  }

  /** The whitespace `float()` ignores around its argument: ASCII space, tab, line feed,
      vertical tab, form feed, carriage return, and the non-ASCII characters `str.isspace`
      accepts. Unlike `str.strip()`, it keeps the ASCII separators U+001C to U+001F. */
  predicate FloatSpace(c: char) {
    IsSpace(c) && !('\U{1C}' <= c <= '\U{1F}')
  }

  predicate AllFloatSpace(s: string) {
    forall i :: 0 <= i < |s| ==> FloatSpace(s[i])
  }

  /** Number of `float` whitespace characters at the start of `s`. */
  function FloatLead(s: string): (k: nat)
    ensures k <= |s|
    ensures AllFloatSpace(s[..k])
    ensures k == |s| || !FloatSpace(s[k])
  {
    if s == [] || !FloatSpace(s[0]) then 0
    else
      var k := 1 + FloatLead(s[1..]);
      assert s[..k] == [s[0]] + s[1..][..k - 1];
      k
  }

  /** Number of `float` whitespace characters at the end of `s`. */
  function FloatTrail(s: string): (k: nat)
    ensures k <= |s|
    ensures AllFloatSpace(s[|s| - k..])
    ensures k == |s| || !FloatSpace(s[|s| - k - 1])
  {
    if s == [] || !FloatSpace(s[|s| - 1]) then 0
    else
      var t := s[..|s| - 1];
      var k := 1 + FloatTrail(t);
      assert s[|s| - k..] == t[|t| - (k - 1)..] + [s[|s| - 1]];
      k
  }

  /** `float`'s own strip: the text between its leading and trailing whitespace. */
  function FloatCore(t: string): (r: string)
    ensures FloatLead(t) + |r| <= |t|
    ensures t[FloatLead(t)..FloatLead(t) + |r|] == r
    ensures AllFloatSpace(t[..FloatLead(t)]) && AllFloatSpace(t[FloatLead(t) + |r|..])
    ensures r == [] || (!FloatSpace(r[0]) && !FloatSpace(r[|r| - 1]))
  {
    var a := FloatLead(t);
    var u := t[a..];
    var b := FloatTrail(u);
    var r := u[..|u| - b];
    assert t[a..a + |r|] == r;
    assert t[a + |r|..] == u[|u| - b..];
    assert r != [] ==> r[0] == t[a] && r[|r| - 1] == u[|u| - b - 1];
    r
  }

  /** `float(t)` reads `v` exactly: `t` is an optionally signed plain decimal literal
      surrounded by `float` whitespace. */
  ghost predicate FloatLiteral(t: string, v: real) {
    exists i, j :: 0 <= i <= j <= |t| && AllFloatSpace(t[..i]) && AllFloatSpace(t[j..])
                   && SignedDecimal(t[i..j], v)
  }

  /** A signed literal neither starts nor ends with whitespace. */
  lemma {:induction false} SignedDecimalEnds(u: string, v: real)
    requires SignedDecimal(u, v)
    ensures u != [] && !FloatSpace(u[0]) && !FloatSpace(u[|u| - 1])
  {
    if UnsignedDecimal(u, v) {
      UnsignedDecimalEnds(u, v);
    } else if u[0] == '+' {
      UnsignedDecimalEnds(u[1..], v);
      assert u[|u| - 1] == u[1..][|u| - 2];
    } else {
      UnsignedDecimalEnds(u[1..], -v);
      assert u[|u| - 1] == u[1..][|u| - 2];
    }
  }

  /** A literal surrounded by whitespace is exactly what `float`'s strip leaves. */
  lemma {:induction false} FloatCoreOfLiteral(t: string, i: nat, j: nat, v: real)
    requires i <= j <= |t| && AllFloatSpace(t[..i]) && AllFloatSpace(t[j..])
    requires SignedDecimal(t[i..j], v)
    ensures FloatCore(t) == t[i..j]
  {
    var u := t[i..j];
    SignedDecimalEnds(u, v);
    assert t[i] == u[0] && t[j - 1] == u[|u| - 1];
    FloatLeadUnique(t, i);
    var s := t[i..];
    var k := |t| - j;
    assert s[|s| - k..] == t[j..];
    assert s[|s| - k - 1] == t[j - 1];
    FloatTrailUnique(s, k);
    assert FloatCore(t) == s[..|s| - k];
  }

  /** The leading `float` whitespace ends at the first other character. */
  lemma {:induction false} FloatLeadUnique(t: string, i: nat)
    requires i <= |t| && AllFloatSpace(t[..i]) && (i == |t| || !FloatSpace(t[i]))
    ensures FloatLead(t) == i
    decreases i
  {
    if i > 0 {
      assert t[..i][0] == t[0];
      assert t[1..][..i - 1] == t[1..i];
      assert t[1..i] == t[..i][1..];
      assert i - 1 == |t[1..]| || t[1..][i - 1] == t[i];
      FloatLeadUnique(t[1..], i - 1);
    }
  }

  /** The trailing `float` whitespace starts after the last other character. */
  lemma {:induction false} FloatTrailUnique(s: string, k: nat)
    requires k <= |s| && AllFloatSpace(s[|s| - k..]) && (k == |s| || !FloatSpace(s[|s| - k - 1]))
    ensures FloatTrail(s) == k
    decreases k
  {
    if k > 0 {
      var t := s[..|s| - 1];
      assert s[|s| - k..][k - 1] == s[|s| - 1];
      assert t[|t| - (k - 1)..] == s[|s| - k..|s| - 1];
      assert s[|s| - k..|s| - 1] == s[|s| - k..][..k - 1];
      assert k - 1 == |t| || t[|t| - (k - 1) - 1] == s[|s| - k - 1];
      FloatTrailUnique(t, k - 1);
    }
  }

  /** What `float`'s strip leaves is a literal exactly when the whole text is one. */
  lemma {:induction false} FloatLiteralCore(t: string)
    ensures forall v :: FloatLiteral(t, v) <==> SignedDecimal(FloatCore(t), v)
  {
    forall v
      ensures FloatLiteral(t, v) <==> SignedDecimal(FloatCore(t), v)
    {
      if FloatLiteral(t, v) {
        var i, j :| 0 <= i <= j <= |t| && AllFloatSpace(t[..i]) && AllFloatSpace(t[j..])
                    && SignedDecimal(t[i..j], v);
        FloatCoreOfLiteral(t, i, j, v);
      }
      if SignedDecimal(FloatCore(t), v) {
        var a := FloatLead(t);
        var s := t[a..];
        var b := FloatTrail(s);
        assert s[|s| - b..] == t[|t| - b..];
        assert FloatCore(t) == t[a..|t| - b];
        assert AllFloatSpace(t[..a]) && AllFloatSpace(t[|t| - b..]);
      }
    }
  }

  /** Python's `float(t)`: an optionally signed plain decimal literal surrounded by `float`
      whitespace is read exactly; every other text (exponents, digit underscores, non-ASCII
      digits, and everything `float` rejects) is answered by `other`, which returns `None`
      where `float` raises. "inf" and "nan" denote no real number, so their results cannot
      be represented here. */
  function ParseFloat(t: string, other: string -> Option<real>): (r: Option<real>)
    ensures forall v :: FloatLiteral(t, v) ==> r == Some(v)
    ensures (forall v :: !FloatLiteral(t, v)) ==> r == other(t)
  {
    FloatLiteralCore(t);
    ParseDecimalLiteralComplete(FloatCore(t));
    match ParseDecimalLiteral(FloatCore(t))
    case Some(v) => Some(v)
    case None => other(t)
  }

  /** The information separators are not `float` whitespace: "4\x1f" is no literal, and
      `float` rejects it although `str.strip()` would have removed the separator. */
  lemma FloatKeepsUnitSeparator(other: string -> Option<real>)
    ensures ParseFloat("4\U{1F}", other) == other("4\U{1F}")
    ensures Strip("4\U{1F}") == "4"
  {
    var t := "4\U{1F}";
    assert t[..0] == [] && t[|t| - 0..] == [];
    FloatLeadUnique(t, 0);
    FloatTrailUnique(t, 0);
    assert FloatCore(t) == t;
    assert DigitRunEnd(t, 0) == 1;
    assert ParseDecimalLiteral(t) == None;
    assert LeadingSpaces(t) == 0;
    assert t[..1] == "4";
    assert t[1..] == "\U{1F}";
  }

  /** The text `float()` is applied to, from an already stripped non-empty rating. */
  function NumberPart(stripped: string): (r: string)
    ensures |r| <= |stripped|
    ensures forall i :: 0 <= i < |r| ==>
              r[i] == (if stripped[i] == ',' then '.' else if stripped[i] == Nbsp then ' ' else stripped[i])
    ensures var u := ReplaceChar(stripped, Nbsp, ' ');
            && (forall j :: 0 <= j < |r| ==> !OccursAt(u, SurSeparator, j))
            && (|r| == |stripped| || OccursAt(u, SurSeparator, |r|))
  {
    ReplaceChar(BeforeFirst(ReplaceChar(stripped, Nbsp, ' '), SurSeparator), ',', '.')
  }

  /** The rating step of `preprocess_reviews` (scraper_amazon_reviews.py) for a string
      rating. `None` is the Python `None` stored for an empty rating or one `float()`
      rejects: a failed conversion is absorbed, never propagated. */
  function ParseRatingText(raw: string, other: string -> Option<real>): (r: Option<real>)
    ensures AllSpace(raw) ==> r == None
    ensures !AllSpace(raw) ==> r == ParseFloat(NumberPart(Strip(raw)), other)
  {
    StripEmptyIff(raw);
    var stripped := Strip(raw);
    if stripped == [] then None
    else ParseFloat(NumberPart(stripped), other)
  }

  /** The text handed to `float()` for "<a>,<b>" followed by " sur…" (with an ordinary or a
      no-break space) is "<a>.<b>". */
  lemma NumberPartDecimal(a: string, b: string, x: string)
    requires AllDigits(a) && AllDigits(b)
    requires StartsWith(ReplaceChar(x, Nbsp, ' '), SurSeparator)
    ensures NumberPart(a + "," + b + x) == a + "." + b
  {
    var head := a + "," + b;
    var x' := ReplaceChar(x, Nbsp, ' ');
    var n := |head|;
    forall i | 0 <= i < n
      ensures head[i] != Nbsp && head[i] != ' '
    {
      assert i < |a| ==> head[i] == a[i];
      assert |a| < i ==> head[i] == b[i - |a| - 1];
    }
    ReplaceAbsent(head, Nbsp, ' ');
    ReplaceConcat(head, x, Nbsp, ' ');
    var s := head + x';
    assert s[n..n + |SurSeparator|] == x'[..|SurSeparator|];
    BeforeFirstAt(s, SurSeparator, n);
    assert s[..n] == head;
    assert ReplaceChar(head, ',', '.') == a + "." + b;
  }

  /** The text handed to `float()` for "<a>" followed by " sur…" (with an ordinary or a
      no-break space) is "<a>". */
  lemma NumberPartInteger(a: string, x: string)
    requires AllDigits(a)
    requires StartsWith(ReplaceChar(x, Nbsp, ' '), SurSeparator)
    ensures NumberPart(a + x) == a
  {
    var x' := ReplaceChar(x, Nbsp, ' ');
    var n := |a|;
    forall i | 0 <= i < n
      ensures a[i] != Nbsp && a[i] != ' '
    {
    }
    ReplaceAbsent(a, Nbsp, ' ');
    ReplaceConcat(a, x, Nbsp, ' ');
    var s := a + x';
    assert s[n..n + |SurSeparator|] == x'[..|SurSeparator|];
    BeforeFirstAt(s, SurSeparator, n);
    assert s[..n] == a;
    ReplaceAbsent(a, ',', '.');
  }

  /** Stripping a rating that starts with a digit and whose tail starts with " sur" (after
      the no-break space is replaced) keeps the number and the separator: only whitespace
      after the "r" can go. */
  lemma StripKeepsSeparator(h: string, x: string) returns (m: nat)
    requires h != [] && IsDigit(h[0])
    requires StartsWith(ReplaceChar(x, Nbsp, ' '), SurSeparator)
    ensures |SurSeparator| <= m <= |x|
    ensures Strip(h + x) == h + x[..m]
    ensures StartsWith(ReplaceChar(x[..m], Nbsp, ' '), SurSeparator)
  {
    var x' := ReplaceChar(x, Nbsp, ' ');
    assert x'[..|SurSeparator|][3] == 'r';
    m := StripAfterHead(h, x, 3);
    var y' := ReplaceChar(x[..m], Nbsp, ' ');
    assert y'[..|SurSeparator|] == x'[..|SurSeparator|];
  }

  /** `float("<a>.<b>")` is a.b. */
  lemma ParseFloatDecimal(a: string, b: string, other: string -> Option<real>)
    requires a != [] && AllDigits(a) && AllDigits(b)
    ensures ParseFloat(a + "." + b, other) == Some(DecimalValue(a, b))
  {
    var u := a + "." + b;
    assert u[..|a|] == a && u[|a| + 1..] == b && u[|a|] == '.';
    assert UnsignedDecimal(u, DecimalValue(a, b));
    assert u[..0] == [] && u[|u|..] == [] && u[0..|u|] == u;
    assert FloatLiteral(u, DecimalValue(a, b));
  }

  /** `float("<a>")` is a. */
  lemma ParseFloatWhole(a: string, other: string -> Option<real>)
    requires a != [] && AllDigits(a)
    ensures ParseFloat(a, other) == Some(DigitsValue(a) as real)
  {
    assert a[..0] == [] && a[|a|..] == [] && a[0..|a|] == a;
    assert FloatLiteral(a, DigitsValue(a) as real);
  }

  /** A rating written "<a>,<b>" followed by `x` starting " sur" (with an ordinary or a
      no-break space) is read as a.b by the batch scraper, whatever else `x` holds (trailing
      whitespace and further no-break spaces included) and whatever the fallback parser does. */
  lemma ParseDecimalRating(a: string, b: string, x: string, other: string -> Option<real>)
    requires a != [] && b != [] && AllDigits(a) && AllDigits(b)
    requires StartsWith(ReplaceChar(x, Nbsp, ' '), SurSeparator)
    ensures ParseRatingText(a + "," + b + x, other) == Some(DecimalValue(a, b))
  {
    var head := a + "," + b;
    assert head[0] == a[0];
    var m := StripKeepsSeparator(head, x);
    assert (head + x)[0] == head[0];
    assert a + "," + b + x == head + x;
    NumberPartDecimal(a, b, x[..m]);
    ParseFloatDecimal(a, b, other);
  }

  /** Likewise "<a>" followed by `x` starting " sur" is read as the whole number a. */
  lemma ParseIntegerRating(a: string, x: string, other: string -> Option<real>)
    requires a != [] && AllDigits(a)
    requires StartsWith(ReplaceChar(x, Nbsp, ' '), SurSeparator)
    ensures ParseRatingText(a + x, other) == Some(DigitsValue(a) as real)
  {
    var m := StripKeepsSeparator(a, x);
    assert (a + x)[0] == a[0];
    NumberPartInteger(a, x[..m]);
    ParseFloatWhole(a, other);
  }

  /** Whitespace at the end of the rating does not disturb the batch scraper: "a,b sur "
      reads as a.b. */
  lemma ParseTrailingSpaceRating(a: string, b: string, other: string -> Option<real>)
    requires a != [] && b != [] && AllDigits(a) && AllDigits(b)
    ensures ParseRatingText(a + "," + b + " sur ", other) == Some(DecimalValue(a, b))
  {
    var x := " sur ";
    var x' := ReplaceChar(x, Nbsp, ' ');
    assert x'[..|SurSeparator|] == SurSeparator by {
      assert x'[0] == ' ' && x'[1] == 's' && x'[2] == 'u' && x'[3] == 'r';
    }
    ParseDecimalRating(a, b, x, other);
  }

  /** A no-break space after the separator does not disturb it either: "a sur\xa05" reads
      as a. */
  lemma ParseNbspTailRating(a: string, other: string -> Option<real>)
    requires a != [] && AllDigits(a)
    ensures ParseRatingText(a + (SurSeparator + [Nbsp] + "5"), other) == Some(DigitsValue(a) as real)
  {
    var x := SurSeparator + [Nbsp] + "5";
    var x' := ReplaceChar(x, Nbsp, ' ');
    assert x'[..|SurSeparator|] == SurSeparator by {
      assert x'[0] == ' ' && x'[1] == 's' && x'[2] == 'u' && x'[3] == 'r';
    }
    ParseIntegerRating(a, x, other);
  }

  lemma ExtractDecimalStars(a: string, b: string)
    requires a != [] && b != [] && AllDigits(a) && AllDigits(b)
    ensures ExtractNumericRating(a + "," + b + StarsSuffix) == Some(DecimalValue(a, b))
  {
    ExtractDecimal(a, b, "");
    assert a + "," + b + StarsSuffix + "" == a + "," + b + StarsSuffix;
  }

  lemma ParseDecimalStars(a: string, b: string, other: string -> Option<real>)
    requires a != [] && b != [] && AllDigits(a) && AllDigits(b)
    ensures ParseRatingText(a + "," + b + StarsSuffix, other) == Some(DecimalValue(a, b))
  {
    ParseDecimalRating(a, b, StarsSuffix, other);
  }

  lemma ExtractIntegerStars(a: string)
    requires a != [] && AllDigits(a)
    ensures ExtractNumericRating(a + StarsSuffix) == Some(DigitsValue(a) as real)
  {
    ExtractInteger(a, "");
    assert a + StarsSuffix + "" == a + StarsSuffix;
  }

  lemma ParseIntegerStars(a: string, other: string -> Option<real>)
    requires a != [] && AllDigits(a)
    ensures ParseRatingText(a + StarsSuffix, other) == Some(DigitsValue(a) as real)
  {
    ParseIntegerRating(a, StarsSuffix, other);
  }

  /** On the format the site uses, both readings agree: "<a>,<b> sur 5 étoiles" gives a.b in
      the web application and in the batch scraper, whatever the fallback parser does. */
  lemma VariantsAgreeDecimal(a: string, b: string, other: string -> Option<real>)
    requires a != [] && b != [] && AllDigits(a) && AllDigits(b)
    ensures ExtractNumericRating(a + "," + b + StarsSuffix)
            == ParseRatingText(a + "," + b + StarsSuffix, other)
            == Some(DecimalValue(a, b))
  {
    ExtractDecimalStars(a, b);
    ParseDecimalStars(a, b, other);
  }

  /** Likewise "<a> sur 5 étoiles" gives the whole number a in both. */
  lemma VariantsAgreeInteger(a: string, other: string -> Option<real>)
    requires a != [] && AllDigits(a)
    ensures ExtractNumericRating(a + StarsSuffix)
            == ParseRatingText(a + StarsSuffix, other)
            == Some(DigitsValue(a) as real)
  {
    ExtractIntegerStars(a);
    ParseIntegerStars(a, other);
  }

  /** The batch scraper reads "<a>,<b>\xa0sur 5 étoiles" as a.b. */
  lemma ParseNbspRating(a: string, b: string, other: string -> Option<real>)
    requires a != [] && b != [] && AllDigits(a) && AllDigits(b)
    ensures ParseRatingText(a + "," + b + [Nbsp] + "sur 5 \U{E9}toiles", other)
            == Some(DecimalValue(a, b))
  {
    var x := [Nbsp] + "sur 5 \U{E9}toiles";
    var x' := ReplaceChar(x, Nbsp, ' ');
    assert x'[..|SurSeparator|] == SurSeparator by {
      assert x'[0] == ' ' && x'[1] == 's' && x'[2] == 'u' && x'[3] == 'r';
    }
    ParseDecimalRating(a, b, x, other);
    assert a + "," + b + x == a + "," + b + [Nbsp] + "sur 5 \U{E9}toiles";
  }

  /** With a no-break space before "sur" the two readings part: the batch scraper still reads
      a.b, the web application finds nothing. */
  lemma VariantsDisagreeOnNbsp(a: string, b: string, other: string -> Option<real>)
    requires a != [] && b != [] && AllDigits(a) && AllDigits(b)
    ensures ParseRatingText(a + "," + b + [Nbsp] + "sur 5 \U{E9}toiles", other)
            == Some(DecimalValue(a, b))
    ensures ExtractNumericRating(a + "," + b + [Nbsp] + "sur 5 \U{E9}toiles") == None
  {
    ExtractIgnoresNbsp(a, b);
    ParseNbspRating(a, b, other);
  }

  /** An empty or whitespace-only rating becomes `None`. */
  lemma BlankRatingIsNone(raw: string, other: string -> Option<real>)
    requires AllSpace(raw)
    ensures ParseRatingText(raw, other) == None
  {
  }

  /** A unit separator between the number and " sur" survives `strip()` and reaches
      `float()`, which does not skip it: the conversion is the fallback's answer, so `None`
      when `float` raises. */
  lemma UnitSeparatorRating(other: string -> Option<real>)
    ensures ParseRatingText("4\U{1F}" + StarsSuffix, other) == other("4\U{1F}")
  {
    var raw := "4\U{1F}" + StarsSuffix;
    assert !AllSpace(raw) by {
      assert raw[0] == '4';
    }
    StripNoop(raw);
    ReplaceAbsent(raw, Nbsp, ' ');
    assert OccursAt(raw, SurSeparator, 2) by {
      assert raw[2..6] == SurSeparator;
    }
    BeforeFirstAt(raw, SurSeparator, 2);
    assert raw[..2] == "4\U{1F}";
    ReplaceAbsent("4\U{1F}", ',', '.');
    FloatKeepsUnitSeparator(other);
  }
}
