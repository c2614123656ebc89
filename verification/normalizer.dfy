/** The comment clean-up of the batch scraper: `re.sub(r'\s+', ' ', comment).strip()`. */
module Normalizer {
  import opened Text

  /** No two whitespace characters stand next to each other. */
  predicate NoDoubleSpace(s: string) {
    forall i :: 0 <= i < |s| - 1 ==> !(IsSpace(s[i]) && IsSpace(s[i + 1]))
  }

  /** The only whitespace character present is the ordinary space. */
  predicate OnlyPlainSpaces(s: string) {
    forall i :: 0 <= i < |s| && IsSpace(s[i]) ==> s[i] == ' '
  }

  /** The non-whitespace characters of `s`, in order. */
  function NonSpaces(s: string): string {
    if s == [] then []
    else (if IsSpace(s[0]) then [] else [s[0]]) + NonSpaces(s[1..])
  }

  lemma {:induction false} NonSpacesConcat(a: string, b: string)
    ensures NonSpaces(a + b) == NonSpaces(a) + NonSpaces(b)
  {
    if a == [] {
      assert a + b == b;
    } else {
      var head := if IsSpace(a[0]) then [] else [a[0]];
      assert (a + b)[0] == a[0] && (a + b)[1..] == a[1..] + b;
      NonSpacesConcat(a[1..], b);
      calc {
        NonSpaces(a + b);
        head + NonSpaces(a[1..] + b);
        head + (NonSpaces(a[1..]) + NonSpaces(b));
        (head + NonSpaces(a[1..])) + NonSpaces(b);
      }
    }
  }

  lemma {:induction false} NonSpacesOfSpaces(a: string)
    requires AllSpace(a)
    ensures NonSpaces(a) == []
  {
    if a != [] {
      NonSpacesOfSpaces(a[1..]);
    }
  }

  /** `re.sub(r'\s+', ' ', s)`: every maximal run of whitespace becomes one ordinary space;
      everything else is kept in place. */
  function CollapseSpaces(s: string): (r: string)
    ensures |r| > 0 <==> |s| > 0
    ensures s != [] ==> (IsSpace(r[0]) <==> IsSpace(s[0]))
    ensures NoDoubleSpace(r) && OnlyPlainSpaces(r)
    ensures NonSpaces(r) == NonSpaces(s)
    decreases |s|
  {
    if s == [] then []
    else if IsSpace(s[0]) then
      var k := LeadingSpaces(s);
      var rest := CollapseSpaces(s[k..]);
      assert s == s[..k] + s[k..];
      NonSpacesConcat(s[..k], s[k..]);
      NonSpacesOfSpaces(s[..k]);
      NonSpacesConcat(" ", rest);
      " " + rest
    else
      var rest := CollapseSpaces(s[1..]);
      NonSpacesConcat([s[0]], rest);
      [s[0]] + rest
  }

  /** Cutting a piece out of a string keeps both shape properties. */
  lemma SliceKeepsShape(s: string, i: nat, j: nat)
    requires i <= j <= |s|
    ensures NoDoubleSpace(s) ==> NoDoubleSpace(s[i..j])
    ensures OnlyPlainSpaces(s) ==> OnlyPlainSpaces(s[i..j])
  {
    if NoDoubleSpace(s) {
      forall k | 0 <= k < j - i - 1
        ensures !(IsSpace(s[i..j][k]) && IsSpace(s[i..j][k + 1]))
      {
        assert s[i..j][k] == s[i + k] && s[i..j][k + 1] == s[i + k + 1];
      }
    }
  }

  /** Stripping removes whitespace only. */
  lemma StripKeepsNonSpaces(s: string)
    ensures NonSpaces(Strip(s)) == NonSpaces(s)
  {
    var r := Strip(s);
    var i := LeadingSpaces(s);
    assert s == s[..i] + r + s[i + |r|..];
    NonSpacesConcat(s[..i] + r, s[i + |r|..]);
    NonSpacesConcat(s[..i], r);
    NonSpacesOfSpaces(s[..i]);
    NonSpacesOfSpaces(s[i + |r|..]);
  }

  /** The comment step of `preprocess_reviews` (scraper_amazon_reviews.py): no whitespace at
      either end, whitespace only as single ordinary spaces, and every other character kept,
      in order. */
  function NormalizeComment(s: string): (r: string)
    ensures r == [] || (!IsSpace(r[0]) && !IsSpace(r[|r| - 1]))
    ensures NoDoubleSpace(r) && OnlyPlainSpaces(r)
    ensures NonSpaces(r) == NonSpaces(s)
  {
    var c := CollapseSpaces(s);
    StripKeepsShape(c);
    StripKeepsNonSpaces(c);
    Strip(c)
  }

  lemma StripKeepsShape(s: string)
    ensures NoDoubleSpace(s) ==> NoDoubleSpace(Strip(s))
    ensures OnlyPlainSpaces(s) ==> OnlyPlainSpaces(Strip(s))
  {
    var i := LeadingSpaces(s);
    SliceKeepsShape(s, i, i + |Strip(s)|);
  }

  /** Collapsing whitespace runs keeps the words of `split()`. */
  lemma {:induction false} CollapseKeepsWords(s: string)
    ensures Words(CollapseSpaces(s)) == Words(s)
    decreases |s|
  {
    if s == [] {
    } else if IsSpace(s[0]) {
      var k := LeadingSpaces(s);
      var rest := CollapseSpaces(s[k..]);
      assert (" " + rest)[1..] == rest;
      CollapseKeepsWords(s[k..]);
      WordsSkipSpaces(s, k);
    } else {
      var rest := CollapseSpaces(s[1..]);
      assert s == [s[0]] + s[1..];
      CollapseKeepsWords(s[1..]);
      WordsCons(s[0], rest);
      WordsCons(s[0], s[1..]);
    }
  }

  /** The cleaned comment has exactly the words of the scraped one. */
  lemma NormalizeKeepsWords(s: string)
    ensures Words(NormalizeComment(s)) == Words(s)
  {
    CollapseKeepsWords(s);
    StripKeepsWords(CollapseSpaces(s));
  }

  /** The shape `NormalizeComment` produces. */
  predicate CleanShape(r: string) {
    && (r == [] || (!IsSpace(r[0]) && !IsSpace(r[|r| - 1])))
    && NoDoubleSpace(r) && OnlyPlainSpaces(r)
  }

  /** After the first word of a clean string comes one space and another clean string. */
  lemma {:induction false} CleanShapeTail(r: string)
    requires CleanShape(r) && r != [] && WordLength(r) < |r|
    ensures WordLength(r) + 1 < |r| && r[WordLength(r)] == ' '
    ensures CleanShape(r[WordLength(r) + 1..])
  {
    var n := WordLength(r);
    assert r[n] == ' ' && n + 1 < |r|;
    var t := r[n + 1..];
    assert t == r[n + 1..|r|];
    SliceKeepsShape(r, n + 1, |r|);
    assert t[0] == r[n + 1] && t[|t| - 1] == r[|r| - 1];
  }

  /** A string in the cleaned shape is the single-space join of its own words. */
  lemma {:induction false} CleanShapeIsJoin(r: string)
    requires CleanShape(r)
    ensures r == JoinSpace(Words(r))
    decreases |r|
  {
    if r != [] {
      var n := WordLength(r);
      var w := r[..n];
      if n == |r| {
        assert w == r;
        WordsOfWord(r);
      } else {
        CleanShapeTail(r);
        var t := r[n + 1..];
        assert r == w + " " + t by {
          assert r == r[..n] + [r[n]] + t;
        }
        CleanShapeIsJoin(t);
        WordsAroundSpace(w, t);
        WordsOfWord(w);
        assert !IsSpace(t[0]);
        assert Words(t) != [];
        assert ([w] + Words(t))[1..] == Words(t);
      }
    }
  }

  /** `re.sub(r'\s+', ' ', s).strip()` is `" ".join(s.split())`. */
  lemma NormalizeIsJoinOfWords(s: string)
    ensures NormalizeComment(s) == JoinSpace(Words(s))
  {
    CleanShapeIsJoin(NormalizeComment(s));
    NormalizeKeepsWords(s);
  }

  /** A string already in the collapsed shape is left alone by the substitution. */
  lemma {:induction false} CollapseFixpoint(s: string)
    requires NoDoubleSpace(s) && OnlyPlainSpaces(s)
    ensures CollapseSpaces(s) == s
    decreases |s|
  {
    if s != [] {
      SliceKeepsShape(s, 1, |s|);
      if IsSpace(s[0]) {
        assert LeadingSpaces(s) == 1 by {
          assert |s| > 1 ==> !IsSpace(s[1]);
          assert s[..1] == [s[0]];
        }
        CollapseFixpoint(s[1..]);
      } else {
        CollapseFixpoint(s[1..]);
      }
    }
  }

  /** Normalising twice is normalising once. */
  lemma NormalizeIdempotent(s: string)
    ensures NormalizeComment(NormalizeComment(s)) == NormalizeComment(s)
  {
    var r := NormalizeComment(s);
    CollapseFixpoint(r);
    StripNoop(r);
  }
}
