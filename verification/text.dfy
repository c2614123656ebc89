/** Character classes and the few `str` operations of Python that the pipeline relies on:
    `strip()`, `split()`, `" ".join(...)`, `find`, `replace` of one character, `startswith`,
    and reading or writing a run of decimal digits. */
module Text {
  import opened Wrappers

  /** Python's `str.isspace()`. For `str` patterns the regular-expression class `\s` matches
      exactly these characters, and `str.strip()` / `str.split()` without arguments use them too. */
  predicate IsSpace(c: char) {
    || c == ' '
    || ('\t' <= c <= '\r')            // tab, line feed, vertical tab, form feed, carriage return
    || ('\U{1C}' <= c <= '\U{1F}')    // the four information separators
    || c == '\U{85}' || c == '\U{A0}' || c == '\U{1680}'
    || ('\U{2000}' <= c <= '\U{200A}')
    || c == '\U{2028}' || c == '\U{2029}' || c == '\U{202F}' || c == '\U{205F}' || c == '\U{3000}'
  }

  /** The no-break space U+00A0 (written `"\xa0"` in Python). */
  const Nbsp: char := '\U{A0}'

  predicate IsDigit(c: char) {
    '0' <= c <= '9'
  }

  predicate AllDigits(s: string) {
    forall i :: 0 <= i < |s| ==> IsDigit(s[i])
  }

  predicate AllSpace(s: string) {
    forall i :: 0 <= i < |s| ==> IsSpace(s[i])
  }

  predicate NoSpace(s: string) {
    forall i :: 0 <= i < |s| ==> !IsSpace(s[i])
  }

  function DigitValue(c: char): nat
    requires IsDigit(c)
  {
    c as int - '0' as int
  }

  function DigitChar(d: nat): (c: char)
    requires d < 10
    ensures IsDigit(c) && DigitValue(c) == d
  {
    ('0' as int + d) as char
  }

  /** The number a run of decimal digits denotes, most significant digit first; "" denotes 0. */
  function DigitsValue(s: string): nat
    requires AllDigits(s)
    decreases |s|
  {
    if s == [] then 0 else 10 * DigitsValue(s[..|s| - 1]) + DigitValue(s[|s| - 1])
  }

  function Pow10(n: nat): (p: nat)
    ensures p >= 1
  {
    if n == 0 then 1 else 10 * Pow10(n - 1)
  }

  /** `str(n)` for a non-negative integer: its shortest decimal spelling. */
  function NatToString(n: nat): (s: string)
    ensures s != [] && AllDigits(s)
    ensures DigitsValue(s) == n
    ensures |s| > 1 ==> s[0] != '0'
  {
    if n < 10 then [DigitChar(n)]
    else
      var t := NatToString(n / 10);
      var s := t + [DigitChar(n % 10)];
      assert s[..|s| - 1] == t;
      s
  }

  /** `str(n)` for any integer: a minus sign exactly for negative `n`, then the shortest
      decimal spelling of its magnitude. */
  function IntToString(n: int): (s: string)
    ensures s != [] && (s[0] == '-' <==> n < 0)
    ensures n < 0 ==> AllDigits(s[1..]) && DigitsValue(s[1..]) == -n && (|s| > 2 ==> s[1] != '0')
    ensures 0 <= n ==> AllDigits(s) && DigitsValue(s) == n && (|s| > 1 ==> s[0] != '0')
  {
    if n < 0 then
      var t := NatToString(-n);
      assert ("-" + t)[1..] == t;
      "-" + t
    else NatToString(n)
  }

  /** End of the run of digits that starts at `i`: the first index at or after `i` holding a
      non-digit, or `|s|`. */
  function DigitRunEnd(s: string, i: nat): (j: nat)
    requires i <= |s|
    ensures i <= j <= |s|
    ensures AllDigits(s[i..j])
    ensures j == |s| || !IsDigit(s[j])
    decreases |s| - i
  {
    if i == |s| || !IsDigit(s[i]) then i else DigitRunEnd(s, i + 1)
  }

  /** A digit run is determined by where it starts. */
  lemma DigitRunEndUnique(s: string, i: nat, k: nat)
    requires i <= k <= |s|
    requires AllDigits(s[i..k])
    requires k == |s| || !IsDigit(s[k])
    ensures DigitRunEnd(s, i) == k
  {
    var j := DigitRunEnd(s, i);
    if j < k {
      assert false;
    } else if k < j {
      assert false;
    }
  }

  /** Number of whitespace characters at the start of `s`. */
  function LeadingSpaces(s: string): (k: nat)
    ensures k <= |s|
    ensures AllSpace(s[..k])
    ensures k == |s| || !IsSpace(s[k])
  {
    if s == [] || !IsSpace(s[0]) then 0
    else
      var k := 1 + LeadingSpaces(s[1..]);
      assert s[..k] == [s[0]] + s[1..][..k - 1];
      k
  }

  /** Number of whitespace characters at the end of `s`. */
  function TrailingSpaces(s: string): (k: nat)
    ensures k <= |s|
    ensures AllSpace(s[|s| - k..])
    ensures k == |s| || !IsSpace(s[|s| - k - 1])
  {
    if s == [] || !IsSpace(s[|s| - 1]) then 0
    else
      var t := s[..|s| - 1];
      var k := 1 + TrailingSpaces(t);
      assert s[|s| - k..] == t[|t| - (k - 1)..] + [s[|s| - 1]];
      k
  }

  /** Python's `str.strip()` without arguments: `r` is `s` once a whitespace-only prefix
      (of length `LeadingSpaces(s)`) and a whitespace-only suffix are removed, and `r`
      neither starts nor ends with whitespace. */
  function Strip(s: string): (r: string)
    ensures LeadingSpaces(s) + |r| <= |s|
    ensures s[LeadingSpaces(s)..LeadingSpaces(s) + |r|] == r
    ensures AllSpace(s[..LeadingSpaces(s)]) && AllSpace(s[LeadingSpaces(s) + |r|..])
    ensures r == [] || (!IsSpace(r[0]) && !IsSpace(r[|r| - 1]))
  {
    var a := LeadingSpaces(s);
    var t := s[a..];
    var b := TrailingSpaces(t);
    var r := t[..|t| - b];
    assert s[a..a + |r|] == r;
    assert s[a + |r|..] == t[|t| - b..];
    assert r != [] ==> r[0] == s[a] && r[|r| - 1] == t[|t| - b - 1];
    r
  }

  /** A string with non-whitespace characters at both ends is its own strip. */
  lemma StripNoop(s: string)
    requires s == [] || (!IsSpace(s[0]) && !IsSpace(s[|s| - 1]))
    ensures Strip(s) == s
  {
    var r := Strip(s);
    var i := LeadingSpaces(s);
    assert i == 0;
    if |r| < |s| {
      assert false;
    }
  }

  /** When `h` starts with a non-whitespace character and `x[q]` is not whitespace, `strip()`
      of `h + x` keeps `h` whole and cuts `x` somewhere after `q`. */
  lemma StripAfterHead(h: string, x: string, q: nat) returns (m: nat)
    requires h != [] && !IsSpace(h[0])
    requires q < |x| && !IsSpace(x[q])
    ensures q < m <= |x|
    ensures Strip(h + x) == h + x[..m]
  {
    var s := h + x;
    var r := Strip(s);
    assert s[0] == h[0];
    assert LeadingSpaces(s) == 0;
    assert s[|h| + q] == x[q];
    assert |h| + q < |r|;
    m := |r| - |h|;
    assert r == s[..|h| + m] == h + x[..m];
  }

  /** Stripping leaves nothing exactly when the string is all whitespace. */
  lemma StripEmptyIff(s: string)
    ensures Strip(s) == [] <==> AllSpace(s)
  {
    var r := Strip(s);
    var i := LeadingSpaces(s);
    if r == [] {
      assert s[..i] == s;
    } else {
      assert s[i] == r[0];
    }
  }

  /** The length of the run of non-whitespace characters at the start of `s`. */
  function WordLength(s: string): (n: nat)
    ensures n <= |s|
    ensures NoSpace(s[..n])
    ensures n == |s| || IsSpace(s[n])
  {
    if s == [] || IsSpace(s[0]) then 0
    else
      var n := 1 + WordLength(s[1..]);
      assert s[..n] == [s[0]] + s[1..][..n - 1];
      n
  }

  /** Python's `str.split()` without arguments: the maximal runs of non-whitespace
      characters, in order. */
  function Words(s: string): (ws: seq<string>)
    ensures ws == [] <==> AllSpace(s)
    decreases |s|
  {
    if s == [] then []
    else if IsSpace(s[0]) then
      assert forall i :: 1 <= i < |s| ==> s[1..][i - 1] == s[i];
      Words(s[1..])
    else
      var n := WordLength(s);
      [s[..n]] + Words(s[n..])
  }

  /** Every word is a non-empty run of non-whitespace characters. */
  lemma {:induction false} WordsAreWords(s: string)
    ensures forall w :: w in Words(s) ==> w != [] && NoSpace(w)
    decreases |s|
  {
    if s == [] {
    } else if IsSpace(s[0]) {
      WordsAreWords(s[1..]);
    } else {
      WordsAreWords(s[WordLength(s)..]);
    }
  }

  /** The word at the start of `x` ends inside `x` even when something is appended, provided
      the appended text starts with whitespace. */
  lemma WordLengthAppend(x: string, y: string)
    requires y != [] && IsSpace(y[0])
    ensures WordLength(x + y) == WordLength(x)
  {
    if x == [] || IsSpace(x[0]) {
    } else {
      assert (x + y)[1..] == x[1..] + y;
      WordLengthAppend(x[1..], y);
    }
  }

  /** A space separates words: `(x + " " + y).split() == x.split() + y.split()`. */
  lemma {:induction false} WordsAroundSpace(x: string, y: string)
    ensures Words(x + " " + y) == Words(x) + Words(y)
    decreases |x|
  {
    var s := x + " " + y;
    if x == [] {
      assert s[1..] == y;
    } else if IsSpace(x[0]) {
      assert s[1..] == x[1..] + " " + y;
      WordsAroundSpace(x[1..], y);
    } else {
      WordLengthAppend(x, " " + y);
      assert s == x + (" " + y);
      var n := WordLength(x);
      assert s[..n] == x[..n];
      assert s[n..] == x[n..] + " " + y;
      WordsAroundSpace(x[n..], y);
    }
  }

  /** Leading whitespace contributes no word. */
  lemma {:induction false} WordsSkipSpaces(s: string, k: nat)
    requires k <= |s| && AllSpace(s[..k])
    ensures Words(s) == Words(s[k..])
    decreases k
  {
    if k > 0 {
      assert IsSpace(s[..k][0]);
      assert s[1..][..k - 1] == s[1..k];
      assert s[1..][k - 1..] == s[k..];
      WordsSkipSpaces(s[1..], k - 1);
    }
  }

  /** Trailing whitespace contributes no word either. */
  lemma {:induction false} WordsAppendSpaces(x: string, y: string)
    requires AllSpace(y)
    ensures Words(x + y) == Words(x)
    decreases |x|
  {
    if x == [] {
      assert x + y == y;
      assert y[..|y|] == y;
      WordsSkipSpaces(y, |y|);
    } else if IsSpace(x[0]) {
      assert (x + y)[1..] == x[1..] + y;
      WordsAppendSpaces(x[1..], y);
    } else if y == [] {
      assert x + y == x;
    } else {
      WordLengthAppend(x, y);
      var n := WordLength(x);
      assert (x + y)[..n] == x[..n];
      assert (x + y)[n..] == x[n..] + y;
      WordsAppendSpaces(x[n..], y);
    }
  }

  /** `strip()` keeps the words of `split()`. */
  lemma StripKeepsWords(s: string)
    ensures Words(Strip(s)) == Words(s)
  {
    var r := Strip(s);
    var i := LeadingSpaces(s);
    var t := s[i + |r|..];
    assert s[i..] == r + t;
    WordsSkipSpaces(s, i);
    WordsAppendSpaces(r, t);
  }

  /** A non-whitespace character put in front either starts a word of its own or joins the
      first word, according to what follows it. */
  lemma WordsCons(c: char, u: string)
    requires !IsSpace(c)
    ensures u == [] || IsSpace(u[0]) ==> Words([c] + u) == [[c]] + Words(u)
    ensures u != [] && !IsSpace(u[0]) ==>
              Words(u) != [] && Words([c] + u) == [[c] + Words(u)[0]] + Words(u)[1..]
  {
    var s := [c] + u;
    assert s[0] == c && s[1..] == u;
    var m := WordLength(u);
    assert WordLength(s) == 1 + m;
    assert s[..1 + m] == [c] + u[..m];
    assert s[1 + m..] == u[m..];
  }

  /** `" ".join(parts)`. */
  function JoinSpace(parts: seq<string>): (r: string)
    ensures parts == [] ==> r == []
    ensures parts != [] ==> |r| == TotalLength(parts) + |parts| - 1
  {
    if parts == [] then []
    else if |parts| == 1 then parts[0]
    else parts[0] + " " + JoinSpace(parts[1..])
  }

  /** Total number of characters over a list of texts. */
  function TotalLength(parts: seq<string>): nat {
    if parts == [] then 0 else |parts[0]| + TotalLength(parts[1..])
  }

  /** A single word splits to itself. */
  lemma {:induction false} WordsOfWord(w: string)
    requires w != [] && NoSpace(w)
    ensures Words(w) == [w]
  {
    assert w[..|w|] == w && w[|w|..] == [];
  }

  /** Splitting undoes joining: `" ".join(ws).split() == ws` when every `ws[k]` is a
      non-empty run of non-whitespace characters. */
  lemma {:induction false} SplitOfJoin(ws: seq<string>)
    requires forall k :: 0 <= k < |ws| ==> ws[k] != [] && NoSpace(ws[k])
    ensures Words(JoinSpace(ws)) == ws
  {
    if |ws| == 1 {
      WordsOfWord(ws[0]);
    } else if |ws| > 1 {
      WordsOfWord(ws[0]);
      WordsAroundSpace(ws[0], JoinSpace(ws[1..]));
      SplitOfJoin(ws[1..]);
      assert ws == [ws[0]] + ws[1..];
    }
  }

  /** Total number of words over a list of texts. */
  function WordCountSum(parts: seq<string>): nat {
    if parts == [] then 0 else |Words(parts[0])| + WordCountSum(parts[1..])
  }

  /** Joining with single spaces neither merges nor splits words: the word count of
      `" ".join(parts)` is the sum of the parts' word counts. */
  lemma {:induction false} WordCountOfJoin(parts: seq<string>)
    ensures |Words(JoinSpace(parts))| == WordCountSum(parts)
  {
    if |parts| > 1 {
      WordsAroundSpace(parts[0], JoinSpace(parts[1..]));
      WordCountOfJoin(parts[1..]);
    } else if |parts| == 1 {
      assert parts[1..] == [];
    }
  }

  predicate StartsWith(s: string, prefix: string) {
    |prefix| <= |s| && s[..|prefix|] == prefix
  }

  predicate OccursAt(s: string, pat: string, i: nat) {
    i + |pat| <= |s| && s[i..i + |pat|] == pat
  }

  /** `s.find(pat, i)`: the first position at or after `i` where `pat` occurs. */
  function FindFrom(s: string, pat: string, i: nat): (r: Option<nat>)
    requires i <= |s|
    ensures r.Some? ==> i <= r.value && OccursAt(s, pat, r.value)
    ensures r.Some? ==> forall j :: i <= j < r.value ==> !OccursAt(s, pat, j)
    ensures r.None? ==> forall j :: i <= j ==> !OccursAt(s, pat, j)
    decreases |s| - i
  {
    if OccursAt(s, pat, i) then Some(i)
    else if i == |s| then None
    else FindFrom(s, pat, i + 1)
  }

  /** `s.split(sep)[0]`: everything before the first occurrence of `sep`, or all of `s`. */
  function BeforeFirst(s: string, sep: string): (r: string)
    requires sep != []
    ensures StartsWith(s, r)
    ensures forall j :: 0 <= j < |r| ==> !OccursAt(s, sep, j)
    ensures r == s || OccursAt(s, sep, |r|)
  {
    match FindFrom(s, sep, 0)
    case Some(i) => s[..i]
    case None => s
  }

  lemma OccursAtHead(s: string, pat: string, i: nat)
    requires pat != [] && OccursAt(s, pat, i)
    ensures s[i] == pat[0]
  {
    assert s[i..i + |pat|][0] == s[i];
  }

  /** The first occurrence of `sep` is at `i` when `sep` sits at `i` and its first character
      appears nowhere before `i`. */
  lemma BeforeFirstAt(s: string, sep: string, i: nat)
    requires sep != [] && OccursAt(s, sep, i)
    requires forall j :: 0 <= j < i ==> s[j] != sep[0]
    ensures BeforeFirst(s, sep) == s[..i]
  {
    forall j | 0 <= j < i
      ensures !OccursAt(s, sep, j)
    {
      if OccursAt(s, sep, j) {
        OccursAtHead(s, sep, j);
      }
    }
  }

  /** `s.replace(a, b)` for single characters. */
  function ReplaceChar(s: string, a: char, b: char): (r: string)
    ensures |r| == |s|
    ensures forall i :: 0 <= i < |s| ==> r[i] == (if s[i] == a then b else s[i])
  {
    seq(|s|, i requires 0 <= i < |s| => if s[i] == a then b else s[i])
  }

  /** Replacing works character by character, so it distributes over concatenation. */
  lemma ReplaceConcat(u: string, v: string, a: char, b: char)
    ensures ReplaceChar(u + v, a, b) == ReplaceChar(u, a, b) + ReplaceChar(v, a, b)
  {
  }

  /** Replacing a character that does not occur changes nothing. */
  lemma ReplaceAbsent(s: string, a: char, b: char)
    requires forall i :: 0 <= i < |s| ==> s[i] != a
    ensures ReplaceChar(s, a, b) == s
  {
  }
}
