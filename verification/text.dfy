/**
 The two string operations the ingestion pipeline applies to scraped text:
 Python's `str.strip()` (no argument: strip whitespace at both ends) and
 `str.lower()`, used to case-fold the deduplication key.
 */
module Text {

  /** Python's `str.isspace()` for one character: the characters `strip()`
      removes when called without an argument. */
  predicate IsSpace(c: char) {
    || ('\t' <= c <= '\r')                  // tab, line feed, vertical tab, form feed, carriage return
    || ('\U{1C}' <= c <= '\U{1F}')          // file, group, record and unit separators
    || c == ' '
    || c == '\U{85}'                        // next line
    || c == '\U{A0}'                        // no-break space
    || c == '\U{1680}'
    || ('\U{2000}' <= c <= '\U{200A}')
    || c == '\U{2028}' || c == '\U{2029}'
    || c == '\U{202F}' || c == '\U{205F}' || c == '\U{3000}'
  }

  /** Every character of `s` is whitespace. */
  predicate AllSpace(s: string) {
    forall i :: 0 <= i < |s| ==> IsSpace(s[i])
  }

  /** `s` neither begins nor ends with whitespace. */
  predicate NotPadded(s: string) {
    |s| == 0 || (!IsSpace(s[0]) && !IsSpace(s[|s| - 1]))
  }

  /** Two whitespace runs make one. */
  lemma AllSpaceAppend(a: string, b: string)
    requires AllSpace(a) && AllSpace(b)
    ensures AllSpace(a + b)
  {
    forall i | 0 <= i < |a + b| ensures IsSpace((a + b)[i]) {
      if i < |a| { assert (a + b)[i] == a[i]; } else { assert (a + b)[i] == b[i - |a|]; }
    }
  }

  /** The number of whitespace characters `s` begins with. */
  function LeadingSpace(s: string): (k: nat)
    ensures k <= |s| && AllSpace(s[..k])
    ensures k < |s| ==> !IsSpace(s[k])
    decreases |s|
  {
    if |s| > 0 && IsSpace(s[0]) then
      var rest := s[1..];
      var j := LeadingSpace(rest);
      assert s[..j + 1] == [s[0]] + rest[..j];
      AllSpaceAppend([s[0]], rest[..j]);
      assert j + 1 < |s| ==> s[j + 1] == rest[j];
      j + 1
    else 0
  }

  /** The number of whitespace characters `s` ends with. */
  function TrailingSpace(s: string): (k: nat)
    ensures k <= |s| && AllSpace(s[|s| - k..])
    ensures k < |s| ==> !IsSpace(s[|s| - k - 1])
    decreases |s|
  {
    if |s| > 0 && IsSpace(s[|s| - 1]) then
      var j := TrailingSpace(s[..|s| - 1]);
      TrailingSpaceStep(s, j);
      j + 1
    else 0
  }

  /** One more whitespace character at the end extends the trailing run by
      one. */
  lemma TrailingSpaceStep(s: string, j: nat)
    requires |s| > 0 && IsSpace(s[|s| - 1])
    requires j <= |s| - 1 && AllSpace(s[..|s| - 1][|s| - 1 - j..])
    requires j < |s| - 1 ==> !IsSpace(s[..|s| - 1][|s| - 1 - j - 1])
    ensures AllSpace(s[|s| - (j + 1)..])
    ensures j + 1 < |s| ==> !IsSpace(s[|s| - (j + 1) - 1])
  {
    var init := s[..|s| - 1];
    assert s[|s| - (j + 1)..] == init[|init| - j..] + [s[|s| - 1]];
    AllSpaceAppend(init[|init| - j..], [s[|s| - 1]]);
  }

  /** Drops the leading whitespace of `s` (Python's `lstrip()`). */
  function TrimStart(s: string): (r: string)
    ensures |r| <= |s| && r == s[|s| - |r|..]
    ensures AllSpace(s[..|s| - |r|])
    ensures |r| > 0 ==> !IsSpace(r[0])
  {
    s[LeadingSpace(s)..]
  }

  /** Drops the trailing whitespace of `s` (Python's `rstrip()`). */
  function TrimEnd(s: string): (r: string)
    ensures |r| <= |s| && r == s[..|r|]
    ensures AllSpace(s[|r|..])
    ensures |r| > 0 ==> !IsSpace(r[|r| - 1])
  {
    s[..|s| - TrailingSpace(s)]
  }

  /** Python's `s.strip()`: the result is the infix of `s` left after removing
      whitespace at both ends, and it is not padded itself. */
  function Strip(s: string): (r: string)
    ensures NotPadded(r)
    ensures exists lo, hi :: 0 <= lo <= hi <= |s| && r == s[lo..hi] && AllSpace(s[..lo]) && AllSpace(s[hi..])
  {
    var t := TrimStart(s);
    var r := TrimEnd(t);
    var lo := |s| - |t|;
    var hi := lo + |r|;
    assert r == s[lo..hi];
    assert s[hi..] == t[|r|..];
    r
  }

  /** Stripping a whitespace prefix stops exactly where `u` begins, when `u`
      does not itself begin with whitespace. */
  lemma TrimStartPrefix(a: string, u: string)
    requires AllSpace(a)
    requires |u| == 0 || !IsSpace(u[0])
    ensures TrimStart(a + u) == u
  {
    var x := a + u;
    var k := LeadingSpace(x);
    assert x[|a|..] == u;
  }

  /** Stripping a whitespace suffix stops exactly where `u` ends, when `u`
      does not itself end with whitespace. */
  lemma TrimEndSuffix(u: string, b: string)
    requires AllSpace(b)
    requires |u| == 0 || !IsSpace(u[|u| - 1])
    ensures TrimEnd(u + b) == u
  {
    var x := u + b;
    var k := TrailingSpace(x);
    assert x[..|u|] == u;
  }

  /** `strip()` is characterised by its result: whenever `s` is a whitespace
      run, an unpadded text and another whitespace run, `strip()` returns
      exactly that text. */
  lemma StripUnique(a: string, t: string, b: string)
    requires AllSpace(a) && AllSpace(b) && NotPadded(t)
    ensures Strip(a + t + b) == t
  {
    if |t| == 0 {
      assert a + t + b == a + b;
      AllSpaceAppend(a, b);
      assert a + b == (a + b) + "";
      TrimStartPrefix(a + b, "");
      assert TrimStart(a + b) == "";
    } else {
      assert a + t + b == a + (t + b);
      assert (t + b)[0] == t[0];
      TrimStartPrefix(a, t + b);
      TrimEndSuffix(t, b);
    }
  }

  /** Text that is not padded is left alone by `strip()`. */
  lemma StripUnpadded(t: string)
    requires NotPadded(t)
    ensures Strip(t) == t
  {
    assert t == "" + t + "";
    StripUnique("", t, "");
  }

  /** `strip()` is idempotent. */
  lemma StripIdempotent(s: string)
    ensures Strip(Strip(s)) == Strip(s)
  {
    StripUnpadded(Strip(s));
  }

  /** `c` is an upper-case ASCII letter. */
  predicate IsUpper(c: char) {
    'A' <= c <= 'Z'
  }

  /** Python's `str.lower()` on one character, restricted to ASCII letters. */
  function LowerChar(c: char): char {
    if IsUpper(c) then (c as int + 32) as char else c
  }

  /** Python's `str.lower()`, restricted to ASCII letters: the same length, no
      upper-case ASCII letter left, and every character either kept or
      replaced by its lower-case counterpart 32 code points above. */
  function Lower(s: string): (r: string)
    ensures |r| == |s|
    ensures forall i :: 0 <= i < |r| ==> !IsUpper(r[i])
    ensures forall i :: 0 <= i < |r| ==> r[i] == s[i] || (IsUpper(s[i]) && r[i] as int == s[i] as int + 32)
  {
    seq(|s|, i requires 0 <= i < |s| => LowerChar(s[i]))
  }

  /** `s` and `t` are the same text up to ASCII letter case: at each position
      the characters are equal, or one is an upper-case letter and the other
      its lower-case counterpart 32 code points above. */
  predicate SameIgnoringCase(s: string, t: string) {
    |s| == |t| &&
    forall i :: 0 <= i < |s| ==>
      || s[i] == t[i]
      || (IsUpper(s[i]) && t[i] as int == s[i] as int + 32)
      || (IsUpper(t[i]) && s[i] as int == t[i] as int + 32)
  }

  /** Two strings fold to the same string exactly when they are the same text
      up to ASCII letter case. */
  lemma LowerEqIff(s: string, t: string)
    ensures Lower(s) == Lower(t) <==> SameIgnoringCase(s, t)
  {
    if Lower(s) == Lower(t) {
      assert forall i :: 0 <= i < |s| ==> Lower(s)[i] == Lower(t)[i];
    }
    if SameIgnoringCase(s, t) {
      assert forall i :: 0 <= i < |s| ==> Lower(s)[i] == Lower(t)[i];
    }
  }

  /** Case-folding twice is case-folding once. */
  lemma LowerIdempotent(s: string)
    ensures Lower(Lower(s)) == Lower(s)
  {
    assert forall i :: 0 <= i < |s| ==> Lower(Lower(s))[i] == Lower(s)[i];
  }
}
