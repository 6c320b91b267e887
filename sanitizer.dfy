/**
  The text sanitiser `clean`: delete every straight and curly double quote,
  then strip leading and trailing whitespace.
 */
module Sanitizer {
  import opened Strings

  /**
    The characters Python's `str.strip()` removes when called without
    arguments: exactly the code points for which `str.isspace()` holds.
   */
  predicate IsWhitespace(c: char)
  {
    || ('\t' <= c <= '\r')
    || ('\U{001C}' <= c <= '\U{001F}')
    || c == ' '
    || c == '\U{0085}'
    || c == '\U{00A0}'
    || c == '\U{1680}'
    || ('\U{2000}' <= c <= '\U{200A}')
    || c == '\U{2028}'
    || c == '\U{2029}'
    || c == '\U{202F}'
    || c == '\U{205F}'
    || c == '\U{3000}'
  }

  const StraightQuote: char := '"'
  const OpeningQuote: char := '\U{201C}'
  const ClosingQuote: char := '\U{201D}'

  predicate IsQuote(c: char)
  {
    c == StraightQuote || c == OpeningQuote || c == ClosingQuote
  }

  predicate QuoteFree(s: string)
  {
    forall k | 0 <= k < |s| :: !IsQuote(s[k])
  }

  predicate AllWhitespace(s: string)
  {
    forall k | 0 <= k < |s| :: IsWhitespace(s[k])
  }

  /** Neither the first nor the last character is whitespace. */
  predicate Trimmed(s: string)
  {
    s == [] || (!IsWhitespace(s[0]) && !IsWhitespace(s[|s| - 1]))
  }

  /** `r` sits in `s` at index `i` with nothing but whitespace on either side. */
  predicate WhitespaceBordered(s: string, r: string, i: nat)
  {
    && i + |r| <= |s|
    && s[i..i + |r|] == r
    && AllWhitespace(s[..i])
    && AllWhitespace(s[i + |r|..])
  }

  /** Python's `s.replace(c, "")` for a one-character `c`: every occurrence of `c` is deleted. */
  function RemoveChar(s: string, c: char): string
  {
    if s == [] then []
    else (if s[0] == c then [] else [s[0]]) + RemoveChar(s[1..], c)
  }

  /** The chain `.replace('"', '').replace('“', '').replace('”', '')`. */
  function RemoveQuotes(s: string): string
  {
    RemoveChar(RemoveChar(RemoveChar(s, StraightQuote), OpeningQuote), ClosingQuote)
  }

  /** Python's `s.lstrip()`. */
  function TrimStart(s: string): (r: string)
    ensures |r| <= |s|
  {
    if s != [] && IsWhitespace(s[0]) then TrimStart(s[1..]) else s
  }

  /** Python's `s.rstrip()`. */
  function TrimEnd(s: string): (r: string)
    ensures |r| <= |s|
  {
    if s != [] && IsWhitespace(s[|s| - 1]) then TrimEnd(s[..|s| - 1]) else s
  }

  /** Python's `s.strip()`. */
  function Strip(s: string): string
  {
    TrimEnd(TrimStart(s))
  }

  /** `clean(text)` at main.py:44-45. */
  function Clean(s: string): (r: string)
    ensures QuoteFree(r)
    ensures Trimmed(r)
  {
    var q := RemoveQuotes(s);
    assert QuoteFree(q) by { RemoveQuotesCounts(s); }
    assert QuoteFree(Strip(q)) && Trimmed(Strip(q)) by {
      StripIsBordered(q);
      var i := |q| - |TrimStart(q)|;
      assert forall k | 0 <= k < |Strip(q)| :: Strip(q)[k] == q[i + k];
    }
    Strip(q)
  }

  // ---------------------------------------------------------------------------
  // Removing characters

  /** Every occurrence of `c` goes and every other character keeps its count. */
  lemma {:induction false} RemoveCharCounts(s: string, c: char)
    ensures multiset(RemoveChar(s, c)) == multiset(s)[c := 0]
  {
    if s != [] {
      RemoveCharCounts(s[1..], c);
      assert s == [s[0]] + s[1..];
    }
  }

  /** After the three replacements no quote is left and every other character keeps its count. */
  lemma RemoveQuotesCounts(s: string)
    ensures QuoteFree(RemoveQuotes(s))
    ensures multiset(RemoveQuotes(s)) == multiset(s)[StraightQuote := 0][OpeningQuote := 0][ClosingQuote := 0]
  {
    var s1 := RemoveChar(s, StraightQuote);
    var s2 := RemoveChar(s1, OpeningQuote);
    var r := RemoveChar(s2, ClosingQuote);
    RemoveCharCounts(s, StraightQuote);
    RemoveCharCounts(s1, OpeningQuote);
    RemoveCharCounts(s2, ClosingQuote);
    assert forall k | 0 <= k < |r| :: r[k] in multiset(r);
  }

  /** Removing a character keeps the order of the remaining ones. */
  lemma {:induction false} RemoveCharIsSubsequence(s: string, c: char)
    ensures IsSubsequence(RemoveChar(s, c), s)
  {
    if s != [] {
      RemoveCharIsSubsequence(s[1..], c);
      var rest := RemoveChar(s[1..], c);
      if s[0] == c {
        assert RemoveChar(s, c) == rest;
        assert IsSubsequence(rest, s);
      } else {
        assert ([s[0]] + rest)[1..] == rest;
      }
    }
  }

  /** Removing a character that does not occur changes nothing. */
  lemma {:induction false} RemoveAbsentChar(s: string, c: char)
    requires c !in s
    ensures RemoveChar(s, c) == s
  {
    if s != [] {
      assert c !in s[1..];
      RemoveAbsentChar(s[1..], c);
      assert s == [s[0]] + s[1..];
    }
  }

  lemma RemoveQuotesOfQuoteFree(s: string)
    requires QuoteFree(s)
    ensures RemoveQuotes(s) == s
  {
    RemoveAbsentChar(s, StraightQuote);
    RemoveAbsentChar(s, OpeningQuote);
    RemoveAbsentChar(s, ClosingQuote);
  }

  lemma RemoveQuotesIsSubsequence(s: string)
    ensures IsSubsequence(RemoveQuotes(s), s)
  {
    var s1 := RemoveChar(s, StraightQuote);
    var s2 := RemoveChar(s1, OpeningQuote);
    RemoveCharIsSubsequence(s, StraightQuote);
    RemoveCharIsSubsequence(s1, OpeningQuote);
    RemoveCharIsSubsequence(s2, ClosingQuote);
    SubsequenceTransitive(s2, s1, s);
    SubsequenceTransitive(RemoveQuotes(s), s2, s);
  }

  // ---------------------------------------------------------------------------
  // Stripping

  /** `s.lstrip()` cuts a run of whitespace off the front of `s`, up to a non-whitespace character or the end. */
  lemma {:induction false} TrimStartSpec(s: string)
    ensures var r := TrimStart(s);
      && |r| <= |s| && r == s[|s| - |r|..]
      && AllWhitespace(s[..|s| - |r|])
      && (r == [] || !IsWhitespace(r[0]))
  {
    if s != [] && IsWhitespace(s[0]) {
      TrimStartSpec(s[1..]);
      var r := TrimStart(s[1..]);
      assert s[..|s| - |r|] == [s[0]] + s[1..][..|s[1..]| - |r|];
      AllWhitespaceAppend([s[0]], s[1..][..|s[1..]| - |r|]);
      assert s[1..][|s[1..]| - |r|..] == s[|s| - |r|..];
    }
  }

  /** `s.rstrip()` cuts a run of whitespace off the back of `s`, down to a non-whitespace character or the start. */
  lemma {:induction false} TrimEndSpec(s: string)
    ensures var r := TrimEnd(s);
      && |r| <= |s| && r == s[..|r|]
      && AllWhitespace(s[|r|..])
      && (r == [] || !IsWhitespace(r[|r| - 1]))
  {
    if s != [] && IsWhitespace(s[|s| - 1]) {
      TrimEndSpec(s[..|s| - 1]);
      var r := TrimEnd(s[..|s| - 1]);
      assert s[|r|..] == s[..|s| - 1][|r|..] + [s[|s| - 1]];
      AllWhitespaceAppend(s[..|s| - 1][|r|..], [s[|s| - 1]]);
      assert s[..|s| - 1][..|r|] == s[..|r|];
    }
  }

  /** `s.strip()` is a slice of `s` with only whitespace cut off either end. */
  lemma StripIsBordered(s: string)
    ensures Trimmed(Strip(s))
    ensures WhitespaceBordered(s, Strip(s), |s| - |TrimStart(s)|)
  {
    TrimStartSpec(s);
    TrimEndSpec(TrimStart(s));
    TrimmedInside(s, TrimStart(s), Strip(s));
  }

  /** Cutting whitespace off the front of `s`, giving `t`, then off the back of `t`, giving `r`, leaves `r` bordered in `s`. */
  lemma TrimmedInside(s: string, t: string, r: string)
    requires |t| <= |s| && t == s[|s| - |t|..] && AllWhitespace(s[..|s| - |t|])
    requires t == [] || !IsWhitespace(t[0])
    requires |r| <= |t| && r == t[..|r|] && AllWhitespace(t[|r|..])
    requires r == [] || !IsWhitespace(r[|r| - 1])
    ensures Trimmed(r) && WhitespaceBordered(s, r, |s| - |t|)
  {
    var i := |s| - |t|;
    SlicesOfSuffix(s, i, |r|);
    assert t[|r|..] == s[i + |r|..];
    if r != [] {
      assert r[0] == t[0];
    }
  }

  lemma AllWhitespaceAppend(a: string, b: string)
    requires AllWhitespace(a) && AllWhitespace(b)
    ensures AllWhitespace(a + b)
  {
    assert forall k | 0 <= k < |a + b| :: (a + b)[k] == if k < |a| then a[k] else b[k - |a|];
  }

  lemma AllWhitespaceSuffix(s: string, j: nat)
    requires j <= |s| && AllWhitespace(s)
    ensures AllWhitespace(s[j..])
  {
    assert forall k | 0 <= k < |s| - j :: s[j..][k] == s[j + k];
  }

  lemma StripIsSubsequence(s: string)
    ensures IsSubsequence(Strip(s), s)
  {
    var i := |s| - |TrimStart(s)|;
    StripIsBordered(s);
    SliceIsSubsequence(s, i, i + |Strip(s)|);
  }

  /** A string of whitespace strips to nothing. */
  lemma {:induction false} StripAllWhitespace(s: string)
    requires AllWhitespace(s)
    ensures Strip(s) == []
  {
    if s != [] {
      assert AllWhitespace(s[1..]);
      StripAllWhitespace(s[1..]);
    }
  }

  lemma {:induction false} TrimStartFrom(s: string, i: nat)
    requires i < |s| && AllWhitespace(s[..i]) && !IsWhitespace(s[i])
    ensures TrimStart(s) == s[i..]
  {
    if i > 0 {
      assert IsWhitespace(s[0]) by {
        assert s[..i][0] == s[0];
      }
      var s' := s[1..];
      assert s'[..i - 1] == s[..i][1..];
      AllWhitespaceSuffix(s[..i], 1);
      assert s'[i - 1] == s[i];
      TrimStartFrom(s', i - 1);
      assert s'[i - 1..] == s[i..];
      assert TrimStart(s) == TrimStart(s');
    }
  }

  lemma {:induction false} TrimEndAt(s: string, j: nat)
    requires 0 < j <= |s| && AllWhitespace(s[j..]) && !IsWhitespace(s[j - 1])
    ensures TrimEnd(s) == s[..j]
    decreases |s|
  {
    if j < |s| {
      var s' := s[..|s| - 1];
      assert s'[j..] == s[j..|s| - 1];
      TrimEndAt(s', j);
      assert s'[..j] == s[..j];
    }
  }

  /**
    `s.strip()` is the only trimmed slice of `s` that has only whitespace
    around it: a reference characterisation independent of how it is computed.
   */
  lemma StripUnique(s: string, r: string, i: nat)
    requires Trimmed(r) && WhitespaceBordered(s, r, i)
    ensures Strip(s) == r
  {
    if r == [] {
      assert s == s[..i] + s[i..];
      StripAllWhitespace(s);
    } else {
      TrimStartFrom(s, i);
      var t := s[i..];
      assert t[|r|..] == s[i + |r|..];
      TrimEndAt(t, |r|);
    }
  }

  lemma StripOfTrimmed(s: string)
    requires Trimmed(s)
    ensures Strip(s) == s
  {
    StripUnique(s, s, 0);
  }

  /** `t.strip()` is empty exactly when `t` is all whitespace. */
  lemma StripEmptyIff(s: string)
    ensures Strip(s) == [] <==> AllWhitespace(s)
  {
    if AllWhitespace(s) {
      StripAllWhitespace(s);
    }
    StripIsBordered(s);
    if Strip(s) == [] {
      var i := |s| - |TrimStart(s)|;
      assert s == s[..i] + s[i..];
    }
  }

  // ---------------------------------------------------------------------------
  // Properties of clean

  /** Cleaning twice is the same as cleaning once. */
  lemma CleanIdempotent(s: string)
    ensures Clean(Clean(s)) == Clean(s)
  {
    RemoveQuotesOfQuoteFree(Clean(s));
    StripOfTrimmed(Clean(s));
  }

  /** The cleaned text is the input with characters deleted, so it is never longer. */
  lemma CleanIsSubsequence(s: string)
    ensures IsSubsequence(Clean(s), s)
    ensures |Clean(s)| <= |s|
  {
    var q := RemoveQuotes(s);
    assert Clean(s) == Strip(q);
    StripIsSubsequence(q);
    RemoveQuotesIsSubsequence(s);
    SubsequenceTransitive(Clean(s), q, s);
    SubsequenceLength(Clean(s), s);
  }

  /**
    What `clean` keeps: with the quotes deleted, the input is the result with
    only whitespace before and after it, and the result is the only trimmed
    text with that property.
   */
  lemma CleanCharacterisation(s: string, r: string, i: nat)
    ensures WhitespaceBordered(RemoveQuotes(s), Clean(s), |RemoveQuotes(s)| - |TrimStart(RemoveQuotes(s))|)
    ensures Trimmed(r) && WhitespaceBordered(RemoveQuotes(s), r, i) ==> r == Clean(s)
  {
    StripIsBordered(RemoveQuotes(s));
    if Trimmed(r) && WhitespaceBordered(RemoveQuotes(s), r, i) {
      StripUnique(RemoveQuotes(s), r, i);
    }
  }

  /** Text without quotes and without surrounding whitespace is left unchanged. */
  lemma CleanFixedPoints(s: string)
    ensures Clean(s) == s <==> QuoteFree(s) && Trimmed(s)
  {
    if QuoteFree(s) && Trimmed(s) {
      RemoveQuotesOfQuoteFree(s);
      StripOfTrimmed(s);
    }
  }
}
