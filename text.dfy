/** String helpers shared by the sanitisers, the URL guards and the text layout:
    JavaScript's notion of whitespace (`trim`, `\s`), prefix tests, ASCII case
    mapping (the `i` regex flag and `toLowerCase` on ASCII) and the leading
    `letters:` scheme test used by several regular expressions. */
module Text {

  /** The code points JavaScript counts as WhiteSpace or LineTerminator:
      what `String.prototype.trim` removes and what `\s` matches. */
  predicate IsSpace(c: char) {
    c == '\t' || c == '\n' || c == '\U{000B}' || c == '\U{000C}' || c == '\r' || c == ' '
    || c == '\U{00A0}' || c == '\U{1680}' || ('\U{2000}' <= c <= '\U{200A}')
    || c == '\U{2028}' || c == '\U{2029}' || c == '\U{202F}' || c == '\U{205F}'
    || c == '\U{3000}' || c == '\U{FEFF}'
  }

  predicate IsAsciiLetter(c: char) {
    ('a' <= c <= 'z') || ('A' <= c <= 'Z')
  }

  predicate IsDigit(c: char) {
    '0' <= c <= '9'
  }

  /** Every character of `s` satisfies `p`. */
  predicate Every(s: string, p: char -> bool) {
    forall i :: 0 <= i < |s| ==> p(s[i])
  }

  /** `s` has no whitespace at either end. */
  predicate IsTrimmed(s: string) {
    s == [] || (!IsSpace(s[0]) && !IsSpace(s[|s| - 1]))
  }

  function TrimStart(s: string): (r: string)
    ensures |r| <= |s| && r == s[|s| - |r|..]
    ensures r == [] || !IsSpace(r[0])
  {
    if s != [] && IsSpace(s[0]) then TrimStart(s[1..]) else s
  }

  function TrimEnd(s: string): (r: string)
    ensures |r| <= |s| && r == s[..|r|]
    ensures r == [] || !IsSpace(r[|r| - 1])
  {
    if s != [] && IsSpace(s[|s| - 1]) then TrimEnd(s[..|s| - 1]) else s
  }

  /** `TrimStart` removes only whitespace. */
  lemma {:induction false} TrimStartSpaces(s: string)
    ensures forall i :: 0 <= i < |s| - |TrimStart(s)| ==> IsSpace(s[i])
    decreases |s|
  {
    if s != [] && IsSpace(s[0]) {
      TrimStartSpaces(s[1..]);
      assert forall i :: 1 <= i < |s| ==> s[i] == s[1..][i - 1];
    }
  }

  /** `TrimEnd` removes only whitespace. */
  lemma {:induction false} TrimEndSpaces(s: string)
    ensures forall i :: |TrimEnd(s)| <= i < |s| ==> IsSpace(s[i])
    decreases |s|
  {
    if s != [] && IsSpace(s[|s| - 1]) {
      TrimEndSpaces(s[..|s| - 1]);
      assert forall i :: 0 <= i < |s| - 1 ==> s[i] == s[..|s| - 1][i];
    }
  }

  /** `String.prototype.trim`. */
  function Trim(s: string): (r: string)
    ensures IsTrimmed(r)
    ensures |r| <= |s|
  {
    TrimEnd(TrimStart(s))
  }

  /** Where the trimmed piece begins and ends in the input. */
  function TrimFrom(s: string): nat {
    |s| - |TrimStart(s)|
  }

  function TrimTo(s: string): nat {
    TrimFrom(s) + |Trim(s)|
  }

  lemma SliceOfSlice(s: string, a: nat, k: nat)
    requires a + k <= |s|
    ensures s[a..][..k] == s[a..a + k]
  {
  }

  /** Trimming leaves a contiguous piece of the input, and removes only whitespace. */
  lemma TrimIsSlice(s: string)
    ensures 0 <= TrimFrom(s) <= TrimTo(s) <= |s| && Trim(s) == s[TrimFrom(s)..TrimTo(s)]
  {
    SliceOfSlice(s, TrimFrom(s), |Trim(s)|);
  }

  /** Only whitespace is removed, from both ends. */
  lemma TrimRemovesSpaces(s: string)
    ensures TrimTo(s) <= |s|
    ensures forall i :: 0 <= i < TrimFrom(s) ==> IsSpace(s[i])
    ensures forall i :: TrimTo(s) <= i < |s| ==> IsSpace(s[i])
  {
    var t := TrimStart(s);
    TrimStartSpaces(s);
    TrimEndSpaces(t);
    forall i | TrimTo(s) <= i < |s| ensures IsSpace(s[i]) {
      assert s[i] == t[i - TrimFrom(s)];
    }
  }

  /** A property every input character has, every trimmed character has. */
  lemma TrimKeepsEvery(s: string, p: char -> bool)
    requires Every(s, p)
    ensures Every(Trim(s), p)
  {
    TrimIsSlice(s);
    forall i | 0 <= i < |Trim(s)| ensures p(Trim(s)[i]) {
      assert Trim(s)[i] == s[TrimFrom(s) + i];
    }
  }

  /** A trailing blank is removed by `TrimEnd` along with the rest. */
  lemma TrimEndSnocSpace(s: string, c: char)
    requires IsSpace(c)
    ensures TrimEnd(s + [c]) == TrimEnd(s)
  {
    assert (s + [c])[..|s|] == s;
  }

  lemma {:induction false} TrimStartOfTrimmed(s: string)
    requires s == [] || !IsSpace(s[0])
    ensures TrimStart(s) == s
  {
  }

  lemma {:induction false} TrimEndOfTrimmed(s: string)
    requires s == [] || !IsSpace(s[|s| - 1])
    ensures TrimEnd(s) == s
  {
  }

  /** `trim` changes nothing on a string that is already trimmed. */
  lemma TrimOfTrimmed(s: string)
    requires IsTrimmed(s)
    ensures Trim(s) == s
  {
    TrimStartOfTrimmed(s);
    TrimEndOfTrimmed(s);
  }

  /** `trim` is idempotent. */
  lemma TrimIdempotent(s: string)
    ensures Trim(Trim(s)) == Trim(s)
  {
    TrimOfTrimmed(Trim(s));
  }

  predicate StartsWith(s: string, prefix: string) {
    |prefix| <= |s| && s[..|prefix|] == prefix
  }

  /** `s` is `prefix` followed by `rest`. */
  predicate SplitsAs(s: string, prefix: string, rest: string) {
    StartsWith(s, prefix) && s[|prefix|..] == rest
  }

  lemma SplitIsConcat(s: string, prefix: string, rest: string)
    requires SplitsAs(s, prefix, rest)
    ensures s == prefix + rest
  {
    assert s == s[..|prefix|] + s[|prefix|..];
  }

  function LowerChar(c: char): char {
    if 'A' <= c <= 'Z' then (c as int + 32) as char else c
  }

  /** `toLowerCase` restricted to ASCII: upper-case ASCII letters become lower case. */
  function ToLowerAscii(s: string): (r: string)
    ensures |r| == |s|
    ensures forall i :: 0 <= i < |s| ==> r[i] == LowerChar(s[i])
    ensures HasNoUpperAscii(r)
  {
    if s == [] then [] else [LowerChar(s[0])] + ToLowerAscii(s[1..])
  }

  predicate NotUpperAscii(c: char) {
    !('A' <= c <= 'Z')
  }

  predicate HasNoUpperAscii(s: string) {
    Every(s, NotUpperAscii)
  }

  /** Lower-casing changes nothing on a string without upper-case ASCII letters. */
  lemma LowerOfLower(s: string)
    requires HasNoUpperAscii(s)
    ensures ToLowerAscii(s) == s
  {
  }

  /** A case-insensitive prefix test against a lower-case literal, as a regular
      expression with the `i` flag and no `u` flag performs it on ASCII text. */
  predicate StartsWithIgnoreCase(s: string, lowerPrefix: string) {
    |lowerPrefix| <= |s| && forall i :: 0 <= i < |lowerPrefix| ==> LowerChar(s[i]) == lowerPrefix[i]
  }

  /** `/^https?:\/\//i`: the string begins with an http:// or https:// scheme. */
  predicate HasHttpSlashes(s: string) {
    StartsWithIgnoreCase(s, "http://") || StartsWithIgnoreCase(s, "https://")
  }

  lemma PrefixOfConcat(p: string, u: string)
    ensures StartsWith(p + u, p) && (p + u)[|p|..] == u
  {
    assert (p + u)[..|p|] == p;
  }

  /** A lower-case prefix matches case-insensitively too. */
  lemma LowerPrefixMatches(p: string, u: string)
    requires HasNoUpperAscii(p)
    ensures StartsWithIgnoreCase(p + u, p) && (p + u)[|p|..] == u
  {
    PrefixOfConcat(p, u);
    assert forall i :: 0 <= i < |p| ==> (p + u)[i] == p[i];
  }

  /** The number of ASCII letters at the start of `s`. */
  function LeadingLetters(s: string): (n: nat)
    ensures n <= |s|
    ensures forall i :: 0 <= i < n ==> IsAsciiLetter(s[i])
    ensures n < |s| ==> !IsAsciiLetter(s[n])
  {
    if s != [] && IsAsciiLetter(s[0]) then 1 + LeadingLetters(s[1..]) else 0
  }

  /** The letter count is fixed by the first non-letter. */
  lemma {:induction false} LeadingLettersIs(s: string, n: nat)
    requires n < |s| && !IsAsciiLetter(s[n])
    requires forall i :: 0 <= i < n ==> IsAsciiLetter(s[i])
    ensures LeadingLetters(s) == n
    decreases n
  {
    if n > 0 {
      LeadingLettersIs(s[1..], n - 1);
    }
  }

  /** A string that starts with letters and a colon has that letter run as its scheme. */
  lemma SchemeOfConcat(p: string, u: string)
    requires |p| >= 2 && p[|p| - 1] == ':'
    requires forall i :: 0 <= i < |p| - 1 ==> IsAsciiLetter(p[i])
    ensures LeadingLetters(p + u) == |p| - 1 && HasLetterScheme(p + u)
    ensures (p + u)[|p|..] == u
  {
    var s := p + u;
    assert forall i :: 0 <= i < |p| ==> s[i] == p[i];
    LeadingLettersIs(s, |p| - 1);
    PrefixOfConcat(p, u);
  }

  /** `/^[a-z]+:/i` matches: one or more letters, then a colon. */
  predicate HasLetterScheme(s: string) {
    var n := LeadingLetters(s);
    0 < n < |s| && s[n] == ':'
  }

  /** The regular expression's own reading of `^[a-z]+:`: some non-empty run of
      letters at the start is followed by a colon. */
  ghost predicate LetterSchemeMatch(s: string) {
    exists k :: 0 < k < |s| && s[k] == ':' && forall i :: 0 <= i < k ==> IsAsciiLetter(s[i])
  }

  /** The greedy computation agrees with the regular expression, in both directions. */
  lemma HasLetterSchemeIsMatch(s: string)
    ensures HasLetterScheme(s) <==> LetterSchemeMatch(s)
  {
    var n := LeadingLetters(s);
    if LetterSchemeMatch(s) {
      var k :| 0 < k < |s| && s[k] == ':' && forall i :: 0 <= i < k ==> IsAsciiLetter(s[i]);
      assert !IsAsciiLetter(s[k]);
      assert !(n > k);
      assert !(n < k);
    }
  }

  /** Keeps the characters satisfying `keep`, in order (a `replace` with a global
      negated character class). */
  function Filter(s: string, keep: char -> bool): (r: string)
    ensures |r| <= |s|
    ensures Every(r, keep)
  {
    if s == [] then []
    else if keep(s[0]) then [s[0]] + Filter(s[1..], keep)
    else Filter(s[1..], keep)
  }

  /** What holds of every input character holds of every kept one. */
  lemma {:induction false} FilterKeepsEvery(s: string, keep: char -> bool, p: char -> bool)
    requires Every(s, p)
    ensures Every(Filter(s, keep), p)
    decreases |s|
  {
    if s != [] {
      assert Every(s[1..], p) by {
        forall i | 0 <= i < |s| - 1 ensures p(s[1..][i]) { assert s[1..][i] == s[i + 1]; }
      }
      FilterKeepsEvery(s[1..], keep, p);
      if keep(s[0]) {
        var r := [s[0]] + Filter(s[1..], keep);
        forall i | 0 <= i < |r| ensures p(r[i]) {
          if i > 0 { assert r[i] == Filter(s[1..], keep)[i - 1]; }
        }
      }
    }
  }

  /** Decimal rendering of a natural number, as a template literal prints it. */
  function NatToString(n: nat): (r: string)
    ensures 1 <= |r|
    ensures n >= 10 ==> |r| >= 2
    ensures forall i :: 0 <= i < |r| ==> IsDigit(r[i])
  {
    if n < 10 then [('0' as int + n) as char]
    else NatToString(n / 10) + [('0' as int + n % 10) as char]
  }

  /** Distinct numbers print differently. */
  lemma {:induction false} NatToStringInjective(m: nat, n: nat)
    requires NatToString(m) == NatToString(n)
    ensures m == n
  {
    var r := NatToString(m);
    if m < 10 && n < 10 {
    } else if m >= 10 && n >= 10 {
      assert r[|r| - 1] == ('0' as int + m % 10) as char == ('0' as int + n % 10) as char;
      assert NatToString(m / 10) == r[..|r| - 1] == NatToString(n / 10);
      NatToStringInjective(m / 10, n / 10);
    }
  }
}
