/** Input sanitisers (src/utils/sanitize.ts). Each sanitiser is a chain of
    `trim` and regular-expression `replace` steps on one string; every step is a
    function here and each sanitiser is their composition. */
module Sanitize {
  import opened Text

  // ---------------------------------------------------------------------------
  // Tag stripping: `replace(/<[^>]*>/g, '')`

  /** No '<' is followed, anywhere later in the string, by a '>': no tag survives. */
  predicate TagFree(s: string) {
    forall i, j :: 0 <= i < j < |s| && s[i] == '<' ==> s[j] != '>'
  }

  function IndexOf(s: string, c: char): (i: nat)
    requires c in s
    ensures i < |s| && s[i] == c && c !in s[..i]
  {
    if s[0] == c then 0 else 1 + IndexOf(s[1..], c)
  }

  predicate NotClose(c: char) {
    c != '>'
  }

  /** Scans left to right; a '<' with a '>' somewhere after it starts a match that
      runs to the first such '>', and the match is dropped. */
  function StripTags(s: string): (r: string)
    ensures |r| <= |s|
    decreases |s|
  {
    if s == [] then []
    else if s[0] == '<' && '>' in s then StripTags(s[IndexOf(s, '>') + 1..])
    else [s[0]] + StripTags(s[1..])
  }

  lemma EveryDrop(s: string, k: nat, p: char -> bool)
    requires k <= |s| && Every(s, p)
    ensures Every(s[k..], p)
  {
    forall i | 0 <= i < |s| - k ensures p(s[k..][i]) {
      assert s[k..][i] == s[k + i];
    }
  }

  lemma EveryTail(s: string, p: char -> bool)
    requires s != [] && Every(s, p)
    ensures Every(s[1..], p)
  {
    EveryDrop(s, 1, p);
  }

  lemma EveryCons(c: char, s: string, p: char -> bool)
    requires p(c) && Every(s, p)
    ensures Every([c] + s, p)
  {
    var t := [c] + s;
    forall i | 0 <= i < |t| ensures p(t[i]) {
      if i > 0 { assert t[i] == s[i - 1]; }
    }
  }

  /** What holds of every input character holds of every character that survives. */
  lemma {:induction false} StripTagsKeepsEvery(s: string, p: char -> bool)
    requires Every(s, p)
    ensures Every(StripTags(s), p)
    decreases |s|
  {
    if s == [] {
    } else if s[0] == '<' && '>' in s {
      var k := IndexOf(s, '>') + 1;
      EveryDrop(s, k, p);
      StripTagsKeepsEvery(s[k..], p);
    } else {
      EveryTail(s, p);
      StripTagsKeepsEvery(s[1..], p);
      EveryCons(s[0], StripTags(s[1..]), p);
    }
  }

  lemma TagFreeSlice(s: string, a: nat, b: nat)
    requires TagFree(s) && a <= b <= |s|
    ensures TagFree(s[a..b])
  {
    var t := s[a..b];
    forall i, j | 0 <= i < j < |t| && t[i] == '<' ensures t[j] != '>' {
      assert t[i] == s[a + i] && t[j] == s[a + j];
    }
  }

  lemma TagFreeDrop(s: string, k: nat)
    requires TagFree(s) && k <= |s|
    ensures TagFree(s[k..])
  {
    var t := s[k..];
    forall i, j | 0 <= i < j < |t| && t[i] == '<' ensures t[j] != '>' {
      assert t[i] == s[k + i] && t[j] == s[k + j];
    }
  }

  /** A tag-free string stays tag-free behind a character, unless that character
      is a '<' and the string holds a '>'. */
  lemma TagFreePrepend(c: char, r: string)
    requires TagFree(r)
    requires c == '<' ==> Every(r, NotClose)
    ensures TagFree([c] + r)
  {
    var t := [c] + r;
    forall i, j | 0 <= i < j < |t| && t[i] == '<' ensures t[j] != '>' {
      assert t[j] == r[j - 1];
      if i > 0 {
        assert t[i] == r[i - 1];
      }
    }
  }

  /** In a tag-free string, nothing after a leading '<' is a '>'. */
  lemma TagFreeHead(s: string)
    requires TagFree(s) && s != [] && s[0] == '<'
    ensures Every(s[1..], NotClose)
  {
    forall i | 0 <= i < |s| - 1 ensures NotClose(s[1..][i]) {
      assert s[1..][i] == s[i + 1];
    }
  }

  /** Whatever the input, no tag survives stripping. */
  lemma {:induction false} StripTagsIsTagFree(s: string)
    ensures TagFree(StripTags(s))
    decreases |s|
  {
    if s == [] {
    } else if s[0] == '<' && '>' in s {
      StripTagsIsTagFree(s[IndexOf(s, '>') + 1..]);
    } else {
      StripTagsIsTagFree(s[1..]);
      if s[0] == '<' {
        forall i | 0 <= i < |s| - 1 ensures NotClose(s[1..][i]) {
          assert s[1..][i] == s[i + 1] && s[i + 1] in s;
        }
        StripTagsKeepsEvery(s[1..], NotClose);
      }
      TagFreePrepend(s[0], StripTags(s[1..]));
    }
  }

  /** A tag-free string passes through tag stripping unchanged. */
  lemma {:induction false} StripTagsOfTagFree(s: string)
    requires TagFree(s)
    ensures StripTags(s) == s
    decreases |s|
  {
    if s != [] {
      if s[0] == '<' {
        TagFreeHead(s);
        assert '>' !in s by {
          forall i | 0 <= i < |s| ensures s[i] != '>' {
            if i > 0 { assert s[i] == s[1..][i - 1]; }
          }
        }
      }
      TagFreeDrop(s, 1);
      StripTagsOfTagFree(s[1..]);
    }
  }

  /** Dropping characters never creates a tag. */
  lemma {:induction false} FilterKeepsTagFree(s: string, keep: char -> bool)
    requires TagFree(s)
    ensures TagFree(Filter(s, keep))
    decreases |s|
  {
    if s != [] {
      TagFreeDrop(s, 1);
      FilterKeepsTagFree(s[1..], keep);
      if keep(s[0]) {
        if s[0] == '<' {
          TagFreeHead(s);
          FilterKeepsEvery(s[1..], keep, NotClose);
        }
        TagFreePrepend(s[0], Filter(s[1..], keep));
      }
    }
  }

  lemma {:induction false} FilterOfKept(s: string, keep: char -> bool)
    requires Every(s, keep)
    ensures Filter(s, keep) == s
    decreases |s|
  {
    if s != [] {
      EveryTail(s, keep);
      FilterOfKept(s[1..], keep);
    }
  }

  lemma TrimKeepsTagFree(s: string)
    requires TagFree(s)
    ensures TagFree(Trim(s))
  {
    TrimIsSlice(s);
    TagFreeSlice(s, TrimFrom(s), TrimTo(s));
  }

  // ---------------------------------------------------------------------------
  // sanitizeText, up to its DOM entity decoding

  /** `replace(/<lowerPattern>/gi, '')`: every case-insensitive occurrence, found
      left to right without overlap, is removed. */
  function RemoveAllIgnoreCase(s: string, lowerPattern: string): (r: string)
    requires lowerPattern != []
    ensures |r| <= |s|
    decreases |s|
  {
    if s == [] then []
    else if StartsWithIgnoreCase(s, lowerPattern) then RemoveAllIgnoreCase(s[|lowerPattern|..], lowerPattern)
    else [s[0]] + RemoveAllIgnoreCase(s[1..], lowerPattern)
  }

  predicate IsWordChar(c: char) {
    IsAsciiLetter(c) || IsDigit(c) || c == '_'
  }

  function WordRun(s: string): (n: nat)
    ensures n <= |s|
  {
    if s != [] && IsWordChar(s[0]) then 1 + WordRun(s[1..]) else 0
  }

  function SpaceRun(s: string): (n: nat)
    ensures n <= |s|
  {
    if s != [] && IsSpace(s[0]) then 1 + SpaceRun(s[1..]) else 0
  }

  /** The length of a match of `/on\w+\s*=/i` at the start of `s`, if there is one.
      Greedy `\w+` and `\s*` need no backtracking here: a shorter run would be
      followed by a word or space character, which is not '='. */
  function HandlerMatch(s: string): (n: nat)
    ensures n <= |s|
  {
    if !StartsWithIgnoreCase(s, "on") then 0
    else
      var w := WordRun(s[2..]);
      var sp := SpaceRun(s[2 + w..]);
      if 0 < w && 2 + w + sp < |s| && s[2 + w + sp] == '=' then 3 + w + sp else 0
  }

  /** `replace(/on\w+\s*=/gi, '')`. */
  function RemoveEventHandlers(s: string): (r: string)
    ensures |r| <= |s|
    decreases |s|
  {
    if s == [] then []
    else if HandlerMatch(s) > 0 then RemoveEventHandlers(s[HandlerMatch(s)..])
    else [s[0]] + RemoveEventHandlers(s[1..])
  }

  lemma {:induction false} RemoveAllKeepsEvery(s: string, lowerPattern: string, p: char -> bool)
    requires lowerPattern != [] && Every(s, p)
    ensures Every(RemoveAllIgnoreCase(s, lowerPattern), p)
    decreases |s|
  {
    if s == [] {
    } else if StartsWithIgnoreCase(s, lowerPattern) {
      EveryDrop(s, |lowerPattern|, p);
      RemoveAllKeepsEvery(s[|lowerPattern|..], lowerPattern, p);
    } else {
      EveryTail(s, p);
      RemoveAllKeepsEvery(s[1..], lowerPattern, p);
      EveryCons(s[0], RemoveAllIgnoreCase(s[1..], lowerPattern), p);
    }
  }

  lemma {:induction false} RemoveAllKeepsTagFree(s: string, lowerPattern: string)
    requires lowerPattern != [] && TagFree(s)
    ensures TagFree(RemoveAllIgnoreCase(s, lowerPattern))
    decreases |s|
  {
    if s == [] {
    } else if StartsWithIgnoreCase(s, lowerPattern) {
      TagFreeDrop(s, |lowerPattern|);
      RemoveAllKeepsTagFree(s[|lowerPattern|..], lowerPattern);
    } else {
      TagFreeDrop(s, 1);
      RemoveAllKeepsTagFree(s[1..], lowerPattern);
      if s[0] == '<' {
        TagFreeHead(s);
        RemoveAllKeepsEvery(s[1..], lowerPattern, NotClose);
      }
      TagFreePrepend(s[0], RemoveAllIgnoreCase(s[1..], lowerPattern));
    }
  }

  lemma {:induction false} RemoveEventHandlersKeepsEvery(s: string, p: char -> bool)
    requires Every(s, p)
    ensures Every(RemoveEventHandlers(s), p)
    decreases |s|
  {
    if s == [] {
    } else if HandlerMatch(s) > 0 {
      EveryDrop(s, HandlerMatch(s), p);
      RemoveEventHandlersKeepsEvery(s[HandlerMatch(s)..], p);
    } else {
      EveryTail(s, p);
      RemoveEventHandlersKeepsEvery(s[1..], p);
      EveryCons(s[0], RemoveEventHandlers(s[1..]), p);
    }
  }

  lemma {:induction false} RemoveEventHandlersKeepsTagFree(s: string)
    requires TagFree(s)
    ensures TagFree(RemoveEventHandlers(s))
    decreases |s|
  {
    if s == [] {
    } else if HandlerMatch(s) > 0 {
      TagFreeDrop(s, HandlerMatch(s));
      RemoveEventHandlersKeepsTagFree(s[HandlerMatch(s)..]);
    } else {
      TagFreeDrop(s, 1);
      RemoveEventHandlersKeepsTagFree(s[1..]);
      if s[0] == '<' {
        TagFreeHead(s);
        RemoveEventHandlersKeepsEvery(s[1..], NotClose);
      }
      TagFreePrepend(s[0], RemoveEventHandlers(s[1..]));
    }
  }

  /** The markup-removing steps of `sanitizeText`: tags, then every "javascript:",
      then every `on...=` event-handler attribute. */
  function SanitizeTextMarkup(input: string): (r: string)
    ensures TagFree(r)
    ensures |r| <= |input|
  {
    if input == [] then []
    else
      var noTags := StripTags(input);
      StripTagsIsTagFree(input);
      var noScript := RemoveAllIgnoreCase(noTags, "javascript:");
      RemoveAllKeepsTagFree(noTags, "javascript:");
      RemoveEventHandlersKeepsTagFree(noScript);
      RemoveEventHandlers(noScript)
  }

  // ---------------------------------------------------------------------------
  // sanitizeURL

  /** `replace(/^(javascript|data|vbscript|file):/gi, '')`: anchored, so at most
      one scheme is removed. */
  function RemoveDangerousScheme(url: string): (r: string)
    ensures |r| <= |url| && r == url[|url| - |r|..]
  {
    if StartsWithIgnoreCase(url, "javascript:") then url[11..]
    else if StartsWithIgnoreCase(url, "data:") then url[5..]
    else if StartsWithIgnoreCase(url, "vbscript:") then url[9..]
    else if StartsWithIgnoreCase(url, "file:") then url[5..]
    else url
  }

  /** `/^https?:/i`. */
  predicate HasHttpColon(s: string) {
    StartsWithIgnoreCase(s, "http:") || StartsWithIgnoreCase(s, "https:")
  }

  /** A leading `letters:` scheme that is not http or https. */
  predicate HasForeignScheme(s: string) {
    HasLetterScheme(s) && !HasHttpColon(s)
  }

  /** `replace(/^[a-z]+:/i, '')` applied when the scheme is not http(s). */
  function DropForeignScheme(url: string): (r: string)
    ensures |r| <= |url| && r == url[|url| - |r|..]
  {
    if HasForeignScheme(url) then url[LeadingLetters(url) + 1..] else url
  }

  function SanitizeUrl(input: string): (r: string)
    ensures IsTrimmed(r)
    ensures TagFree(r)
  {
    if input == [] then []
    else
      var url := RemoveDangerousScheme(StripTags(Trim(input)));
      DangerousRemovedTagFree(input);
      var dropped := DropForeignScheme(url);
      TagFreeDrop(url, |url| - |dropped|);
      TrimKeepsTagFree(dropped);
      Trim(dropped)
  }

  /** The first three steps leave no tag. */
  lemma DangerousRemovedTagFree(input: string)
    ensures TagFree(RemoveDangerousScheme(StripTags(Trim(input))))
  {
    StripTagsIsTagFree(Trim(input));
    RemoveDangerousKeepsTagFree(StripTags(Trim(input)));
  }

  /** Removing a dangerous scheme leaves a tag-free URL tag-free. */
  lemma RemoveDangerousKeepsTagFree(url: string)
    requires TagFree(url)
    ensures TagFree(RemoveDangerousScheme(url))
  {
    TagFreeSuffix(url, RemoveDangerousScheme(url));
  }

  lemma TagFreeSuffix(s: string, r: string)
    requires TagFree(s) && |r| <= |s| && r == s[|s| - |r|..]
    ensures TagFree(r)
  {
    TagFreeDrop(s, |s| - |r|);
  }

  /** A case-insensitive prefix fixes the lower-cased first character. */
  lemma FirstCharIgnoreCase(s: string, lowerPrefix: string)
    ensures lowerPrefix != [] && StartsWithIgnoreCase(s, lowerPrefix) ==> LowerChar(s[0]) == lowerPrefix[0]
  {
    if lowerPrefix != [] && StartsWithIgnoreCase(s, lowerPrefix) {
      assert ToLowerAscii(s[..|lowerPrefix|])[0] == LowerChar(s[0]);
    }
  }

  /** Tests of the anchored dangerous-scheme expression all fail on an http(s) URL. */
  lemma HttpIsNotDangerous(url: string)
    requires HasHttpColon(url)
    ensures RemoveDangerousScheme(url) == url
    ensures !HasForeignScheme(url)
  {
    FirstCharIgnoreCase(url, "http:");
    FirstCharIgnoreCase(url, "https:");
    FirstCharIgnoreCase(url, "javascript:");
    FirstCharIgnoreCase(url, "data:");
    FirstCharIgnoreCase(url, "vbscript:");
    FirstCharIgnoreCase(url, "file:");
  }

  /** A trimmed, tag-free http or https URL comes back unchanged. */
  lemma SanitizeUrlKeepsHttp(input: string)
    requires IsTrimmed(input) && TagFree(input) && HasHttpColon(input)
    ensures SanitizeUrl(input) == input
  {
    TrimOfTrimmed(input);
    StripTagsOfTagFree(input);
    HttpIsNotDangerous(input);
  }

  lemma NoAngleIsTagFree(s: string)
    requires '<' !in s
    ensures TagFree(s)
  {
    forall i | 0 <= i < |s| ensures s[i] != '<' {
      assert s[i] in s;
    }
  }

  /** Prefixing letters and a colon keeps a string tag-free. */
  lemma TagFreeAfterScheme(scheme: string, u: string)
    requires '<' !in scheme && TagFree(u)
    ensures TagFree(scheme + u)
  {
    var t := scheme + u;
    forall i, j | 0 <= i < j < |t| ensures t[i] == '<' ==> t[j] != '>' {
      if i < |scheme| {
        assert t[i] == scheme[i] && scheme[i] in scheme;
      } else {
        assert t[i] == u[i - |scheme|] && t[j] == u[j - |scheme|];
      }
    }
  }

  /** Strips leading foreign schemes, trimming between rounds, until none is left. */
  function StripForeignSchemes(url: string): (r: string)
    ensures IsTrimmed(r) && !HasForeignScheme(r)
    ensures |r| <= |url|
    decreases |url|
  {
    var t := Trim(url);
    if HasForeignScheme(t) then StripForeignSchemes(t[LeadingLetters(t) + 1..]) else t
  }

  lemma {:induction false} StripForeignSchemesIsSuffix(url: string)
    ensures TagFree(url) ==> TagFree(StripForeignSchemes(url))
    decreases |url|
  {
    if TagFree(url) {
      var t := Trim(url);
      TrimKeepsTagFree(url);
      if HasForeignScheme(t) {
        var rest := t[LeadingLetters(t) + 1..];
        TagFreeDrop(t, LeadingLetters(t) + 1);
        StripForeignSchemesIsSuffix(rest);
        assert StripForeignSchemes(url) == StripForeignSchemes(rest);
      } else {
        assert StripForeignSchemes(url) == t;
      }
    }
  }

  /** `sanitizeURL` as its comment intends it: no scheme other than http(s) survives. */
  function SanitizeUrlStrict(input: string): (r: string)
    ensures IsTrimmed(r) && TagFree(r)
    ensures !HasForeignScheme(r)
  {
    if input == [] then []
    else
      var url := RemoveDangerousScheme(StripTags(Trim(input)));
      DangerousRemovedTagFree(input);
      StripForeignSchemesIsSuffix(url);
      StripForeignSchemes(url)
  }

  /** The corrected sanitiser still passes a clean http(s) URL through unchanged. */
  lemma SanitizeUrlStrictKeepsHttp(input: string)
    requires IsTrimmed(input) && TagFree(input) && HasHttpColon(input)
    ensures SanitizeUrlStrict(input) == input
  {
    TrimOfTrimmed(input);
    StripTagsOfTagFree(input);
    HttpIsNotDangerous(input);
  }

  // ---------------------------------------------------------------------------
  // sanitizeEmail and sanitizePhone

  predicate NotSpace(c: char) {
    !IsSpace(c)
  }

  /** Trim, lower-case, strip tags, remove every whitespace character. The email
      pattern test that follows returns the same string on both branches. */
  function SanitizeEmail(input: string): (r: string)
    ensures HasNoUpperAscii(r)
    ensures forall i :: 0 <= i < |r| ==> !IsSpace(r[i])
    ensures TagFree(r)
  {
    if input == [] then []
    else
      var lowered := ToLowerAscii(Trim(input));
      var noTags := StripTags(lowered);
      StripTagsKeepsEvery(lowered, NotUpperAscii);
      FilterKeepsEvery(noTags, NotSpace, NotUpperAscii);
      StripTagsIsTagFree(lowered);
      FilterKeepsTagFree(noTags, NotSpace);
      Filter(noTags, NotSpace)
  }

  /** Sanitising an address twice is the same as once. */
  lemma SanitizeEmailIdempotent(input: string)
    ensures SanitizeEmail(SanitizeEmail(input)) == SanitizeEmail(input)
  {
    var e := SanitizeEmail(input);
    if e != [] {
      assert Every(e, NotSpace);
      assert IsTrimmed(e);
      TrimOfTrimmed(e);
      LowerOfLower(e);
      StripTagsOfTagFree(e);
      FilterOfKept(e, NotSpace);
    }
  }

  /** `[^0-9\s\-()+ .]` negated: the characters a phone number may keep. */
  predicate IsPhoneChar(c: char) {
    IsDigit(c) || IsSpace(c) || c == '-' || c == '(' || c == ')' || c == '+' || c == ' ' || c == '.'
  }

  function SanitizePhone(input: string): (r: string)
    ensures forall i :: 0 <= i < |r| ==> IsPhoneChar(r[i])
    ensures IsTrimmed(r)
    ensures TagFree(r)
  {
    if input == [] then []
    else
      var noTags := StripTags(Trim(input));
      StripTagsIsTagFree(Trim(input));
      var kept := Filter(noTags, IsPhoneChar);
      FilterKeepsTagFree(noTags, IsPhoneChar);
      TrimKeepsTagFree(kept);
      TrimKeepsEvery(kept, IsPhoneChar);
      Trim(kept)
  }

  /** Sanitising a phone number twice is the same as once. */
  lemma SanitizePhoneIdempotent(input: string)
    ensures SanitizePhone(SanitizePhone(input)) == SanitizePhone(input)
  {
    var p := SanitizePhone(input);
    if p != [] {
      TrimOfTrimmed(p);
      StripTagsOfTagFree(p);
      FilterOfKept(p, IsPhoneChar);
    }
  }

  // ---------------------------------------------------------------------------
  // isValidImageDataURL

  const ValidMimeTypes: seq<string> := [
    "data:image/jpeg", "data:image/jpg", "data:image/png",
    "data:image/gif", "data:image/webp", "data:image/svg+xml"]

  const ImageSubtypes: seq<string> := ["jpeg", "jpg", "png", "gif", "webp", "svg+xml"]

  predicate IsValidImageDataUrl(dataUrl: string) {
    if dataUrl == [] then false
    else if !StartsWith(dataUrl, "data:image/") then false
    else exists mime :: mime in ValidMimeTypes && StartsWith(dataUrl, mime)
  }

  /** Valid exactly when the string starts with data:image/ and one of the six subtypes. */
  lemma IsValidImageDataUrlIff(dataUrl: string)
    ensures IsValidImageDataUrl(dataUrl)
      <==> exists k :: 0 <= k < |ImageSubtypes| && StartsWith(dataUrl, "data:image/" + ImageSubtypes[k])
  {
    forall k | 0 <= k < |ImageSubtypes|
      ensures ValidMimeTypes[k] == "data:image/" + ImageSubtypes[k]
    {
    }
    if exists k :: 0 <= k < |ImageSubtypes| && StartsWith(dataUrl, "data:image/" + ImageSubtypes[k]) {
      var k :| 0 <= k < |ImageSubtypes| && StartsWith(dataUrl, "data:image/" + ImageSubtypes[k]);
      var m := ValidMimeTypes[k];
      assert dataUrl[..11] == m[..11] == "data:image/";
      assert m in ValidMimeTypes;
    }
    if IsValidImageDataUrl(dataUrl) {
      var m :| m in ValidMimeTypes && StartsWith(dataUrl, m);
      var k :| 0 <= k < |ValidMimeTypes| && ValidMimeTypes[k] == m;
      assert StartsWith(dataUrl, "data:image/" + ImageSubtypes[k]);
    }
  }

  // ---------------------------------------------------------------------------
  // sanitizeDisplayText

  /** `replace(/c/g, rep)`. */
  function ReplaceChar(s: string, c: char, rep: string): string {
    if s == [] then [] else (if s[0] == c then rep else [s[0]]) + ReplaceChar(s[1..], c, rep)
  }

  lemma {:induction false} ReplaceCharConcat(a: string, b: string, c: char, rep: string)
    ensures ReplaceChar(a + b, c, rep) == ReplaceChar(a, c, rep) + ReplaceChar(b, c, rep)
    decreases |a|
  {
    if a != [] {
      var head, t := if a[0] == c then rep else [a[0]], a[1..];
      assert (a + b)[0] == a[0] && (a + b)[1..] == t + b;
      ReplaceCharConcat(t, b, c, rep);
      assert ReplaceChar(a + b, c, rep) == head + ReplaceChar(t + b, c, rep);
      assert ReplaceChar(a, c, rep) == head + ReplaceChar(t, c, rep);
    } else {
      assert a + b == b;
    }
  }

  /** The five replacements of `sanitizeDisplayText`, in source order ('&' first). */
  function EscapeChain(s: string): string {
    ReplaceChar(ReplaceChar(ReplaceChar(ReplaceChar(ReplaceChar(
      s, '&', "&amp;"), '<', "&lt;"), '>', "&gt;"), '"', "&quot;"), '\'', "&#x27;")
  }

  function SanitizeDisplayText(input: string): (r: string)
    ensures forall i :: 0 <= i < |r| ==> !IsSpecial(r[i])
  {
    if input == [] then []
    else
      var escaped := EscapeChain(input);
      EscapeChainIsEscape(input);
      EscapeHasNoSpecial(input);
      TrimKeepsEvery(escaped, NotSpecial);
      Trim(escaped)
  }

  /** HTML-entity escaping of one character. */
  function EscapeChar(c: char): (r: string)
    ensures r != [] && (r[0] == c || r[0] == '&')
  {
    if c == '&' then "&amp;"
    else if c == '<' then "&lt;"
    else if c == '>' then "&gt;"
    else if c == '"' then "&quot;"
    else if c == '\'' then "&#x27;"
    else [c]
  }

  /** Character-by-character escaping: the reference the chain is compared with. */
  function Escape(s: string): string {
    if s == [] then [] else EscapeChar(s[0]) + Escape(s[1..])
  }

  lemma {:induction false} EscapeConcat(a: string, b: string)
    ensures Escape(a + b) == Escape(a) + Escape(b)
    decreases |a|
  {
    if a != [] {
      var t := a[1..];
      assert (a + b)[0] == a[0] && (a + b)[1..] == t + b;
      EscapeConcat(t, b);
      assert Escape(a + b) == EscapeChar(a[0]) + Escape(t + b);
      assert Escape(a) == EscapeChar(a[0]) + Escape(t);
    } else {
      assert a + b == b;
    }
  }

  predicate IsSpecial(c: char) {
    c == '<' || c == '>' || c == '"' || c == '\''
  }

  predicate NotSpecial(c: char) {
    !IsSpecial(c)
  }

  lemma EveryConcat(a: string, b: string, p: char -> bool)
    requires Every(a, p) && Every(b, p)
    ensures Every(a + b, p)
  {
    forall i | 0 <= i < |a + b| ensures p((a + b)[i]) {
      if i >= |a| { assert (a + b)[i] == b[i - |a|]; }
    }
  }

  lemma {:induction false} EscapeHasNoSpecial(s: string)
    ensures Every(Escape(s), NotSpecial)
    decreases |s|
  {
    if s != [] {
      EscapeHasNoSpecial(s[1..]);
      var h := EscapeChar(s[0]);
      assert Every(h, NotSpecial);
      EveryConcat(h, Escape(s[1..]), NotSpecial);
    }
  }

  lemma EscapeChainConcat(a: string, b: string)
    ensures EscapeChain(a + b) == EscapeChain(a) + EscapeChain(b)
  {
    ReplaceCharConcat(a, b, '&', "&amp;");
    var a1, b1 := ReplaceChar(a, '&', "&amp;"), ReplaceChar(b, '&', "&amp;");
    ReplaceCharConcat(a1, b1, '<', "&lt;");
    var a2, b2 := ReplaceChar(a1, '<', "&lt;"), ReplaceChar(b1, '<', "&lt;");
    ReplaceCharConcat(a2, b2, '>', "&gt;");
    var a3, b3 := ReplaceChar(a2, '>', "&gt;"), ReplaceChar(b2, '>', "&gt;");
    ReplaceCharConcat(a3, b3, '"', "&quot;");
    var a4, b4 := ReplaceChar(a3, '"', "&quot;"), ReplaceChar(b3, '"', "&quot;");
    ReplaceCharConcat(a4, b4, '\'', "&#x27;");
  }

  lemma {:induction false} ReplaceCharAbsent(s: string, c: char, rep: string)
    requires c !in s
    ensures ReplaceChar(s, c, rep) == s
    decreases |s|
  {
    if s != [] {
      ReplaceCharAbsent(s[1..], c, rep);
    }
  }

  lemma ReplaceCharSingle(c: char, d: char, rep: string)
    ensures ReplaceChar([c], d, rep) == if c == d then rep else [c]
  {
    assert [c][1..] == [];
  }

  /** The later replacements leave an entity without their characters alone. */
  lemma ChainTail(e: string)
    requires '<' !in e && '>' !in e && '"' !in e && '\'' !in e
    ensures ReplaceChar(ReplaceChar(ReplaceChar(ReplaceChar(
      e, '<', "&lt;"), '>', "&gt;"), '"', "&quot;"), '\'', "&#x27;") == e
  {
    ReplaceCharAbsent(e, '<', "&lt;");
    ReplaceCharAbsent(e, '>', "&gt;");
    ReplaceCharAbsent(e, '"', "&quot;");
    ReplaceCharAbsent(e, '\'', "&#x27;");
  }

  lemma EscapeChainAmp()
    ensures EscapeChain("&") == "&amp;"
  {
    ReplaceCharSingle('&', '&', "&amp;");
    ChainTail("&amp;");
  }

  lemma EscapeChainLt()
    ensures EscapeChain("<") == "&lt;"
  {
    ReplaceCharSingle('<', '&', "&amp;");
    ReplaceCharSingle('<', '<', "&lt;");
    ChainTailAfterLt("&lt;");
  }

  lemma EscapeChainGt()
    ensures EscapeChain(">") == "&gt;"
  {
    ReplaceCharSingle('>', '&', "&amp;");
    ReplaceCharSingle('>', '<', "&lt;");
    ReplaceCharSingle('>', '>', "&gt;");
    ChainTailAfterGt("&gt;");
  }

  lemma EscapeChainQuot()
    ensures EscapeChain("\"") == "&quot;"
  {
    ReplaceCharSingle('"', '&', "&amp;");
    ReplaceCharSingle('"', '<', "&lt;");
    ReplaceCharSingle('"', '>', "&gt;");
    ReplaceCharSingle('"', '"', "&quot;");
    ReplaceCharAbsent("&quot;", '\'', "&#x27;");
  }

  lemma EscapeChainApos()
    ensures EscapeChain("'") == "&#x27;"
  {
    ReplaceCharSingle('\'', '&', "&amp;");
    ReplaceCharSingle('\'', '<', "&lt;");
    ReplaceCharSingle('\'', '>', "&gt;");
    ReplaceCharSingle('\'', '"', "&quot;");
    ReplaceCharSingle('\'', '\'', "&#x27;");
  }

  lemma EscapeChainPlain(c: char)
    requires c != '&' && !IsSpecial(c)
    ensures EscapeChain([c]) == [c]
  {
    ReplaceCharSingle(c, '&', "&amp;");
    ReplaceCharSingle(c, '<', "&lt;");
    ReplaceCharSingle(c, '>', "&gt;");
    ReplaceCharSingle(c, '"', "&quot;");
    ReplaceCharSingle(c, '\'', "&#x27;");
  }

  lemma ChainTailAfterLt(e: string)
    requires '>' !in e && '"' !in e && '\'' !in e
    ensures ReplaceChar(ReplaceChar(ReplaceChar(e, '>', "&gt;"), '"', "&quot;"), '\'', "&#x27;") == e
  {
    ReplaceCharAbsent(e, '>', "&gt;");
    ReplaceCharAbsent(e, '"', "&quot;");
    ReplaceCharAbsent(e, '\'', "&#x27;");
  }

  lemma ChainTailAfterGt(e: string)
    requires '"' !in e && '\'' !in e
    ensures ReplaceChar(ReplaceChar(e, '"', "&quot;"), '\'', "&#x27;") == e
  {
    ReplaceCharAbsent(e, '"', "&quot;");
    ReplaceCharAbsent(e, '\'', "&#x27;");
  }

  /** The chain on one character is that character's escape. */
  lemma EscapeChainChar(c: char)
    ensures EscapeChain([c]) == EscapeChar(c)
  {
    if c == '&' {
      EscapeChainAmp();
    } else if c == '<' {
      EscapeChainLt();
    } else if c == '>' {
      EscapeChainGt();
    } else if c == '"' {
      EscapeChainQuot();
    } else if c == '\'' {
      EscapeChainApos();
    } else {
      EscapeChainPlain(c);
    }
  }

  /** Because '&' is replaced first, no later replacement touches the entities
      the earlier ones produced: the chain is single-pass escaping. */
  lemma {:induction false} EscapeChainIsEscape(s: string)
    ensures EscapeChain(s) == Escape(s)
    decreases |s|
  {
    if s == [] {
      assert EscapeChain(s) == [];
    } else {
      assert s == [s[0]] + s[1..];
      EscapeChainConcat([s[0]], s[1..]);
      EscapeChainChar(s[0]);
      EscapeChainIsEscape(s[1..]);
    }
  }

  /** Left-to-right decoding of the five entities; anything else is copied. */
  function Decode(s: string): string
    decreases |s|
  {
    if s == [] then []
    else if StartsWith(s, "&amp;") then "&" + Decode(s[5..])
    else if StartsWith(s, "&lt;") then "<" + Decode(s[4..])
    else if StartsWith(s, "&gt;") then ">" + Decode(s[4..])
    else if StartsWith(s, "&quot;") then "\"" + Decode(s[6..])
    else if StartsWith(s, "&#x27;") then "'" + Decode(s[6..])
    else [s[0]] + Decode(s[1..])
  }

  lemma DecodeAmp(rest: string)
    ensures Decode("&amp;" + rest) == "&" + Decode(rest)
  {
    var e := "&amp;" + rest;
    assert e[..5] == "&amp;" && e[5..] == rest;
  }

  lemma DecodeLt(rest: string)
    ensures Decode("&lt;" + rest) == "<" + Decode(rest)
  {
    var e := "&lt;" + rest;
    assert e[..4] == "&lt;" && e[4..] == rest;
    assert !StartsWith(e, "&amp;") by { assert e[1] == 'l'; }
  }

  lemma DecodeGt(rest: string)
    ensures Decode("&gt;" + rest) == ">" + Decode(rest)
  {
    var e := "&gt;" + rest;
    assert e[..4] == "&gt;" && e[4..] == rest;
    assert e[1] == 'g';
    assert !StartsWith(e, "&amp;") && !StartsWith(e, "&lt;");
  }

  lemma DecodeQuot(rest: string)
    ensures Decode("&quot;" + rest) == "\"" + Decode(rest)
  {
    var e := "&quot;" + rest;
    assert e[..6] == "&quot;" && e[6..] == rest;
    assert e[1] == 'q';
    assert !StartsWith(e, "&amp;") && !StartsWith(e, "&lt;") && !StartsWith(e, "&gt;");
  }

  lemma DecodeApos(rest: string)
    ensures Decode("&#x27;" + rest) == "'" + Decode(rest)
  {
    var e := "&#x27;" + rest;
    assert e[..6] == "&#x27;" && e[6..] == rest;
    assert e[1] == '#';
    assert !StartsWith(e, "&amp;") && !StartsWith(e, "&lt;") && !StartsWith(e, "&gt;");
    assert !StartsWith(e, "&quot;");
  }

  lemma DecodePlain(c: char, rest: string)
    requires c != '&'
    ensures Decode([c] + rest) == [c] + Decode(rest)
  {
    var e := [c] + rest;
    assert e[0] == c && e[1..] == rest;
    assert !StartsWith(e, "&amp;") && !StartsWith(e, "&lt;") && !StartsWith(e, "&gt;");
    assert !StartsWith(e, "&quot;") && !StartsWith(e, "&#x27;");
  }

  /** Decoding an escaped character followed by anything yields the character back. */
  lemma DecodeEscapedChar(c: char, rest: string)
    ensures Decode(EscapeChar(c) + rest) == [c] + Decode(rest)
  {
    if c == '&' {
      DecodeAmp(rest);
    } else if c == '<' {
      DecodeLt(rest);
    } else if c == '>' {
      DecodeGt(rest);
    } else if c == '"' {
      DecodeQuot(rest);
    } else if c == '\'' {
      DecodeApos(rest);
    } else {
      DecodePlain(c, rest);
    }
  }

  lemma {:induction false} DecodeEscape(t: string)
    ensures Decode(Escape(t)) == t
    decreases |t|
  {
    if t != [] {
      DecodeEscapedChar(t[0], Escape(t[1..]));
      DecodeEscape(t[1..]);
      assert t == [t[0]] + t[1..];
    }
  }

  lemma {:induction false} TrimStartEscape(s: string)
    ensures TrimStart(Escape(s)) == Escape(TrimStart(s))
    decreases |s|
  {
    if s != [] {
      if IsSpace(s[0]) {
        assert Escape(s) == [s[0]] + Escape(s[1..]);
        TrimStartEscape(s[1..]);
      } else {
        TrimStartOfTrimmed(Escape(s));
      }
    }
  }

  lemma EscapeSnoc(p: string, c: char)
    ensures Escape(p + [c]) == Escape(p) + EscapeChar(c)
  {
    EscapeConcat(p, [c]);
    assert Escape([c]) == EscapeChar(c) + Escape([]);
  }

  /** An escaped character ends in the character itself or in ';'. */
  lemma EscapeCharLast(c: char)
    ensures var e := EscapeChar(c); IsSpace(e[|e| - 1]) <==> IsSpace(c)
  {
  }

  /** A blank at the end of the input stays a blank at the end of the escaped text. */
  lemma EscapeSnocSpace(p: string, c: char)
    requires IsSpace(c)
    ensures Escape(p + [c]) == Escape(p) + [c]
  {
    EscapeSnoc(p, c);
  }

  /** A non-blank last character leaves a non-blank last character after escaping. */
  lemma EscapeSnocNonSpace(p: string, c: char)
    requires !IsSpace(c)
    ensures var e := Escape(p + [c]); e != [] && !IsSpace(e[|e| - 1])
  {
    EscapeSnoc(p, c);
    EscapeCharLast(c);
    var h := EscapeChar(c);
    assert (Escape(p) + h)[|Escape(p) + h| - 1] == h[|h| - 1];
  }

  lemma {:induction false} TrimEndEscape(s: string)
    ensures TrimEnd(Escape(s)) == Escape(TrimEnd(s))
    decreases |s|
  {
    if s != [] {
      var p, c := s[..|s| - 1], s[|s| - 1];
      assert s == p + [c];
      if IsSpace(c) {
        EscapeSnocSpace(p, c);
        TrimEndSnocSpace(Escape(p), c);
        TrimEndSnocSpace(p, c);
        TrimEndEscape(p);
      } else {
        EscapeSnocNonSpace(p, c);
        TrimEndOfTrimmed(Escape(s));
        TrimEndOfTrimmed(s);
      }
    }
  }

  /** Decoding the output reproduces the trimmed input: escaping loses nothing. */
  lemma SanitizeDisplayTextRoundTrip(input: string)
    ensures Decode(SanitizeDisplayText(input)) == Trim(input)
  {
    if input != [] {
      EscapeChainIsEscape(input);
      TrimStartEscape(input);
      TrimEndEscape(TrimStart(input));
      DecodeEscape(Trim(input));
    }
  }

  /** Every sanitiser maps the empty string to the empty string, and the data-URL
      check rejects it. */
  lemma EmptyInput()
    ensures SanitizeUrl("") == "" && SanitizeEmail("") == "" && SanitizePhone("") == ""
    ensures SanitizeDisplayText("") == "" && SanitizeTextMarkup("") == ""
    ensures !IsValidImageDataUrl("")
  {
  }
}
