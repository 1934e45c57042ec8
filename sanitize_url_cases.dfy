/** Worked cases of `sanitizeURL` (src/utils/sanitize.ts): which leading schemes
    it removes, and the one it lets through. */
module SanitizeUrlCases {
  import opened Text
  import opened Sanitize

  /** `sanitizeURL` from the results of its steps. */
  lemma SanitizeUrlFromSteps(input: string, r: string)
    requires |input| > 0
    requires StripTags(Trim(input)) == input
    requires Trim(DropForeignScheme(RemoveDangerousScheme(input))) == r
    ensures SanitizeUrl(input) == r
  {
  }

  /** A trimmed, tag-free remainder behind a scheme survives the first two steps. */
  lemma SchemePlain(s: string, scheme: string, u: string)
    requires s == scheme + u
    requires scheme != [] && !IsSpace(scheme[0]) && !IsSpace(scheme[|scheme| - 1]) && '<' !in scheme
    requires IsTrimmed(u) && TagFree(u)
    ensures StripTags(Trim(s)) == s
  {
    assert s[0] == scheme[0] && s[|s| - 1] == (if u == [] then scheme[|scheme| - 1] else u[|u| - 1]);
    TrimOfTrimmed(s);
    TagFreeAfterScheme(scheme, u);
    StripTagsOfTagFree(s);
  }

  lemma JavascriptRemoved(s: string, u: string)
    requires s == "javascript:" + u
    ensures RemoveDangerousScheme(s) == u
  {
    LowerPrefixMatches("javascript:", u);
  }

  /** A `javascript:` prefix is removed, and a clean remainder is what is left. */
  lemma JavascriptTail(s: string, u: string)
    requires s == "javascript:" + u
    requires IsTrimmed(u) && !HasForeignScheme(u)
    ensures Trim(DropForeignScheme(RemoveDangerousScheme(s))) == u
  {
    JavascriptRemoved(s, u);
    assert DropForeignScheme(u) == u;
    TrimOfTrimmed(u);
  }

  lemma JavascriptSteps(s: string, u: string)
    requires SplitsAs(s, "javascript:", u)
    requires IsTrimmed(u) && TagFree(u) && !HasForeignScheme(u)
    ensures StripTags(Trim(s)) == s
    ensures Trim(DropForeignScheme(RemoveDangerousScheme(s))) == u
  {
    SplitIsConcat(s, "javascript:", u);
    SchemePlain(s, "javascript:", u);
    JavascriptTail(s, u);
  }

  lemma SanitizeUrlDropsJavascript(s: string, u: string)
    requires SplitsAs(s, "javascript:", u)
    requires IsTrimmed(u) && TagFree(u) && !HasForeignScheme(u)
    ensures SanitizeUrl(s) == u
  {
    JavascriptSteps(s, u);
    SanitizeUrlFromSteps(s, u);
  }

  lemma MailtoNotDangerous(s: string, u: string)
    requires s == "mailto:" + u
    ensures RemoveDangerousScheme(s) == s
    ensures DropForeignScheme(s) == u
  {
    FirstCharIgnoreCase(s, "javascript:");
    FirstCharIgnoreCase(s, "data:");
    FirstCharIgnoreCase(s, "vbscript:");
    FirstCharIgnoreCase(s, "file:");
    FirstCharIgnoreCase(s, "http:");
    FirstCharIgnoreCase(s, "https:");
    SchemeOfConcat("mailto:", u);
  }

  /** A `mailto:` prefix, which is not on the dangerous list, is removed by the
      generic scheme test; the remainder is not examined again. */
  lemma MailtoTail(s: string, u: string)
    requires s == "mailto:" + u
    requires IsTrimmed(u)
    ensures Trim(DropForeignScheme(RemoveDangerousScheme(s))) == u
  {
    MailtoNotDangerous(s, u);
    TrimOfTrimmed(u);
  }

  lemma MailtoSteps(s: string, u: string)
    requires SplitsAs(s, "mailto:", u)
    requires IsTrimmed(u) && TagFree(u)
    ensures StripTags(Trim(s)) == s
    ensures Trim(DropForeignScheme(RemoveDangerousScheme(s))) == u
  {
    SplitIsConcat(s, "mailto:", u);
    SchemePlain(s, "mailto:", u);
    MailtoTail(s, u);
  }

  lemma SanitizeUrlDropsMailto(s: string, u: string)
    requires SplitsAs(s, "mailto:", u)
    requires IsTrimmed(u) && TagFree(u)
    ensures SanitizeUrl(s) == u
  {
    MailtoSteps(s, u);
    SanitizeUrlFromSteps(s, u);
  }

  /** `mailto:` is not on the dangerous-scheme list, so only the foreign-scheme
      step removes it, and that step takes off one scheme: a second scheme
      behind `mailto:` survives, whatever it is. */
  lemma SanitizeUrlLeavesSecondScheme(s: string, u: string)
    requires SplitsAs(s, "mailto:", u)
    requires IsTrimmed(u) && TagFree(u) && HasForeignScheme(u)
    ensures SanitizeUrl(s) == u
    ensures HasForeignScheme(SanitizeUrl(s))
  {
    SanitizeUrlDropsMailto(s, u);
  }

  lemma JavascriptAlertPlain(u: string)
    requires u == "javascript:alert(1)"
    ensures IsTrimmed(u) && TagFree(u)
  {
    NoAngleIsTagFree(u);
  }

  lemma JavascriptAlertScheme(u: string)
    requires u == "javascript:alert(1)"
    ensures HasForeignScheme(u)
  {
    LeadingLettersIs(u, 10);
    FirstCharIgnoreCase(u, "http:");
    FirstCharIgnoreCase(u, "https:");
  }

  /** `javascript:alert(1)` is such a remainder, so `mailto:javascript:alert(1)`
      comes out as `javascript:alert(1)`. */
  lemma JavascriptAlertIsForeign(u: string)
    requires u == "javascript:alert(1)"
    ensures IsTrimmed(u) && TagFree(u) && HasForeignScheme(u)
  {
    JavascriptAlertPlain(u);
    JavascriptAlertScheme(u);
  }
}
