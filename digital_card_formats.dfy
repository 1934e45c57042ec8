/** The links of the four digital-card formats (src/templates/DigitalCardFormats.tsx):
    `normalizeUrl`, the contact links every format renders, and the action
    buttons of the mobile format with their black-or-white text. */
module DigitalCardFormats {
  import opened Types
  import opened Text
  import ContrastChecker
  import EmailTemplates

  /** `normalizeUrl`: an URL that already starts with `http://` or `https://`
      (in any letter case) is kept; any other gets `https://` in front. The
      URL is not trimmed. */
  function NormalizeUrl(url: string): (r: string)
    ensures HasHttpSlashes(r)
    ensures HasHttpSlashes(url) ==> r == url
    ensures !HasHttpSlashes(url) ==> SplitsAs(r, "https://", url)
  {
    if HasHttpSlashes(url) then url
    else
      LowerPrefixMatches("https://", url);
      "https://" + url
  }

  /** Normalising twice is normalising once: there is never a double prefix. */
  lemma NormalizeUrlIdempotent(url: string)
    ensures NormalizeUrl(NormalizeUrl(url)) == NormalizeUrl(url)
  {
  }

  /** A normalised URL never carries a scheme other than http or https, so a
      website of `javascript:...` becomes a harmless https address. */
  lemma NormalizeUrlIsSafe(url: string)
    ensures !EmailTemplates.UnsafeScheme(NormalizeUrl(url))
  {
  }

  /** The email, phone and website links shown by the portrait, banner and
      square formats and by the information rows of the mobile format. */
  function ContactLinks(data: CardData): (links: seq<Link>)
    ensures |links| <= 3
  {
    (if Given(data.email) then [Link("mailto:" + data.email.value, data.email.value)] else []) +
    (if Given(data.phone) then [Link("tel:" + data.phone.value, data.phone.value)] else []) +
    (if Given(data.website) then [Link(NormalizeUrl(data.website.value), data.website.value)] else [])
  }

  /** One link per non-empty field, each the field behind its scheme; the
      website link is always http(s). */
  lemma ContactLinksShape(data: CardData)
    ensures |ContactLinks(data)| ==
      (if Given(data.email) then 1 else 0) + (if Given(data.phone) then 1 else 0) + (if Given(data.website) then 1 else 0)
    ensures forall l :: l in ContactLinks(data) ==>
      (Given(data.email) && l == Link("mailto:" + data.email.value, data.email.value)) ||
      (Given(data.phone) && l == Link("tel:" + data.phone.value, data.phone.value)) ||
      (Given(data.website) && l.text == data.website.value && HasHttpSlashes(l.href))
  {
    var a := if Given(data.email) then [Link("mailto:" + data.email.value, data.email.value)] else [];
    var b := if Given(data.phone) then [Link("tel:" + data.phone.value, data.phone.value)] else [];
    var c := if Given(data.website) then [Link(NormalizeUrl(data.website.value), data.website.value)] else [];
    assert ContactLinks(data) == a + b + c;
    forall l | l in a + b + c
      ensures l in a || l in b || l in c
    {
    }
  }

  /** With every field given, the order is email, phone, website. */
  lemma ContactLinksOrder(data: CardData)
    requires Given(data.email) && Given(data.phone) && Given(data.website)
    ensures ContactLinks(data) == [Link("mailto:" + data.email.value, data.email.value),
      Link("tel:" + data.phone.value, data.phone.value),
      Link(NormalizeUrl(data.website.value), data.website.value)]
  {
  }

  /** A coloured button of the mobile format. */
  datatype ActionButton = ActionButton(href: string, text: string, background: string, color: string)

  /** The "Email" and "Call" buttons of the mobile format: on the accent colour
      (index 1), with the text colour `getBestTextColor` picks for it. The
      format reads `colors[1]`, so the palette has at least two colours. */
  function MobileActions(lum: string -> real, data: CardData, colors: seq<string>): (buttons: seq<ActionButton>)
    requires ContrastChecker.ValidLuminance(lum)
    requires |colors| >= 2
    ensures |buttons| == (if Given(data.email) then 1 else 0) + (if Given(data.phone) then 1 else 0)
    ensures forall b :: b in buttons ==> b.background == colors[1] && b.color == ContrastChecker.GetBestTextColor(lum, colors[1])
    ensures forall b :: b in buttons ==>
      (Given(data.email) && b.href == "mailto:" + data.email.value && b.text == "Email") ||
      (Given(data.phone) && b.href == "tel:" + data.phone.value && b.text == "Call")
  {
    var textColor := ContrastChecker.GetBestTextColor(lum, colors[1]);
    (if Given(data.email) then [ActionButton("mailto:" + data.email.value, "Email", colors[1], textColor)] else []) +
    (if Given(data.phone) then [ActionButton("tel:" + data.phone.value, "Call", colors[1], textColor)] else [])
  }

  /** Every button's text contrasts at least 4.5:1 with its background, given
      the WCAG luminance of white and black. */
  lemma MobileActionsReadable(lum: string -> real, data: CardData, colors: seq<string>)
    requires ContrastChecker.ValidLuminance(lum) && ContrastChecker.ExactExtremes(lum)
    requires |colors| >= 2
    ensures forall b :: b in MobileActions(lum, data, colors) ==>
      ContrastChecker.GetContrastRatio(lum, b.color, b.background) >= 4.5
  {
    ContrastChecker.BestTextColorPassesAA(lum, colors[1]);
  }
}
