/** The links of the email-signature templates (src/templates/EmailTemplates.tsx):
    the `safeHref` guard and, for each template, the hyperlinks it renders for
    the signature's fields, in order. Layout and styling are not modelled. */
module EmailTemplates {
  import opened Types
  import opened Text

  /** A leading `letters:` scheme other than `http://` or `https://`. */
  predicate UnsafeScheme(s: string) {
    HasLetterScheme(s) && !HasHttpSlashes(s)
  }

  /** `safeHref`: the trimmed URL when it is http(s) or has no scheme at all,
      and the empty string for any other scheme. */
  function SafeHref(url: string): (r: string)
    ensures HasHttpSlashes(Trim(url)) ==> r == Trim(url)
    ensures !HasLetterScheme(Trim(url)) ==> r == Trim(url)
    ensures UnsafeScheme(Trim(url)) ==> r == ""
  {
    var trimmed := Trim(url);
    if HasHttpSlashes(trimmed) then trimmed
    else if !HasLetterScheme(trimmed) then trimmed
    else ""
  }

  /** The output never begins with a scheme other than http or https. */
  lemma SafeHrefIsSafe(url: string)
    ensures !UnsafeScheme(SafeHref(url))
    ensures SafeHref(url) == "" || SafeHref(url) == Trim(url)
  {
  }

  lemma SafeHrefIdempotent(url: string)
    ensures SafeHref(SafeHref(url)) == SafeHref(url)
  {
    TrimIdempotent(url);
    if UnsafeScheme(Trim(url)) {
      assert SafeHref(url) == "";
      assert Trim("") == "";
    }
  }

  /** The visible labels of the LinkedIn, Twitter and Instagram links. */
  datatype SocialLabels = SocialLabels(linkedin: string, twitter: string, instagram: string)

  function LabelsOf(template: EmailTemplateId): SocialLabels {
    match template
    case EmailModern => SocialLabels("in", "tw", "ig")
    case _ => SocialLabels("LinkedIn", "Twitter", "Instagram")
  }

  /** The link of one optional field: none when the field is empty, otherwise
      one whose target is the field guarded by `safeHref`. */
  function GuardedLink(field: Option<string>, text: string): (links: seq<Link>)
    ensures |links| == if Given(field) then 1 else 0
    ensures forall l :: l in links ==> Given(field) && l == Link(SafeHref(field.value), text)
  {
    if Given(field) then [Link(SafeHref(field.value), text)] else []
  }

  /** The email link (unguarded) and the website link, when present. */
  function ContactLinks(data: EmailSignatureData): (links: seq<Link>)
    ensures |links| <= 2
  {
    (if data.email != "" then [Link("mailto:" + data.email, data.email)] else []) +
    GuardedLink(data.website, data.website.GetOr(""))
  }

  function SocialLinks(data: EmailSignatureData, labels: SocialLabels): (links: seq<Link>)
    ensures |links| <= 3
  {
    GuardedLink(data.linkedin, labels.linkedin) + GuardedLink(data.twitter, labels.twitter) +
    GuardedLink(data.instagram, labels.instagram)
  }

  /** The hyperlinks a template renders: email, website, then the social links. */
  function EmailLinks(template: EmailTemplateId, data: EmailSignatureData): (links: seq<Link>)
  {
    ContactLinks(data) + SocialLinks(data, LabelsOf(template))
  }

  /** A guarded link never carries a scheme other than http or https. */
  lemma GuardedLinkSafe(field: Option<string>, text: string)
    ensures forall l :: l in GuardedLink(field, text) ==> !UnsafeScheme(l.href)
  {
    if Given(field) {
      SafeHrefIsSafe(field.value);
    }
  }

  /** Every link of every template except the email link is guarded; the email
      link is `mailto:` followed by the address as typed, and comes first. */
  lemma EmailLinksSafe(template: EmailTemplateId, data: EmailSignatureData)
    ensures forall l :: l in EmailLinks(template, data) ==> l.href == "mailto:" + data.email || !UnsafeScheme(l.href)
    ensures data.email != "" ==> EmailLinks(template, data)[0] == Link("mailto:" + data.email, data.email)
    ensures data.email == "" ==> forall l :: l in EmailLinks(template, data) ==> !UnsafeScheme(l.href)
  {
    var labels := LabelsOf(template);
    GuardedLinkSafe(data.website, data.website.GetOr(""));
    GuardedLinkSafe(data.linkedin, labels.linkedin);
    GuardedLinkSafe(data.twitter, labels.twitter);
    GuardedLinkSafe(data.instagram, labels.instagram);
  }

  /** The social links appear only for non-empty fields, each labelled for its
      network. */
  lemma SocialLinksFromFields(data: EmailSignatureData, labels: SocialLabels)
    ensures forall l :: l in SocialLinks(data, labels) ==>
      (Given(data.linkedin) && l == Link(SafeHref(data.linkedin.value), labels.linkedin)) ||
      (Given(data.twitter) && l == Link(SafeHref(data.twitter.value), labels.twitter)) ||
      (Given(data.instagram) && l == Link(SafeHref(data.instagram.value), labels.instagram))
  {
    var a := GuardedLink(data.linkedin, labels.linkedin);
    var b := GuardedLink(data.twitter, labels.twitter);
    var c := GuardedLink(data.instagram, labels.instagram);
    assert SocialLinks(data, labels) == a + b + c;
    forall l | l in a + b + c
      ensures l in a || l in b || l in c
    {
    }
  }

  /** One social link per non-empty field. */
  lemma SocialLinksCount(data: EmailSignatureData, labels: SocialLabels)
    ensures |SocialLinks(data, labels)| ==
      (if Given(data.linkedin) then 1 else 0) + (if Given(data.twitter) then 1 else 0) + (if Given(data.instagram) then 1 else 0)
  {
  }

  lemma ThreeLinks(x: Link, y: Link, z: Link)
    ensures [x] + [y] + [z] == [x, y, z]
  {
  }

  /** With all three fields given, the links come in the order LinkedIn,
      Twitter, Instagram. */
  lemma SocialLinksOrder(data: EmailSignatureData, labels: SocialLabels)
    requires Given(data.linkedin) && Given(data.twitter) && Given(data.instagram)
    ensures SocialLinks(data, labels) == [Link(SafeHref(data.linkedin.value), labels.linkedin),
      Link(SafeHref(data.twitter.value), labels.twitter), Link(SafeHref(data.instagram.value), labels.instagram)]
  {
    var x := Link(SafeHref(data.linkedin.value), labels.linkedin);
    var y := Link(SafeHref(data.twitter.value), labels.twitter);
    var z := Link(SafeHref(data.instagram.value), labels.instagram);
    assert SocialLinks(data, labels) == [x] + [y] + [z];
    ThreeLinks(x, y, z);
  }
}
