/** The recommended image sizes per card template (src/utils/imageGuidance.ts):
    the table and its lookup, and the `w:h` aspect-ratio strings it carries. */
module ImageGuidance {
  import opened Types
  import opened Text

  datatype Purpose = Headshot | Logo | FullBleed | Background

  datatype Guidance = Guidance(width: nat, height: nat, aspectRatio: string, purpose: Purpose, description: string)

  /** The image slots of one template; an absent slot is `None`. */
  datatype Requirements = Requirements(primary: Option<Guidance>, logo: Option<Guidance>, optional: Option<seq<Guidance>>)

  /** The empty object `{}`. */
  const NoRequirements := Requirements(None, None, None)

  const MinimalImages := Requirements(
    Some(Guidance(400, 400, "1:1", Headshot, "Square headshot photo, centered on your face")),
    Some(Guidance(200, 200, "1:1", Logo, "Company logo, square or circular format")), None)
  const ModernImages := Requirements(
    Some(Guidance(600, 900, "2:3", FullBleed, "Portrait photo for left side, will extend to edges")),
    Some(Guidance(300, 100, "3:1", Logo, "Horizontal logo format")), None)
  const ProfessionalImages := Requirements(
    Some(Guidance(500, 700, "5:7", Headshot, "Professional headshot, portrait orientation")),
    Some(Guidance(200, 200, "1:1", Logo, "Square company logo")), None)
  const BoldImages := Requirements(
    Some(Guidance(800, 600, "4:3", Background, "Background image or pattern, landscape orientation")),
    Some(Guidance(300, 300, "1:1", Logo, "Large square logo")), None)
  const ElegantImages := Requirements(
    None,
    Some(Guidance(250, 250, "1:1", Logo, "Company logo, elegant and refined")), None)
  const ClassicImages := Requirements(
    Some(Guidance(400, 400, "1:1", Headshot, "Circular headshot crop")),
    Some(Guidance(300, 100, "3:1", Logo, "Horizontal logo")), None)
  const CreativeImages := Requirements(
    Some(Guidance(600, 800, "3:4", FullBleed, "Creative photo, will cover background")),
    Some(Guidance(200, 200, "1:1", Logo, "Square logo")), None)
  const SimpleImages := Requirements(
    None,
    Some(Guidance(150, 150, "1:1", Logo, "Small square logo")), None)

  /** `templateImageRequirements`, keyed by template id. */
  const RequirementsTable: map<string, Requirements> := map[
    "minimal" := MinimalImages, "modern" := ModernImages, "professional" := ProfessionalImages,
    "bold" := BoldImages, "elegant" := ElegantImages, "classic" := ClassicImages,
    "creative" := CreativeImages, "simple" := SimpleImages]

  /** The entry of each template. */
  function RequirementsOf(t: TemplateId): Requirements {
    match t
    case Minimal => MinimalImages
    case Modern => ModernImages
    case Professional => ProfessionalImages
    case Bold => BoldImages
    case Elegant => ElegantImages
    case Classic => ClassicImages
    case Creative => CreativeImages
    case Simple => SimpleImages
  }

  /** The table has an entry for exactly the eight template ids, and the entry
      under a template's id is that template's. */
  lemma TableKeysAreTemplates()
    ensures RequirementsTable.Keys == set t: TemplateId :: TemplateIdName(t)
    ensures forall t: TemplateId :: TemplateIdName(t) in RequirementsTable && RequirementsTable[TemplateIdName(t)] == RequirementsOf(t)
  {
    var names := set t: TemplateId :: TemplateIdName(t);
    assert TemplateIdName(Minimal) in names && TemplateIdName(Modern) in names;
    assert TemplateIdName(Professional) in names && TemplateIdName(Bold) in names;
    assert TemplateIdName(Elegant) in names && TemplateIdName(Classic) in names;
    assert TemplateIdName(Creative) in names && TemplateIdName(Simple) in names;
  }

  /** `getImageRequirements`: the entry for a listed id, `{}` for any other. */
  function GetImageRequirements(templateId: string): (r: Requirements)
    ensures templateId in RequirementsTable ==> r == RequirementsTable[templateId]
    ensures templateId !in RequirementsTable ==> r == NoRequirements
  {
    if templateId in RequirementsTable then RequirementsTable[templateId] else NoRequirements
  }

  /** Every template asks for a logo and lists no optional images; only the
      elegant and simple templates ask for no primary image. */
  lemma EveryTemplateHasLogo(t: TemplateId)
    ensures GetImageRequirements(TemplateIdName(t)).logo.Some?
    ensures GetImageRequirements(TemplateIdName(t)).logo.value.purpose == Logo
    ensures GetImageRequirements(TemplateIdName(t)).optional.None?
    ensures GetImageRequirements(TemplateIdName(t)).primary.None? <==> t == Elegant || t == Simple
  {
    TableKeysAreTemplates();
  }

  /** An id that names no template gets the empty requirements. */
  lemma UnknownTemplateHasNone(templateId: string)
    requires forall t: TemplateId :: TemplateIdName(t) != templateId
    ensures GetImageRequirements(templateId) == NoRequirements
  {
    TableKeysAreTemplates();
  }

  /** The value of a non-empty run of decimal digits. */
  function DigitsValue(s: string): nat
    requires forall i :: 0 <= i < |s| ==> IsDigit(s[i])
    decreases |s|
  {
    if s == [] then 0
    else
      assert IsDigit(s[|s| - 1]);
      10 * DigitsValue(s[..|s| - 1]) + (s[|s| - 1] as int - '0' as int)
  }

  /** The index of the first `:`, or `|s|`. */
  function ColonIndex(s: string): (i: nat)
    ensures i <= |s|
    ensures i < |s| ==> s[i] == ':'
    ensures forall j :: 0 <= j < i ==> s[j] != ':'
  {
    if s == [] then 0 else if s[0] == ':' then 0 else 1 + ColonIndex(s[1..])
  }

  predicate AllDigits(s: string) {
    |s| > 0 && forall i :: 0 <= i < |s| ==> IsDigit(s[i])
  }

  /** Reads `w:h` as the pair of numbers `(w, h)`. */
  function ParseRatio(s: string): Option<(nat, nat)> {
    var i := ColonIndex(s);
    if i < |s| && AllDigits(s[..i]) && AllDigits(s[i + 1..]) then Some((DigitsValue(s[..i]), DigitsValue(s[i + 1..])))
    else None
  }

  lemma {:induction false} DigitsValueOfNat(n: nat)
    ensures DigitsValue(NatToString(n)) == n
    decreases n
  {
    if n >= 10 {
      var r := NatToString(n);
      assert r[..|r| - 1] == NatToString(n / 10);
      DigitsValueOfNat(n / 10);
    }
  }

  /** Writing `w:h` and reading it back gives `(w, h)`. */
  lemma ParseRatioRoundTrip(w: nat, h: nat)
    ensures ParseRatio(NatToString(w) + ":" + NatToString(h)) == Some((w, h))
  {
    var a, b := NatToString(w), NatToString(h);
    var s := a + ":" + b;
    assert forall j :: 0 <= j < |a| ==> s[j] == a[j];
    assert s[|a|] == ':';
    assert ColonIndex(s) == |a|;
    assert s[..|a|] == a;
    assert s[|a| + 1..] == b;
    DigitsValueOfNat(w);
    DigitsValueOfNat(h);
  }

  /** The aspect-ratio string of a guidance describes its width and height. */
  predicate RatioAgrees(g: Guidance) {
    var r := ParseRatio(g.aspectRatio);
    r.Some? && g.width * r.value.1 == g.height * r.value.0
  }

  /** The common ratios as written in the table. */
  lemma RatioStringsParse()
    ensures ParseRatio("1:1") == Some((1, 1)) && ParseRatio("2:3") == Some((2, 3))
    ensures ParseRatio("3:1") == Some((3, 1)) && ParseRatio("5:7") == Some((5, 7))
    ensures ParseRatio("4:3") == Some((4, 3)) && ParseRatio("3:4") == Some((3, 4))
  {
    ParseRatioRoundTrip(1, 1);
    assert NatToString(1) + ":" + NatToString(1) == "1:1";
    ParseRatioRoundTrip(2, 3);
    assert NatToString(2) + ":" + NatToString(3) == "2:3";
    ParseRatioRoundTrip(3, 1);
    assert NatToString(3) + ":" + NatToString(1) == "3:1";
    ParseRatioRoundTrip(5, 7);
    assert NatToString(5) + ":" + NatToString(7) == "5:7";
    ParseRatioRoundTrip(4, 3);
    assert NatToString(4) + ":" + NatToString(3) == "4:3";
    ParseRatioRoundTrip(3, 4);
    assert NatToString(3) + ":" + NatToString(4) == "3:4";
  }

  /** In every entry, width and height stand in the ratio the entry names. */
  lemma TableRatiosAgree(t: TemplateId)
    ensures RequirementsOf(t).primary.Some? ==> RatioAgrees(RequirementsOf(t).primary.value)
    ensures RequirementsOf(t).logo.Some? ==> RatioAgrees(RequirementsOf(t).logo.value)
  {
    RatioStringsParse();
  }
}
