/** Palettes (src/utils/colorGenerator.ts): hex validation and normalisation,
    the random "harmonious" palettes and the six presets. The random number
    and the HSL-to-hex conversion are parameters: `draw(i)` is the value
    `Math.random()` gives for the i-th palette and `hsl(h, s, l)` the colour
    `hslToHex` computes. */
module ColorGenerator {
  import opened Types
  import opened Text

  predicate IsHexDigit(c: char) {
    '0' <= c <= '9' || 'a' <= c <= 'f' || 'A' <= c <= 'F'
  }

  /** `isValidHex`: `#` followed by exactly six characters from 0-9, a-f, A-F. */
  predicate IsValidHex(color: string) {
    |color| == 7 && color[0] == '#' && forall i :: 1 <= i < 7 ==> IsHexDigit(color[i])
  }

  /** Exactly `n` hex digits and nothing after them. */
  predicate HexRun(s: string, n: nat)
    decreases n
  {
    if n == 0 then s == [] else |s| > 0 && IsHexDigit(s[0]) && HexRun(s[1..], n - 1)
  }

  /** The pattern `^#[0-9A-F]{6}$` with the `i` flag, read left to right: a
      `#`, then a run of six hex digits that ends the string. */
  predicate MatchesHexPattern(color: string) {
    |color| > 0 && color[0] == '#' && HexRun(color[1..], 6)
  }

  lemma {:induction false} HexRunIff(s: string, n: nat)
    ensures HexRun(s, n) <==> |s| == n && forall i :: 0 <= i < |s| ==> IsHexDigit(s[i])
    decreases n
  {
    if n > 0 && |s| > 0 {
      HexRunIff(s[1..], n - 1);
      assert forall i :: 1 <= i < |s| ==> s[1..][i - 1] == s[i];
    }
  }

  /** The validity test accepts exactly the strings the pattern matches. */
  lemma IsValidHexMatchesPattern(color: string)
    ensures IsValidHex(color) <==> MatchesHexPattern(color)
  {
    if |color| > 0 {
      HexRunIff(color[1..], 6);
      assert forall i :: 1 <= i < |color| ==> color[1..][i - 1] == color[i];
    }
  }

  predicate StartsWithHash(s: string) {
    |s| > 0 && s[0] == '#'
  }

  /** `normalizeColor`: a `#` in front unless there is one already. */
  function NormalizeColor(color: string): (r: string)
    ensures StartsWithHash(r)
    ensures StartsWithHash(color) ==> r == color
    ensures !StartsWithHash(color) ==> |r| == |color| + 1 && r[1..] == color
  {
    if StartsWithHash(color) then color else "#" + color
  }

  lemma NormalizeColorIdempotent(color: string)
    ensures NormalizeColor(NormalizeColor(color)) == NormalizeColor(color)
  {
  }

  /** Normalising yields a valid colour exactly when the input was one already
      or was six hex digits without the `#`. */
  lemma NormalizeColorValid(color: string)
    ensures IsValidHex(NormalizeColor(color)) <==>
      IsValidHex(color) || (|color| == 6 && forall i :: 0 <= i < 6 ==> IsHexDigit(color[i]))
  {
    var r := NormalizeColor(color);
    if !StartsWithHash(color) {
      assert forall i :: 1 <= i < |r| ==> r[i] == color[i - 1];
      if |color| == 6 && IsValidHex(r) {
        forall i | 0 <= i < 6
          ensures IsHexDigit(color[i])
        {
          assert r[i + 1] == color[i];
        }
      }
    }
  }

  /** `Math.floor(Math.random() * 360)`. */
  function BaseHue(random: real): (hue: int)
    ensures 0.0 <= random < 1.0 ==> 0 <= hue < 360
  {
    (random * 360.0).Floor
  }

  /** Hue, saturation and lightness of the primary, secondary, complementary
      and accent colours. */
  function HarmoniousHsl(base: int): seq<(int, int, int)> {
    [(base, 70, 50), ((base + 30) % 360, 60, 60), ((base + 180) % 360, 65, 55), ((base + 60) % 360, 50, 70)]
  }

  /** Every hue lies in [0, 360); the secondary and accent hues are 30 and 60
      degrees on from the primary, and the complementary hue is opposite it. */
  lemma HarmoniousHues(base: int)
    requires 0 <= base < 360
    ensures |HarmoniousHsl(base)| == 4
    ensures forall k :: 0 <= k < 4 ==> 0 <= HarmoniousHsl(base)[k].0 < 360
    ensures HarmoniousHsl(base)[0].0 == base
    ensures (HarmoniousHsl(base)[1].0 - base) % 360 == 30
    ensures (HarmoniousHsl(base)[2].0 - base) % 360 == 180
    ensures (HarmoniousHsl(base)[3].0 - base) % 360 == 60
  {
  }

  /** `generateHarmoniousColors` for one random draw. */
  function HarmoniousColors(hsl: (int, int, int) -> string, random: real): (colors: seq<string>)
    ensures |colors| == 4
  {
    var hues := HarmoniousHsl(BaseHue(random));
    [hsl(hues[0].0, hues[0].1, hues[0].2), hsl(hues[1].0, hues[1].1, hues[1].2),
     hsl(hues[2].0, hues[2].1, hues[2].2), hsl(hues[3].0, hues[3].1, hues[3].2)]
  }

  /** The i-th random palette: id `palette-i`, harmonious colours, no name. */
  function RandomPalette(i: nat, draw: nat -> real, hsl: (int, int, int) -> string): ColorPalette {
    ColorPalette("palette-" + NatToString(i), HarmoniousColors(hsl, draw(i)), None)
  }

  /** The list `generateRandomPalettes(count)` builds. */
  function RandomPalettes(count: int, draw: nat -> real, hsl: (int, int, int) -> string): seq<ColorPalette> {
    seq(if count < 0 then 0 else count, i requires 0 <= i => RandomPalette(i, draw, hsl))
  }

  /** `generateRandomPalettes`: pushes one palette per index below `count`. */
  method GenerateRandomPalettes(count: int, draw: nat -> real, hsl: (int, int, int) -> string)
    returns (palettes: seq<ColorPalette>)
    ensures palettes == RandomPalettes(count, draw, hsl)
  {
    palettes := [];
    var i := 0;
    while i < count
      invariant 0 <= i <= (if count < 0 then 0 else count)
      invariant palettes == RandomPalettes(i, draw, hsl)
    {
      assert RandomPalettes(i + 1, draw, hsl) == RandomPalettes(i, draw, hsl) + [RandomPalette(i, draw, hsl)];
      palettes := palettes + [RandomPalette(i, draw, hsl)];
      i := i + 1;
    }
    assert RandomPalettes(i, draw, hsl) == RandomPalettes(count, draw, hsl);
  }

  /** `count` palettes (none for a negative count), the i-th with id
      `palette-i`, four colours and no name; the ids are pairwise distinct. */
  lemma RandomPalettesShape(count: int, draw: nat -> real, hsl: (int, int, int) -> string)
    ensures |RandomPalettes(count, draw, hsl)| == if count < 0 then 0 else count
    ensures forall i :: 0 <= i < |RandomPalettes(count, draw, hsl)| ==>
      RandomPalettes(count, draw, hsl)[i].id == "palette-" + NatToString(i) &&
      |RandomPalettes(count, draw, hsl)[i].colors| == 4 &&
      RandomPalettes(count, draw, hsl)[i].name == None
    ensures forall i, j :: 0 <= i < j < |RandomPalettes(count, draw, hsl)| ==>
      RandomPalettes(count, draw, hsl)[i].id != RandomPalettes(count, draw, hsl)[j].id
  {
    var ps := RandomPalettes(count, draw, hsl);
    forall i, j | 0 <= i < j < |ps|
      ensures ps[i].id != ps[j].id
    {
      if ps[i].id == ps[j].id {
        var p := "palette-";
        assert (p + NatToString(i))[|p|..] == NatToString(i);
        assert (p + NatToString(j))[|p|..] == NatToString(j);
        NatToStringInjective(i, j);
      }
    }
  }

  const Ocean := ColorPalette("ocean", ["#0077B6", "#00B4D8", "#90E0EF", "#CAF0F8"], Some("Ocean Breeze"))
  const Sunset := ColorPalette("sunset", ["#F72585", "#B5179E", "#7209B7", "#560BAD"], Some("Sunset Glow"))
  const Forest := ColorPalette("forest", ["#2D6A4F", "#40916C", "#52B788", "#74C69D"], Some("Forest Green"))
  const Corporate := ColorPalette("corporate", ["#1E3A8A", "#3B82F6", "#60A5FA", "#93C5FD"], Some("Corporate Blue"))
  const Elegant := ColorPalette("elegant", ["#1F2937", "#4B5563", "#6B7280", "#D1D5DB"], Some("Elegant Black"))
  const Vibrant := ColorPalette("vibrant", ["#EC4899", "#F59E0B", "#10B981", "#3B82F6"], Some("Vibrant Pop"))

  /** The six preset palettes, in the order the picker shows them. */
  const PresetPalettes: seq<ColorPalette> := [Ocean, Sunset, Forest, Corporate, Elegant, Vibrant]

  /** Each preset has a name and four colours, and no two share an id. */
  lemma PresetPalettesShape()
    ensures |PresetPalettes| == 6
    ensures forall p :: p in PresetPalettes ==> p.name.Some? && |p.colors| == 4
    ensures forall i, j :: 0 <= i < j < |PresetPalettes| ==> PresetPalettes[i].id != PresetPalettes[j].id
  {
  }

  predicate AllValidHex(colors: seq<string>) {
    forall c :: c in colors ==> IsValidHex(c)
  }

  lemma OceanValid() ensures AllValidHex(Ocean.colors) {
    var cs := ["#0077B6", "#00B4D8", "#90E0EF", "#CAF0F8"];
    assert AllValidHex(cs);
    assert Ocean.colors == cs;
  }

  lemma SunsetValid() ensures AllValidHex(Sunset.colors) {
    var cs := ["#F72585", "#B5179E", "#7209B7", "#560BAD"];
    assert AllValidHex(cs);
    assert Sunset.colors == cs;
  }

  lemma ForestValid() ensures AllValidHex(Forest.colors) {
    var cs := ["#2D6A4F", "#40916C", "#52B788", "#74C69D"];
    assert AllValidHex(cs);
    assert Forest.colors == cs;
  }

  lemma CorporateValid() ensures AllValidHex(Corporate.colors) {
    var cs := ["#1E3A8A", "#3B82F6", "#60A5FA", "#93C5FD"];
    assert AllValidHex(cs);
    assert Corporate.colors == cs;
  }

  lemma ElegantValid() ensures AllValidHex(Elegant.colors) {
    var cs := ["#1F2937", "#4B5563", "#6B7280", "#D1D5DB"];
    assert AllValidHex(cs);
    assert Elegant.colors == cs;
  }

  lemma VibrantValid() ensures AllValidHex(Vibrant.colors) {
    var cs := ["#EC4899", "#F59E0B", "#10B981", "#3B82F6"];
    assert AllValidHex(cs);
    assert Vibrant.colors == cs;
  }

  /** Every preset colour is a valid hex colour. */
  lemma PresetColorsValid()
    ensures forall p :: p in PresetPalettes ==> AllValidHex(p.colors)
  {
    OceanValid();
    SunsetValid();
    ForestValid();
    CorporateValid();
    ElegantValid();
    VibrantValid();
  }
}
