/** WCAG contrast checks (src/utils/contrastChecker.ts): the contrast ratio of
    two colours, its classification against Success Criteria 1.4.3 and 1.4.6 of
    WCAG 2.1, the black-or-white text choice, and the palette correction. The
    relative luminance of a colour is a parameter `lum` into [0, 1]. */
module ContrastChecker {

  const White: string := "#FFFFFF"
  const Black: string := "#000000"

  /** Relative luminance lies in [0, 1]. */
  ghost predicate ValidLuminance(lum: string -> real) {
    forall c :: 0.0 <= lum(c) <= 1.0
  }

  /** The WCAG luminance of pure white and pure black. */
  predicate ExactExtremes(lum: string -> real) {
    lum(White) == 1.0 && lum(Black) == 0.0
  }

  function Max(a: real, b: real): real { if a < b then b else a }
  function Min(a: real, b: real): real { if a < b then a else b }

  /** `(lighter + 0.05) / (darker + 0.05)` on two luminances. */
  function Ratio(l1: real, l2: real): (r: real)
    requires 0.0 <= l1 && 0.0 <= l2
    ensures r >= 1.0
    ensures r == 1.0 <==> l1 == l2
  {
    (Max(l1, l2) + 0.05) / (Min(l1, l2) + 0.05)
  }

  /** `getContrastRatio`. */
  function GetContrastRatio(lum: string -> real, color1: string, color2: string): (r: real)
    requires ValidLuminance(lum)
    ensures r >= 1.0
    ensures r == 1.0 <==> lum(color1) == lum(color2)
  {
    Ratio(lum(color1), lum(color2))
  }

  lemma ContrastRatioSymmetric(lum: string -> real, color1: string, color2: string)
    requires ValidLuminance(lum)
    ensures GetContrastRatio(lum, color1, color2) == GetContrastRatio(lum, color2, color1)
  {
  }

  /** A lighter colour against a fixed darker one has a larger ratio. */
  lemma RatioGrowsWithLighter(l: real, m: real, dark: real)
    requires 0.0 <= dark <= l <= m
    ensures Ratio(l, dark) <= Ratio(m, dark)
  {
    assert Ratio(l, dark) == (l + 0.05) / (dark + 0.05);
    assert Ratio(m, dark) == (m + 0.05) / (dark + 0.05);
  }

  datatype Level = AAA | AA | AA18 | Fail
  datatype ContrastResult = ContrastResult(ratio: real, level: Level, passes: bool)

  /** The level a ratio reaches: 7:1 for AAA, 4.5:1 for AA, and 3:1 for large
      text only. */
  function LevelOf(ratio: real, isLargeText: bool): Level {
    if ratio >= 7.0 then AAA
    else if ratio >= 4.5 then AA
    else if ratio >= 3.0 && isLargeText then AA18
    else Fail
  }

  /** `checkContrast`: the first threshold met sets the level and the pass flag;
      text counts as normal-sized unless the caller says otherwise. */
  method CheckContrast(lum: string -> real, foreground: string, background: string, isLargeText: bool := false)
    returns (result: ContrastResult)
    requires ValidLuminance(lum)
    ensures result.ratio == GetContrastRatio(lum, foreground, background)
    ensures result.level == LevelOf(result.ratio, isLargeText)
    ensures result.passes <==> result.level != Fail
  {
    var ratio := GetContrastRatio(lum, foreground, background);
    var level := Fail;
    var passes := false;
    if ratio >= 7.0 {
      level := AAA;
      passes := true;
    } else if ratio >= 4.5 {
      level := AA;
      passes := true;
    } else if ratio >= 3.0 && isLargeText {
      level := AA18;
      passes := true;
    }
    result := ContrastResult(ratio, level, passes);
  }

  /** Each level is reached exactly at its threshold: a pass needs 4.5:1, or
      3:1 for large text, and nothing passes below 3:1. */
  lemma LevelThresholds(ratio: real, isLargeText: bool)
    ensures LevelOf(ratio, isLargeText) == AAA <==> ratio >= 7.0
    ensures LevelOf(ratio, isLargeText) == AA <==> 4.5 <= ratio < 7.0
    ensures LevelOf(ratio, isLargeText) == AA18 <==> isLargeText && 3.0 <= ratio < 4.5
    ensures LevelOf(ratio, isLargeText) != Fail ==> ratio >= (if isLargeText then 3.0 else 4.5)
  {
  }

  /** Raising the ratio never lowers the level. */
  lemma LevelMonotone(r1: real, r2: real, isLargeText: bool)
    requires r1 <= r2
    ensures LevelOf(r1, isLargeText) != Fail ==> LevelOf(r2, isLargeText) != Fail
    ensures LevelOf(r1, isLargeText) == AAA ==> LevelOf(r2, isLargeText) == AAA
  {
  }

  /** `getBestTextColor`: white only when it contrasts strictly more than black. */
  function GetBestTextColor(lum: string -> real, backgroundColor: string): (c: string)
    requires ValidLuminance(lum)
    ensures c == White || c == Black
    ensures c == White <==> GetContrastRatio(lum, White, backgroundColor) > GetContrastRatio(lum, Black, backgroundColor)
  {
    var whiteContrast := GetContrastRatio(lum, White, backgroundColor);
    var blackContrast := GetContrastRatio(lum, Black, backgroundColor);
    if whiteContrast > blackContrast then White else Black
  }

  /** The chosen colour contrasts at least as much as the other one. */
  lemma BestTextColorIsBetter(lum: string -> real, backgroundColor: string)
    requires ValidLuminance(lum)
    ensures var best, other := GetBestTextColor(lum, backgroundColor),
      if GetBestTextColor(lum, backgroundColor) == White then Black else White;
      GetContrastRatio(lum, best, backgroundColor) >= GetContrastRatio(lum, other, backgroundColor)
  {
  }

  /** With the WCAG luminance of white and black, the better of the two always
      reaches 4.5:1 against any background: either black reaches it, or the
      background is so dark that white does. */
  lemma BestTextColorPassesAA(lum: string -> real, backgroundColor: string)
    requires ValidLuminance(lum) && ExactExtremes(lum)
    ensures GetContrastRatio(lum, GetBestTextColor(lum, backgroundColor), backgroundColor) >= 4.5
  {
    var x := lum(backgroundColor) + 0.05;
    assert GetContrastRatio(lum, Black, backgroundColor) == x / 0.05;
    assert GetContrastRatio(lum, White, backgroundColor) == 1.05 / x;
    if x < 0.225 {
      assert 1.05 / x > 4.5 by {
        assert 4.5 * x < 1.05;
      }
    }
  }

  /** `colors[2] || colors[0]`: the text colour, or the background when empty. */
  function TextOrBackground(colors: seq<string>): string
    requires |colors| >= 3
  {
    if colors[2] != "" then colors[2] else colors[0]
  }

  /** `ensureAccessiblePalette`: a palette of three or more colours gets its
      text colour (index 2) replaced by black or white when it contrasts less
      than 4.5:1 with the background (index 0); everything else is copied. */
  method EnsureAccessiblePalette(lum: string -> real, colors: seq<string>) returns (adjusted: seq<string>)
    requires ValidLuminance(lum)
    ensures adjusted == AccessiblePalette(lum, colors)
  {
    if |colors| < 3 {
      return colors;
    }
    adjusted := colors;
    var textContrast := GetContrastRatio(lum, TextOrBackground(colors), colors[0]);
    if textContrast < 4.5 {
      adjusted := adjusted[2 := GetBestTextColor(lum, colors[0])];
    }
  }

  /** What `ensureAccessiblePalette` returns, as a function of its input. */
  function AccessiblePalette(lum: string -> real, colors: seq<string>): (adjusted: seq<string>)
    requires ValidLuminance(lum)
  {
    if |colors| < 3 then colors
    else if GetContrastRatio(lum, TextOrBackground(colors), colors[0]) < 4.5 then colors[2 := GetBestTextColor(lum, colors[0])]
    else colors
  }

  /** After the correction the text colour contrasts at least 4.5:1 with the
      background, given the WCAG luminance of white and black. */
  lemma AccessiblePaletteReadable(lum: string -> real, colors: seq<string>)
    requires ValidLuminance(lum) && ExactExtremes(lum) && |colors| >= 3
    ensures GetContrastRatio(lum, AccessiblePalette(lum, colors)[2], colors[0]) >= 4.5
  {
    if GetContrastRatio(lum, TextOrBackground(colors), colors[0]) < 4.5 {
      BestTextColorPassesAA(lum, colors[0]);
    }
  }

  /** A palette of fewer than three colours is returned as it is; otherwise the
      length and every colour but the text colour are kept, and the text colour
      changes only when it contrasts less than 4.5:1, and then to black or white. */
  lemma AccessiblePaletteShape(lum: string -> real, colors: seq<string>)
    requires ValidLuminance(lum)
    ensures |colors| < 3 ==> AccessiblePalette(lum, colors) == colors
    ensures |AccessiblePalette(lum, colors)| == |colors|
    ensures forall i :: 0 <= i < |colors| && i != 2 ==> AccessiblePalette(lum, colors)[i] == colors[i]
    ensures |colors| >= 3 && AccessiblePalette(lum, colors)[2] != colors[2] ==>
      GetContrastRatio(lum, TextOrBackground(colors), colors[0]) < 4.5 &&
      (AccessiblePalette(lum, colors)[2] == White || AccessiblePalette(lum, colors)[2] == Black)
  {
  }

  /** Correcting a corrected palette changes nothing more, whatever the
      luminance function: a replaced text colour is replaced by the same
      colour again. */
  lemma AccessiblePaletteIdempotent(lum: string -> real, colors: seq<string>)
    requires ValidLuminance(lum)
    ensures AccessiblePalette(lum, AccessiblePalette(lum, colors)) == AccessiblePalette(lum, colors)
  {
    if |colors| >= 3 {
      var once := AccessiblePalette(lum, colors);
      assert once[0] == colors[0];
      assert once[2] != "";
      assert TextOrBackground(once) == once[2];
    }
  }
}
