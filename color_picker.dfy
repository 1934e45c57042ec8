/** The state of the palette picker (src/components/ColorPicker.tsx): the six
    random palettes, the four custom colour slots, and the palettes handed to
    the `onSelectPalette` callback, in order. The random numbers and the
    HSL-to-hex conversion are parameters, as in ColorGenerator. */
module ColorPicker {
  import opened Types
  import opened ColorGenerator

  /** The custom slots a fresh picker starts with. */
  const InitialCustomColors: seq<string> := ["#000000", "#FFFFFF", "#2563EB", "#10B981"]

  /** The starting custom colours are four valid hex colours. */
  lemma InitialCustomColorsValid()
    ensures |InitialCustomColors| == 4 && AllValidHex(InitialCustomColors)
  {
    var cs := ["#000000", "#FFFFFF", "#2563EB", "#10B981"];
    assert AllValidHex(cs);
  }

  /** The palette "Apply Custom" hands on. */
  function CustomPalette(colors: seq<string>): (p: ColorPalette)
    ensures p.id == "custom" && p.name == Some("Custom") && p.colors == colors
  {
    ColorPalette("custom", colors, Some("Custom"))
  }

  class Picker {
    var randomPalettes: seq<ColorPalette>
    var customColors: array<string>
    /** Every palette passed to `onSelectPalette` so far. */
    var selected: seq<ColorPalette>

    /** Four custom slots, each with a leading `#`, and only palettes of valid
        colours ever selected through "Apply Custom". */
    ghost predicate Valid()
      reads this, customColors
    {
      customColors.Length == 4 &&
      (forall i :: 0 <= i < 4 ==> StartsWithHash(customColors[i])) &&
      (forall p :: p in selected ==> AllValidHex(p.colors))
    }

    /** The initial state: six random palettes and the default custom slots. */
    constructor (draw: nat -> real, hsl: (int, int, int) -> string)
      ensures Valid()
      ensures randomPalettes == RandomPalettes(6, draw, hsl)
      ensures customColors[..] == InitialCustomColors
      ensures selected == []
    {
      var palettes := GenerateRandomPalettes(6, draw, hsl);
      randomPalettes := palettes;
      var slots := new string[4];
      slots[0], slots[1], slots[2], slots[3] := "#000000", "#FFFFFF", "#2563EB", "#10B981";
      customColors := slots;
      selected := [];
      new;
      assert customColors[..] == InitialCustomColors;
    }

    /** `handleRegenerateRandom`: six fresh palettes replace the old ones. */
    method HandleRegenerateRandom(draw: nat -> real, hsl: (int, int, int) -> string)
      requires Valid()
      modifies this
      ensures Valid()
      ensures randomPalettes == RandomPalettes(6, draw, hsl)
      ensures customColors == old(customColors) && selected == old(selected)
    {
      randomPalettes := GenerateRandomPalettes(6, draw, hsl);
    }

    /** `handleCustomColorChange`: a copy of the slots with the one at `index`
        set to the normalised colour replaces the old slots. */
    method HandleCustomColorChange(index: nat, color: string)
      requires Valid() && index < 4
      modifies this
      ensures Valid()
      ensures fresh(customColors)
      ensures customColors[..] == old(customColors[..])[index := NormalizeColor(color)]
      ensures randomPalettes == old(randomPalettes) && selected == old(selected)
    {
      var current := customColors;
      var newColors := new string[4];
      for i := 0 to 4
        modifies newColors
        invariant newColors[..i] == current[..i]
      {
        newColors[i] := current[i];
      }
      assert newColors[..] == current[..];
      newColors[index] := NormalizeColor(color);
      customColors := newColors;
    }

    /** `handleApplyCustom`: the custom palette is selected when every slot is
        a valid hex colour, and nothing happens otherwise. */
    method HandleApplyCustom()
      requires Valid()
      modifies this
      ensures Valid()
      ensures AllValidHex(old(customColors[..])) ==> selected == old(selected) + [CustomPalette(old(customColors[..]))]
      ensures !AllValidHex(old(customColors[..])) ==> selected == old(selected)
      ensures customColors == old(customColors) && randomPalettes == old(randomPalettes)
    {
      var colors := customColors[..];
      if AllValidHex(colors) {
        selected := selected + [CustomPalette(colors)];
      }
    }
  }

  /** Changing a slot keeps the others and makes the slot `#`-prefixed: the
      slot is valid exactly when the typed colour, with or without `#`, is. */
  lemma CustomColorChangeEffect(slots: seq<string>, index: nat, color: string)
    requires |slots| == 4 && index < 4
    ensures |slots[index := NormalizeColor(color)]| == 4
    ensures forall i :: 0 <= i < 4 && i != index ==> slots[index := NormalizeColor(color)][i] == slots[i]
    ensures StartsWithHash(slots[index := NormalizeColor(color)][index])
    ensures IsValidHex(slots[index := NormalizeColor(color)][index]) <==>
      IsValidHex(color) || (|color| == 6 && forall i :: 0 <= i < 6 ==> IsHexDigit(color[i]))
  {
    NormalizeColorValid(color);
  }
}
