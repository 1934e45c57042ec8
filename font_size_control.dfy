/** The font-scale slider (src/components/FontSizeControl.tsx): the label it
    shows for a scale, and the positions the slider offers. */
module FontSizeControl {

  datatype FontLabel = Small | Normal | Large

  function LabelText(l: FontLabel): string {
    match l
    case Small => "Small"
    case Normal => "Normal"
    case Large => "Large"
  }

  /** `getLabel`: below 0.9 is small, above 1.1 is large, and the closed
      interval between is normal. */
  function GetLabel(scale: real): (l: FontLabel)
    ensures l == Small <==> scale < 0.9
    ensures l == Large <==> scale > 1.1
    ensures l == Normal <==> 0.9 <= scale <= 1.1
  {
    if scale < 0.9 then Small
    else if scale > 1.1 then Large
    else Normal
  }

  function Rank(l: FontLabel): (n: nat)
    ensures n <= 2
  {
    match l
    case Small => 0
    case Normal => 1
    case Large => 2
  }

  /** A larger scale never gets a smaller label. */
  lemma GetLabelMonotone(a: real, b: real)
    requires a <= b
    ensures Rank(GetLabel(a)) <= Rank(GetLabel(b))
  {
  }

  const DefaultScale: real := 1.0
  const SliderMin: real := 0.8
  const SliderMax: real := 1.2
  const SliderStep: real := 0.05

  /** The number of steps from one end of the slider to the other. */
  const SliderSteps: nat := 8

  /** The value of the slider at step `k` from its left end. */
  function SliderValue(k: nat): (v: real)
    requires k <= SliderSteps
    ensures SliderMin <= v <= SliderMax
    ensures k == SliderSteps ==> v == SliderMax
  {
    SliderMin + k as real * SliderStep
  }

  /** The slider's positions label as Small for its first two steps (0.8 and
      0.85), Large for its last two (1.15 and 1.2) and Normal in between; its
      default sits in the middle of the Normal range. */
  lemma SliderLabels(k: nat)
    requires k <= SliderSteps
    ensures GetLabel(SliderValue(k)) == Small <==> k < 2
    ensures GetLabel(SliderValue(k)) == Large <==> k > 6
    ensures GetLabel(SliderValue(0)) == Small && GetLabel(SliderValue(SliderSteps)) == Large
    ensures GetLabel(DefaultScale) == Normal && LabelText(GetLabel(DefaultScale)) == "Normal"
  {
  }
}
