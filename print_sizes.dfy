/** The table of print sizes and the inch-to-pixel conversion (src/utils/printSizes.ts).
    Inches are `real`s; every value that occurs is an exact binary fraction, so
    the TypeScript code's double arithmetic is exact on them. */
module PrintSizes {
  import opened Types

  datatype PrintSizeOption = PrintSizeOption(value: string, labelText: string, width: real, height: real, unit: string)

  /** The four offered sizes, in the order the form lists them. */
  const Table: seq<PrintSizeOption> := [
    PrintSizeOption("3.5x2", "Standard US (3.5\" × 2\")", 3.5, 2.0, "in"),
    PrintSizeOption("3.5x2.5", "European (3.5\" × 2.5\")", 3.5, 2.5, "in"),
    PrintSizeOption("3x2", "Slim (3\" × 2\")", 3.0, 2.0, "in"),
    PrintSizeOption("2.5x2", "Square (2.5\" × 2\")", 2.5, 2.0, "in")
  ]

  /** `Array.prototype.find` as an index: the first entry whose value is `size`,
      or `|table|` when there is none. */
  function FindIndex(table: seq<PrintSizeOption>, size: string): (i: nat)
    ensures i <= |table|
    ensures i < |table| ==> table[i].value == size
    ensures forall j :: 0 <= j < i ==> table[j].value != size
  {
    if table == [] then 0
    else if table[0].value == size then 0
    else 1 + FindIndex(table[1..], size)
  }

  /** `getPrintSize`: the entry for `size`, or the first entry when none matches. */
  function GetPrintSize(size: string): (r: PrintSizeOption)
    ensures r in Table
    ensures (exists j :: 0 <= j < |Table| && Table[j].value == size) ==> r.value == size
    ensures (forall j :: 0 <= j < |Table| ==> Table[j].value != size) ==> r == Table[0]
  {
    var i := FindIndex(Table, size);
    if i < |Table| then Table[i] else Table[0]
  }

  /** Every value of the `PrintSize` type is in the table, so the fallback is
      never taken for a well-typed argument. */
  lemma GetPrintSizeOfPrintSize(p: PrintSize)
    ensures GetPrintSize(PrintSizeValue(p)).value == PrintSizeValue(p)
  {
    match p
    case Size35x2 => assert Table[0].value == PrintSizeValue(p);
    case Size35x25 => assert Table[1].value == PrintSizeValue(p);
    case Size3x2 => assert Table[2].value == PrintSizeValue(p);
    case Size25x2 => assert Table[3].value == PrintSizeValue(p);
  }

  /** The values in the table are pairwise distinct: each size occurs once. */
  lemma TableValuesDistinct()
    ensures forall i, j :: 0 <= i < j < |Table| ==> Table[i].value != Table[j].value
  {
  }

  /** A string that is no size's value falls back to the Standard US entry. */
  lemma GetPrintSizeFallback(size: string)
    requires forall p: PrintSize :: PrintSizeValue(p) != size
    ensures GetPrintSize(size) == Table[0]
    ensures GetPrintSize(size).width == 3.5 && GetPrintSize(size).height == 2.0
  {
    assert PrintSizeValue(Size35x2) == Table[0].value;
    assert PrintSizeValue(Size35x25) == Table[1].value;
    assert PrintSizeValue(Size3x2) == Table[2].value;
    assert PrintSizeValue(Size25x2) == Table[3].value;
  }

  /** Every entry is measured in inches and is in landscape orientation. */
  lemma TableEntriesLandscape()
    ensures forall i :: 0 <= i < |Table| ==> Table[i].unit == "in" && Table[i].width >= Table[i].height > 0.0
  {
  }

  /** `Math.round` on a non-negative or negative number: ties go up. */
  function Round(x: real): int {
    (x + 0.5).Floor
  }

  /** `inchesToPixels`: the nearest whole number of 300-DPI pixels. */
  function InchesToPixels(inches: real): (px: int)
    ensures px as real - 0.5 <= inches * 300.0 < px as real + 0.5
  {
    Round(inches * 300.0)
  }

  lemma InchesToPixelsMonotone(a: real, b: real)
    requires a <= b
    ensures InchesToPixels(a) <= InchesToPixels(b)
  {
  }

  /** A whole number of pixels is its own rounding. */
  lemma RoundOfWhole(n: int)
    ensures Round(n as real) == n
  {
  }

  lemma InchesToPixelsStandardWidth()
    ensures InchesToPixels(3.5) == 1050
  {
    RoundOfWhole(1050);
  }
}
