/** Print-ready PDF export (src/utils/exportPDFProfessional.ts): the page
    geometry for a print size, the eight crop marks, and the sequence of pages
    and files the two exporters produce. The PDF library is modelled by the
    state it accumulates: a list of pages, each holding the images placed on it
    and the line segments drawn on it. Capturing an element is abstracted to a
    snapshot token that records which element was captured at which pixel size. */
module PdfExport {
  import opened Types
  import opened PrintSizes

  /** Rendering resolution, in dots per inch. */
  const Dpi: real := 300.0
  /** The bleed around the trim box, in inches. */
  const Bleed: real := 0.125
  /** How far a crop mark reaches outward from the trim corner. */
  const MarkLength: real := 0.125
  /** How far a crop mark reaches inward, past the trim corner. */
  const MarkInward: real := 0.01

  datatype Extent = Extent(width: real, height: real)
  datatype PixelExtent = PixelExtent(width: int, height: int)
  datatype Pixels = Pixels(width: int, height: int, trim: PixelExtent)
  datatype PdfDimensions = PdfDimensions(width: real, height: real, bleed: real, trim: Extent, pixels: Pixels)

  /** The trim size of each print size, in inches. */
  function TrimDimensions(size: PrintSize): (e: Extent)
    ensures e.width >= e.height > 0.0
  {
    match size
    case Size35x2 => Extent(3.5, 2.0)
    case Size35x25 => Extent(3.5, 2.5)
    case Size3x2 => Extent(3.0, 2.0)
    case Size25x2 => Extent(2.5, 2.0)
  }

  /** `getPDFDimensions`: the page is the trim box grown by the bleed on every
      side, and both boxes are also given in whole pixels at 300 DPI. */
  function GetPdfDimensions(size: PrintSize): (d: PdfDimensions)
    ensures d.trim == TrimDimensions(size) && d.bleed == Bleed
    ensures d.width == d.trim.width + 2.0 * d.bleed && d.height == d.trim.height + 2.0 * d.bleed
    ensures d.pixels.width == Round(d.width * Dpi) && d.pixels.height == Round(d.height * Dpi)
    ensures d.pixels.trim == PixelExtent(Round(d.trim.width * Dpi), Round(d.trim.height * Dpi))
  {
    var trim := TrimDimensions(size);
    var trimPixels := PixelExtent(Round(trim.width * Dpi), Round(trim.height * Dpi));
    var fullPixels := PixelExtent(Round((trim.width + Bleed * 2.0) * Dpi), Round((trim.height + Bleed * 2.0) * Dpi));
    PdfDimensions(trim.width + Bleed * 2.0, trim.height + Bleed * 2.0, Bleed,
      trim, Pixels(fullPixels.width, fullPixels.height, trimPixels))
  }

  /** The trim sizes agree with the entries of the print-size table. */
  lemma TrimMatchesTable(size: PrintSize)
    ensures GetPrintSize(PrintSizeValue(size)).width == TrimDimensions(size).width
    ensures GetPrintSize(PrintSizeValue(size)).height == TrimDimensions(size).height
  {
    match size
    case Size35x2 => assert Table[0].value == PrintSizeValue(size);
    case Size35x25 => assert Table[1].value == PrintSizeValue(size);
    case Size3x2 => assert Table[2].value == PrintSizeValue(size);
    case Size25x2 => assert Table[3].value == PrintSizeValue(size);
  }

  /** A length that is a whole number of pixels gains exactly 75 pixels (two
      eighths of an inch) when the bleed is added on both sides. */
  lemma PixelMargin(x: real, n: int)
    requires x * Dpi == n as real
    ensures Round((x + Bleed * 2.0) * Dpi) == Round(x * Dpi) + 75
  {
    assert (x + Bleed * 2.0) * Dpi == (n + 75) as real;
    RoundOfWhole(n);
    RoundOfWhole(n + 75);
  }

  /** For every size the full pixel box exceeds the trim pixel box by 75 on each axis. */
  lemma BleedAddsSeventyFivePixels(size: PrintSize)
    ensures GetPdfDimensions(size).pixels.width == GetPdfDimensions(size).pixels.trim.width + 75
    ensures GetPdfDimensions(size).pixels.height == GetPdfDimensions(size).pixels.trim.height + 75
  {
    var trim := TrimDimensions(size);
    match size
    case Size35x2 => PixelMargin(trim.width, 1050); PixelMargin(trim.height, 600);
    case Size35x25 => PixelMargin(trim.width, 1050); PixelMargin(trim.height, 750);
    case Size3x2 => PixelMargin(trim.width, 900); PixelMargin(trim.height, 600);
    case Size25x2 => PixelMargin(trim.width, 750); PixelMargin(trim.height, 600);
  }

  /** The standard US card: 1050 × 600 pixels trimmed, 1125 × 675 with bleed. */
  lemma StandardCardPixels()
    ensures GetPdfDimensions(Size35x2).pixels.trim == PixelExtent(1050, 600)
    ensures GetPdfDimensions(Size35x2).pixels.width == 1125 && GetPdfDimensions(Size35x2).pixels.height == 675
  {
    RoundOfWhole(1050);
    RoundOfWhole(600);
    BleedAddsSeventyFivePixels(Size35x2);
  }

  // ---------------------------------------------------------------- crop marks

  datatype Point = Point(x: real, y: real)
  datatype Segment = Segment(x1: real, y1: real, x2: real, y2: real)

  /** The eight crop marks of `addPageWithCropMarks`, in the order they are
      drawn: top-left, top-right, bottom-left, bottom-right, horizontal first. */
  function CropMarks(d: PdfDimensions): (marks: seq<Segment>)
    ensures |marks| == 8
    ensures forall i :: 0 <= i < |marks| ==> marks[i].x1 == marks[i].x2 || marks[i].y1 == marks[i].y2
  {
    var b, w, h := d.bleed, d.width, d.height;
    [ Segment(b - MarkLength, b, b + MarkInward, b),
      Segment(b, b - MarkLength, b, b + MarkInward),
      Segment(w - b - MarkInward, b, w - b + MarkLength, b),
      Segment(w - b, b - MarkLength, w - b, b + MarkInward),
      Segment(b - MarkLength, h - b, b + MarkInward, h - b),
      Segment(b, h - b - MarkInward, b, h - b + MarkLength),
      Segment(w - b - MarkInward, h - b, w - b + MarkLength, h - b),
      Segment(w - b, h - b - MarkInward, w - b, h - b + MarkLength) ]
  }

  /** The corners of the trim box, in drawing order. */
  function TrimCorners(d: PdfDimensions): (c: seq<Point>)
    ensures |c| == 4
  {
    var b, w, h := d.bleed, d.width, d.height;
    [Point(b, b), Point(w - b, b), Point(b, h - b), Point(w - b, h - b)]
  }

  /** The outward direction of each corner along x and along y. */
  const OutwardX: seq<real> := [-1.0, 1.0, -1.0, 1.0]
  const OutwardY: seq<real> := [-1.0, -1.0, 1.0, 1.0]

  /** A horizontal segment through corner `c` that reaches `MarkLength` outward
      (direction `out`) and `MarkInward` inward. */
  predicate HorizontalMark(s: Segment, c: Point, out: real) {
    s.y1 == c.y && s.y2 == c.y &&
    {s.x1, s.x2} == {c.x + out * MarkLength, c.x - out * MarkInward}
  }

  predicate VerticalMark(s: Segment, c: Point, out: real) {
    s.x1 == c.x && s.x2 == c.x &&
    {s.y1, s.y2} == {c.y + out * MarkLength, c.y - out * MarkInward}
  }

  /** Two marks per trim corner, one horizontal and one vertical, each through
      the corner, reaching outward by the mark length and inward by 0.01 in. */
  lemma CropMarksAtCorners(d: PdfDimensions)
    ensures forall k :: 0 <= k < 4 ==>
      HorizontalMark(CropMarks(d)[2 * k], TrimCorners(d)[k], OutwardX[k]) &&
      VerticalMark(CropMarks(d)[2 * k + 1], TrimCorners(d)[k], OutwardY[k])
  {
    var m, c := CropMarks(d), TrimCorners(d);
    assert HorizontalMark(m[0], c[0], OutwardX[0]) && VerticalMark(m[1], c[0], OutwardY[0]);
    assert HorizontalMark(m[2], c[1], OutwardX[1]) && VerticalMark(m[3], c[1], OutwardY[1]);
    assert HorizontalMark(m[4], c[2], OutwardX[2]) && VerticalMark(m[5], c[2], OutwardY[2]);
    assert HorizontalMark(m[6], c[3], OutwardX[3]) && VerticalMark(m[7], c[3], OutwardY[3]);
  }

  predicate OnPage(d: PdfDimensions, x: real, y: real) {
    0.0 <= x <= d.width && 0.0 <= y <= d.height
  }

  predicate OnPageEdge(d: PdfDimensions, x: real, y: real) {
    x == 0.0 || x == d.width || y == 0.0 || y == d.height
  }

  /** Dimensions whose bleed equals the mark length and whose page leaves room
      for the inward reach of every mark. */
  predicate FitsMarks(d: PdfDimensions) {
    d.bleed == MarkLength && d.width >= d.bleed + MarkInward && d.height >= d.bleed + MarkInward
  }

  /** Every mark lies on the page, and since the mark length equals the bleed,
      each one's outer end lies on the page edge. */
  lemma CropMarksOnPage(d: PdfDimensions)
    requires FitsMarks(d)
    ensures forall s :: s in CropMarks(d) ==> OnPage(d, s.x1, s.y1) && OnPage(d, s.x2, s.y2)
    ensures forall s :: s in CropMarks(d) ==> OnPageEdge(d, s.x1, s.y1) || OnPageEdge(d, s.x2, s.y2)
  {
  }

  lemma DimensionsFitMarks(size: PrintSize)
    ensures FitsMarks(GetPdfDimensions(size))
  {
  }

  // ------------------------------------------------------------- the document

  /** A captured image: which element, at which pixel size. */
  datatype Snapshot = Snapshot(element: nat, width: int, height: int)

  /** `captureElementAtExactSize` followed by `toDataURL`. */
  function Capture(element: nat, width: int, height: int): (img: Snapshot)
    ensures img.element == element && img.width == width && img.height == height
  {
    Snapshot(element, width, height)
  }

  datatype Placement = Placement(image: Snapshot, x: real, y: real, width: real, height: real)
  datatype Page = Page(width: real, height: real, images: seq<Placement>, lines: seq<Segment>)

  function Max(a: real, b: real): real { if a < b then b else a }
  function Min(a: real, b: real): real { if a < b then a else b }

  /** A landscape PDF document in inches. */
  class PdfDocument {
    var pageWidth: real
    var pageHeight: real
    var pages: seq<Page>
    var saves: seq<string>

    predicate Valid()
      reads this
    {
      |pages| >= 1
    }

    function LastPage(): Page
      reads this
      requires Valid()
    {
      pages[|pages| - 1]
    }

    /** A landscape document: the longer side of the format is the width. It
        starts with one blank page. */
    constructor Landscape(format0: real, format1: real)
      ensures Valid()
      ensures pageWidth == Max(format0, format1) && pageHeight == Min(format0, format1)
      ensures pages == [Page(pageWidth, pageHeight, [], [])] && saves == []
    {
      pageWidth := Max(format0, format1);
      pageHeight := Min(format0, format1);
      pages := [Page(Max(format0, format1), Min(format0, format1), [], [])];
      saves := [];
    }

    method AddPage()
      requires Valid()
      modifies this
      ensures Valid() && pageWidth == old(pageWidth) && pageHeight == old(pageHeight) && saves == old(saves)
      ensures pages == old(pages) + [Page(pageWidth, pageHeight, [], [])]
    {
      pages := pages + [Page(pageWidth, pageHeight, [], [])];
    }

    method AddImage(image: Snapshot, x: real, y: real, width: real, height: real)
      requires Valid()
      modifies this
      ensures Valid() && pageWidth == old(pageWidth) && pageHeight == old(pageHeight) && saves == old(saves)
      ensures pages == old(pages[..|pages| - 1]) +
        [old(LastPage()).(images := old(LastPage()).images + [Placement(image, x, y, width, height)])]
    {
      var last := LastPage();
      pages := pages[..|pages| - 1] + [last.(images := last.images + [Placement(image, x, y, width, height)])];
    }

    method Line(x1: real, y1: real, x2: real, y2: real)
      requires Valid()
      modifies this
      ensures Valid() && pageWidth == old(pageWidth) && pageHeight == old(pageHeight) && saves == old(saves)
      ensures pages == old(pages[..|pages| - 1]) + [old(LastPage()).(lines := old(LastPage()).lines + [Segment(x1, y1, x2, y2)])]
    {
      var last := LastPage();
      pages := pages[..|pages| - 1] + [last.(lines := last.lines + [Segment(x1, y1, x2, y2)])];
    }

    method Save(fileName: string)
      modifies this
      ensures pageWidth == old(pageWidth) && pageHeight == old(pageHeight) && pages == old(pages)
      ensures saves == old(saves) + [fileName]
    {
      saves := saves + [fileName];
    }
  }

  /** What `addPageWithCropMarks` makes of the current page: the image over the
      whole page, then the eight crop marks. */
  function MarkedPage(p: Page, image: Snapshot, d: PdfDimensions): (q: Page)
    ensures q.width == p.width && q.height == p.height
    ensures q.images == p.images + [Placement(image, 0.0, 0.0, d.width, d.height)]
    ensures q.lines == p.lines + CropMarks(d)
  {
    p.(images := p.images + [Placement(image, 0.0, 0.0, d.width, d.height)], lines := p.lines + CropMarks(d))
  }

  /** After the first `k` crop marks: the earlier pages are `before` and the
      current page is `page` with those marks added. */
  ghost predicate DrawnSoFar(pages: seq<Page>, before: seq<Page>, page: Page, marks: seq<Segment>, k: nat)
    requires k <= |marks|
  {
    |pages| >= 1 && pages[..|pages| - 1] == before && pages[|pages| - 1] == page.(lines := page.lines + marks[..k])
  }

  /** Drawing the next crop mark extends what has been drawn by one. */
  lemma DrawnStep(pages: seq<Page>, after: seq<Page>, before: seq<Page>, page: Page, marks: seq<Segment>, k: nat)
    requires k < |marks| && DrawnSoFar(pages, before, page, marks, k)
    requires after == pages[..|pages| - 1] + [pages[|pages| - 1].(lines := pages[|pages| - 1].lines + [marks[k]])]
    ensures DrawnSoFar(after, before, page, marks, k + 1)
  {
    assert marks[..k + 1] == marks[..k] + [marks[k]];
    assert after[..|after| - 1] == pages[..|pages| - 1];
  }

  /** `addPageWithCropMarks`: places the image on the current page and draws the
      crop marks on it; earlier pages are untouched. The two text labels are not
      modelled. */
  method AddPageWithCropMarks(pdf: PdfDocument, image: Snapshot, d: PdfDimensions)
    requires pdf.Valid()
    modifies pdf
    ensures pdf.Valid() && pdf.pageWidth == old(pdf.pageWidth) && pdf.pageHeight == old(pdf.pageHeight)
    ensures pdf.saves == old(pdf.saves)
    ensures pdf.pages == old(pdf.pages[..|pdf.pages| - 1]) + [MarkedPage(old(pdf.LastPage()), image, d)]
  {
    var before := pdf.pages[..|pdf.pages| - 1];
    var first := pdf.LastPage();
    var marks := CropMarks(d);
    pdf.AddImage(image, 0.0, 0.0, d.width, d.height);
    var imaged := pdf.LastPage();
    assert DrawnSoFar(pdf.pages, before, imaged, marks, 0);
    var b, w, h := d.bleed, d.width, d.height;
    ghost var ps := pdf.pages;
    pdf.Line(b - MarkLength, b, b + MarkInward, b);
    DrawnStep(ps, pdf.pages, before, imaged, marks, 0);
    ps := pdf.pages;
    pdf.Line(b, b - MarkLength, b, b + MarkInward);
    DrawnStep(ps, pdf.pages, before, imaged, marks, 1);
    ps := pdf.pages;
    pdf.Line(w - b - MarkInward, b, w - b + MarkLength, b);
    DrawnStep(ps, pdf.pages, before, imaged, marks, 2);
    ps := pdf.pages;
    pdf.Line(w - b, b - MarkLength, w - b, b + MarkInward);
    DrawnStep(ps, pdf.pages, before, imaged, marks, 3);
    ps := pdf.pages;
    pdf.Line(b - MarkLength, h - b, b + MarkInward, h - b);
    DrawnStep(ps, pdf.pages, before, imaged, marks, 4);
    ps := pdf.pages;
    pdf.Line(b, h - b - MarkInward, b, h - b + MarkLength);
    DrawnStep(ps, pdf.pages, before, imaged, marks, 5);
    ps := pdf.pages;
    pdf.Line(w - b - MarkInward, h - b, w - b + MarkLength, h - b);
    DrawnStep(ps, pdf.pages, before, imaged, marks, 6);
    ps := pdf.pages;
    pdf.Line(w - b, h - b - MarkInward, w - b, h - b + MarkLength);
    DrawnStep(ps, pdf.pages, before, imaged, marks, 7);
    assert marks[..8] == marks;
    assert pdf.pages == before + [MarkedPage(first, image, d)];
  }

  /** The page a side takes in the combined export: a full-bleed page holding
      the side's full-size capture and the crop marks. */
  function BleedPage(size: PrintSize, element: nat): (p: Page)
  {
    var d := GetPdfDimensions(size);
    MarkedPage(Page(d.width, d.height, [], []), Capture(element, d.pixels.width, d.pixels.height), d)
  }

  /** The pages of the combined export: the front, then the back when there is one. */
  function CombinedPages(size: PrintSize, front: nat, back: Option<nat>): (ps: seq<Page>)
  {
    [BleedPage(size, front)] + (if back.Some? then [BleedPage(size, back.value)] else [])
  }

  /** `exportToPDFProfessional`: one bleed-sized document, front page first,
      back page second when a back element is given, saved once. */
  method ExportToPdfProfessional(front: nat, back: Option<nat>, size: PrintSize, fileName: string)
    returns (pdf: PdfDocument)
    ensures fresh(pdf) && pdf.Valid()
    ensures pdf.pages == CombinedPages(size, front, back)
    ensures pdf.saves == [fileName]
  {
    var d := GetPdfDimensions(size);
    pdf := new PdfDocument.Landscape(d.height, d.width);
    AddPageWithCropMarks(pdf, Capture(front, d.pixels.width, d.pixels.height), d);
    if back.Some? {
      pdf.AddPage();
      AddPageWithCropMarks(pdf, Capture(back.value, d.pixels.width, d.pixels.height), d);
    }
    pdf.Save(fileName);
  }

  /** One page without a back, two with one; each page is the bleed size, carries
      the eight crop marks, and shows the front first and the back second. */
  lemma CombinedPagesShape(size: PrintSize, front: nat, back: Option<nat>)
    ensures |CombinedPages(size, front, back)| == if back.Some? then 2 else 1
    ensures CombinedPages(size, front, back)[0].images[0].image.element == front
    ensures back.Some? ==> CombinedPages(size, front, back)[1].images[0].image.element == back.value
    ensures forall p :: p in CombinedPages(size, front, back) ==>
      p.width == GetPdfDimensions(size).width && p.height == GetPdfDimensions(size).height &&
      p.lines == CropMarks(GetPdfDimensions(size)) && |p.images| == 1 &&
      p.images[0].image.width == GetPdfDimensions(size).pixels.width &&
      p.images[0].image.height == GetPdfDimensions(size).pixels.height
  {
  }

  /** A separately saved side: a trim-sized page holding the trim-size capture,
      without crop marks. */
  function TrimPage(size: PrintSize, element: nat): (p: Page)
  {
    var d := GetPdfDimensions(size);
    Page(d.trim.width, d.trim.height,
      [Placement(Capture(element, d.pixels.trim.width, d.pixels.trim.height), 0.0, 0.0, d.trim.width, d.trim.height)], [])
  }

  /** One side as its own document, saved under `fileName`. */
  method ExportSide(element: nat, size: PrintSize, fileName: string) returns (pdf: PdfDocument)
    ensures fresh(pdf) && pdf.pages == [TrimPage(size, element)] && pdf.saves == [fileName]
  {
    var d := GetPdfDimensions(size);
    pdf := new PdfDocument.Landscape(d.trim.height, d.trim.width);
    assert pdf.pages == [Page(d.trim.width, d.trim.height, [], [])];
    pdf.AddImage(Capture(element, d.pixels.trim.width, d.pixels.trim.height), 0.0, 0.0, d.trim.width, d.trim.height);
    assert pdf.pages[0].images == [Placement(Capture(element, d.pixels.trim.width, d.pixels.trim.height), 0.0, 0.0, d.trim.width, d.trim.height)];
    assert pdf.pages == [TrimPage(size, element)];
    pdf.Save(fileName);
  }

  /** `exportSeparateSides`: `<base>-front.pdf`, then `<base>-back.pdf` only when
      a back element is given; each holds one trim-sized page. */
  method ExportSeparateSides(front: nat, back: Option<nat>, size: PrintSize, fileBaseName: string)
    returns (files: seq<PdfDocument>)
    ensures |files| == if back.Some? then 2 else 1
    ensures forall f :: f in files ==> fresh(f)
    ensures files[0].pages == [TrimPage(size, front)] && files[0].saves == [fileBaseName + "-front.pdf"]
    ensures back.Some? ==> files[1].pages == [TrimPage(size, back.value)] && files[1].saves == [fileBaseName + "-back.pdf"]
  {
    var frontPdf := ExportSide(front, size, fileBaseName + "-front.pdf");
    files := [frontPdf];
    if back.Some? {
      var backPdf := ExportSide(back.value, size, fileBaseName + "-back.pdf");
      files := files + [backPdf];
    }
  }

  /** A separately saved page has exactly the trim size, and its capture the trim
      pixel size. */
  lemma TrimPageSize(size: PrintSize, element: nat)
    ensures TrimPage(size, element).width == TrimDimensions(size).width
    ensures TrimPage(size, element).height == TrimDimensions(size).height
    ensures TrimPage(size, element).lines == []
    ensures TrimPage(size, element).images[0].image == Snapshot(element, InchesToPixels(TrimDimensions(size).width), InchesToPixels(TrimDimensions(size).height))
  {
  }
}
