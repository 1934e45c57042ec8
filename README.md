# bizcard core, modelled in Dafny

bizcard is a browser application that turns a person's contact details into a
printable business card, a digital card and an e-mail signature. This project
models the parts of it that carry logic:

- the input sanitisers for text, URLs, e-mail addresses, phone numbers,
  image data URLs and display text;
- the print sizes and the inches-to-pixels conversion at 300 DPI;
- the professional PDF export: page dimensions with a 1/8 inch bleed, the
  eight crop marks, and the pages a PDF document receives for a combined
  export and for separate front/back files;
- the parts of the canvas renderer that compute: greedy word wrapping, social
  handle extraction, the font fallback and the front/back render plan;
- the WCAG contrast checker: contrast ratio, conformance level, black or
  white text, and palette correction;
- palette generation: hex validation and normalisation, the random
  "harmonious" palettes and the six presets;
- the palette picker component's state: the random palettes, the four custom
  slots and the palettes it hands on;
- the recommended image sizes per template;
- the links that the e-mail signature templates and the digital card formats
  render, including the `safeHref` and `normalizeUrl` guards;
- the font-size slider's labels.

Modules: `Types` (the records), `Text` (the string helpers that JavaScript
supplies: trim, ASCII lower-casing, prefixes, decimal printing), then one module
per source file. Strings are `seq<char>`. Lengths and inches are `real`, so the
arithmetic is exact. `Math.round` is `Round(x) = floor(x + 0.5)`. Things the
model cannot see are parameters:

- `measure(text)` is the canvas text width;
- `lum(color)` is the relative luminance;
- `draw(i)` is the i-th `Math.random()`;
- `hsl(h, s, l)` is `hslToHex`.

DOM captures are `Snapshot` values that record which element was captured and
at what size. The jsPDF document is the class `PdfExport.PdfDocument`, which
records its pages, the images and lines drawn on each page, and the file names
it was saved under.

Behaviours of the code that the model keeps:

- `exportSeparateSides` writes two independent files. The model returns the
  front document and, only when there is a back, a second document, each with
  its own pages and saves.
- `getFontFamily` treats an empty font name like a missing one, because the
  empty string is falsy in JavaScript.
- `sanitizeURL` removes one listed dangerous scheme (`javascript:`, `data:`,
  `vbscript:`, `file:`) and then at most one further non-http scheme, so a third
  scheme (`javascript:javascript:javascript:alert(1)`) or a second one behind
  `mailto:` survives (see Findings).

## Model

| member | source | states |
|---|---|---|
| Sanitize.StripTagsIsTagFree | src/utils/sanitize.ts:11 | removing `<…>` runs leaves no `<` followed later by `>` |
| Sanitize.StripTagsOfTagFree | src/utils/sanitize.ts:11 | tag removal leaves tag-free text unchanged |
| Sanitize.SanitizeTextMarkup | src/utils/sanitize.ts:7-23 | `sanitizeText` output is tag-free and no longer than its input (tags, `javascript:` and `on…=` handlers removed case-insensitively); this is the text before the entity decoding and the final trim |
| Sanitize.SanitizeUrl | src/utils/sanitize.ts:29-52 | `sanitizeURL` output is trimmed and tag-free |
| Sanitize.HttpIsNotDangerous | src/utils/sanitize.ts:38-49 | an `http:`/`https:` URL is neither cut as a dangerous scheme nor treated as a foreign scheme |
| Sanitize.SanitizeUrlKeepsHttp | src/utils/sanitize.ts:29-52 | a trimmed, tag-free http(s) URL passes through unchanged |
| SanitizeUrlCases.SanitizeUrlFromSteps | src/utils/sanitize.ts:29-52 | the result is the trimmed string left after the dangerous-scheme and foreign-scheme steps, when the first steps change nothing |
| SanitizeUrlCases.SanitizeUrlDropsJavascript | src/utils/sanitize.ts:38 | `javascript:` + u becomes u |
| SanitizeUrlCases.SanitizeUrlDropsMailto | src/utils/sanitize.ts:44-49 | `mailto:` + u becomes u |
| SanitizeUrlCases.SanitizeUrlLeavesSecondScheme | src/utils/sanitize.ts:44-49 | as written: `mailto:` + u keeps a second scheme inside u |
| SanitizeUrlCases.JavascriptAlertIsForeign | src/utils/sanitize.ts:44-49 | `javascript:alert(1)` is trimmed, tag-free and itself has a foreign scheme, so it witnesses the finding |
| Sanitize.SanitizeUrlStrict | src/utils/sanitize.ts:44-49 | corrected: repeating the scheme strip leaves no non-http scheme; the output is trimmed and tag-free |
| Sanitize.SanitizeUrlStrictKeepsHttp | src/utils/sanitize.ts:29-52 | the corrected sanitiser still passes clean http(s) URLs unchanged |
| Sanitize.SanitizeEmail | src/utils/sanitize.ts:58-79 | `sanitizeEmail` output has no upper-case ASCII letter, no whitespace and no tag |
| Sanitize.SanitizeEmailIdempotent | src/utils/sanitize.ts:58-79 | sanitising an e-mail twice is sanitising it once |
| Sanitize.SanitizePhone | src/utils/sanitize.ts:85-97 | `sanitizePhone` output holds only digits, whitespace (every character JavaScript's `\s` matches), `.` and `+-()`; it is trimmed and tag-free |
| Sanitize.SanitizePhoneIdempotent | src/utils/sanitize.ts:85-97 | sanitising a phone number twice is sanitising it once |
| Sanitize.IsValidImageDataUrlIff | src/utils/sanitize.ts:103-120 | a data URL is accepted exactly when it starts with `data:image/` followed by one of the six listed subtypes |
| Sanitize.SanitizeDisplayText | src/utils/sanitize.ts:126-138 | `sanitizeDisplayText` output contains none of `< > " '` |
| Sanitize.EscapeChainIsEscape | src/utils/sanitize.ts:131-136 | the five chained replacements, `&` first, equal escaping each character once |
| Sanitize.SanitizeDisplayTextRoundTrip | src/utils/sanitize.ts:126-138 | decoding the entities of the output gives back the trimmed input |
| Sanitize.EmptyInput | src/utils/sanitize.ts:8 | every sanitiser maps `""` to `""`; the data-URL check rejects `""` |
| PrintSizes.FindIndex | src/utils/printSizes.ts:35 | the index of the first entry with the value, or the table length |
| PrintSizes.GetPrintSize | src/utils/printSizes.ts:34-36 | the result is a table entry; it has the requested value when one exists, otherwise it is the first entry |
| PrintSizes.GetPrintSizeOfPrintSize | src/utils/printSizes.ts:3-36 | every size id finds its own entry |
| PrintSizes.TableValuesDistinct | src/utils/printSizes.ts:3-32 | no two entries share a value |
| PrintSizes.GetPrintSizeFallback | src/utils/printSizes.ts:35 | an unknown id falls back to 3.5 × 2 inches |
| PrintSizes.TableEntriesLandscape | src/utils/printSizes.ts:3-32 | every entry is in inches and in landscape orientation |
| PrintSizes.InchesToPixels | src/utils/printSizes.ts:39-41 | the pixel count is within half a pixel of inches × 300 |
| PrintSizes.InchesToPixelsMonotone | src/utils/printSizes.ts:39-41 | more inches never give fewer pixels |
| PrintSizes.InchesToPixelsStandardWidth | src/utils/printSizes.ts:39-41 | 3.5 inches are 1050 pixels |
| PdfExport.TrimDimensions | src/utils/exportPDFProfessional.ts:315-319 | every trim size is landscape and positive |
| PdfExport.TrimMatchesTable | src/utils/exportPDFProfessional.ts:315-319 | the export's trim sizes agree with the print-size table |
| PdfExport.GetPdfDimensions | src/utils/exportPDFProfessional.ts:308-345 | the page is the trim plus 1/8 inch of bleed on each side; the pixel sizes are the rounded sizes at 300 DPI |
| PdfExport.PixelMargin | src/utils/exportPDFProfessional.ts:323-332 | adding the bleed to a whole number of pixels adds exactly 75 pixels |
| PdfExport.BleedAddsSeventyFivePixels | src/utils/exportPDFProfessional.ts:323-332 | for every size, the bleed page is 75 pixels wider and taller than its trim |
| PdfExport.StandardCardPixels | src/utils/exportPDFProfessional.ts:308-345 | the 3.5 × 2 card is 1050 × 600 at trim and 1125 × 675 with bleed |
| PdfExport.CropMarks | src/utils/exportPDFProfessional.ts:269-289 | eight axis-parallel segments |
| PdfExport.CropMarksAtCorners | src/utils/exportPDFProfessional.ts:269-289 | each trim corner gets one horizontal and one vertical mark through it, reaching 0.125 inch outward and 0.01 inch inward |
| PdfExport.CropMarksOnPage | src/utils/exportPDFProfessional.ts:269-289 | when the bleed is wide enough, every mark lies on the page and touches its edge |
| PdfExport.DimensionsFitMarks | src/utils/exportPDFProfessional.ts:308-345 | all four print sizes are wide enough for the marks |
| PdfExport.PdfDocument.Landscape | src/utils/exportPDFProfessional.ts:38-42 | a landscape document whose one empty page has the longer side as its width |
| PdfExport.PdfDocument.AddPage | src/utils/exportPDFProfessional.ts:55 | appends an empty page of the document's size |
| PdfExport.PdfDocument.AddImage | src/utils/exportPDFProfessional.ts:254-263 | places the image on the last page and changes nothing else |
| PdfExport.PdfDocument.Line | src/utils/exportPDFProfessional.ts:271-289 | draws a segment on the last page and changes nothing else |
| PdfExport.PdfDocument.Save | src/utils/exportPDFProfessional.ts:65 | records the file name and leaves the pages alone |
| PdfExport.Capture | src/utils/exportPDFProfessional.ts:146-242 | a capture of an element at the requested pixel size |
| PdfExport.MarkedPage | src/utils/exportPDFProfessional.ts:247-303 | the page gains the full-bleed image and the eight crop marks |
| PdfExport.DrawnStep | src/utils/exportPDFProfessional.ts:269-289 | drawing one more mark extends the marks drawn so far by one |
| PdfExport.AddPageWithCropMarks | src/utils/exportPDFProfessional.ts:247-303 | only the last page changes, and it becomes the marked page |
| PdfExport.ExportToPdfProfessional | src/utils/exportPDFProfessional.ts:28-70 | a fresh document holding exactly the combined pages, saved once under the given name |
| PdfExport.CombinedPagesShape | src/utils/exportPDFProfessional.ts:45-63 | one page, or two with a back; the front capture comes first; every page is the bleed size with image and marks |
| PdfExport.ExportSide | src/utils/exportPDFProfessional.ts:85-107 | a fresh trim-size document with one page, saved once |
| PdfExport.ExportSeparateSides | src/utils/exportPDFProfessional.ts:75-141 | the front file `-front.pdf`, plus the back file `-back.pdf` when there is a back, each with its side's trim page |
| PdfExport.TrimPageSize | src/utils/exportPDFProfessional.ts:85-107 | a separate-side page is the trim size with no crop marks, and its capture is the trim size in pixels |
| CanvasRenderer.Split | src/utils/canvasRenderer.ts:214 | splitting on single spaces yields at least one word with no space in any word |
| CanvasRenderer.SplitJoin | src/utils/canvasRenderer.ts:214 | joining the split words with spaces gives back the text |
| CanvasRenderer.SplitSingleSpaced | src/utils/canvasRenderer.ts:214 | a text without leading, trailing or double spaces splits into non-empty words |
| CanvasRenderer.WrapTextToLines | src/utils/canvasRenderer.ts:209-235 | the loop computes the greedy wrap of the split words |
| CanvasRenderer.WrapPrefixInvariant | src/utils/canvasRenderer.ts:218-228 | every loop step keeps the lines non-empty and keeps multi-word lines within the width |
| CanvasRenderer.WrapLinesShape | src/utils/canvasRenderer.ts:209-235 | no line is empty; a line with a space fits the width; there are no more lines than words |
| CanvasRenderer.NextWordPrefix | src/utils/canvasRenderer.ts:218-228 | every loop step keeps this: a non-empty word that closed a line begins the line after it, or the line being built |
| CanvasRenderer.WrapLinesGreedy | src/utils/canvasRenderer.ts:220-226 | a line is closed only because the next word would overflow it, and that word begins the next line (alone, or followed by a space); the second clause is not claimed for an empty word, which a double space produces |
| CanvasRenderer.WrapEmptyText | src/utils/canvasRenderer.ts:230-232 | the empty text wraps to no lines |
| CanvasRenderer.WrapLinesJoin | src/utils/canvasRenderer.ts:209-235 | for single-spaced text, joining the lines with spaces gives back the text |
| CanvasRenderer.SegmentRun | src/utils/canvasRenderer.ts:241-256 | the longest prefix that contains no `/` or `?` |
| CanvasRenderer.MatchAlt | src/utils/canvasRenderer.ts:241-256 | the first alternative that matches here and is followed by a non-empty handle |
| CanvasRenderer.SearchFrom | src/utils/canvasRenderer.ts:241-256 | the leftmost position where the pattern matches, or past the end |
| CanvasRenderer.SearchFindsLeftmost | src/utils/canvasRenderer.ts:241-256 | a pattern that matches at a position and nowhere before it is found there |
| CanvasRenderer.SearchFindsNothing | src/utils/canvasRenderer.ts:241-256 | a pattern that matches at no position gives no match |
| CanvasRenderer.StripUrlPrefix | src/utils/canvasRenderer.ts:239 | `https://www.`, `http://www.`, `https://` or `http://` at the start is removed, the longest applicable one; a URL without the scheme, even one starting with `www.`, is kept whole |
| CanvasRenderer.ExtractHandle | src/utils/canvasRenderer.ts:237-263 | any other platform gets the cleaned URL; for a known platform the result is the cleaned URL or a non-empty handle without `/` or `?`, behind an `@` for Twitter/X and Instagram |
| CanvasRenderer.SearchFindsHandle | src/utils/canvasRenderer.ts:241-256 | the leftmost match, by the first alternative that fits there, captures the run up to the next `/` or `?` |
| CanvasRenderer.ExtractLinkedinHandle | src/utils/canvasRenderer.ts:241-244 | a `linkedin.com/in/` or `linkedin.com/company/` URL with any prefix gives the handle of its leftmost match |
| CanvasRenderer.ExtractTwitterHandle | src/utils/canvasRenderer.ts:245-248 | a `twitter.com/` or `x.com/` URL with any prefix gives `@` and the handle of its leftmost match |
| CanvasRenderer.ExtractInstagramHandle | src/utils/canvasRenderer.ts:249-252 | an `instagram.com/` URL with any prefix gives `@` and the handle of its leftmost match |
| CanvasRenderer.ExtractGithubHandle | src/utils/canvasRenderer.ts:253-256 | a `github.com/` URL with any prefix gives the handle of its leftmost match |
| CanvasRenderer.ExtractNoMatch | src/utils/canvasRenderer.ts:241-258 | when the platform's pattern matches nowhere, the cleaned URL is the result |
| CanvasRenderer.GetFontFamily | src/utils/canvasRenderer.ts:178-183 | a missing, empty or `system` font becomes the system stack; any other name is kept |
| CanvasRenderer.GetFontFamilyIdempotent | src/utils/canvasRenderer.ts:178-183 | the font is never empty, and resolving it again changes nothing |
| CanvasRenderer.PlanRender | src/utils/canvasRenderer.ts:6-40 | the back is drawn exactly when asked for, enabled and given back text; corners are clipped unless square, with radius round(1.5 % of the width); the background is the first colour |
| CanvasRenderer.FrontUnlessBackText | src/utils/canvasRenderer.ts:33-37 | without enabled back text the front is drawn |
| ContrastChecker.Ratio | src/utils/contrastChecker.ts:24-30 | the ratio is at least 1, and exactly 1 for equal luminances |
| ContrastChecker.GetContrastRatio | src/utils/contrastChecker.ts:24-30 | at least 1, and 1 exactly when both colours have the same luminance |
| ContrastChecker.ContrastRatioSymmetric | src/utils/contrastChecker.ts:24-30 | the order of the colours does not matter |
| ContrastChecker.RatioGrowsWithLighter | src/utils/contrastChecker.ts:24-30 | against a fixed darker colour, a lighter colour never lowers the ratio |
| ContrastChecker.CheckContrast | src/utils/contrastChecker.ts:33-55 | the result's ratio, its level, and passes exactly when the level is not Fail; `isLargeText` defaults to `false` |
| ContrastChecker.LevelThresholds | src/utils/contrastChecker.ts:40-51 | AAA iff ≥ 7, AA iff in [4.5, 7), AA18 iff large text in [3, 4.5); passing needs 4.5, or 3 for large text |
| ContrastChecker.LevelMonotone | src/utils/contrastChecker.ts:40-51 | a higher ratio never loses a level |
| ContrastChecker.GetBestTextColor | src/utils/contrastChecker.ts:58-62 | white or black; white exactly when it contrasts strictly more |
| ContrastChecker.BestTextColorIsBetter | src/utils/contrastChecker.ts:58-62 | the chosen colour contrasts at least as much as the other |
| ContrastChecker.BestTextColorPassesAA | src/utils/contrastChecker.ts:58-62 | with exact black and white luminances, the chosen colour always reaches 4.5:1 |
| ContrastChecker.EnsureAccessiblePalette | src/utils/contrastChecker.ts:65-80 | the method computes the corrected palette |
| ContrastChecker.AccessiblePaletteReadable | src/utils/contrastChecker.ts:65-80 | the text colour of a corrected palette reaches 4.5:1 on its background |
| ContrastChecker.AccessiblePaletteShape | src/utils/contrastChecker.ts:65-80 | short palettes are unchanged; only the text colour may change, and only to black or white |
| ContrastChecker.AccessiblePaletteIdempotent | src/utils/contrastChecker.ts:65-80 | correcting a corrected palette changes nothing |
| ColorGenerator.IsValidHexMatchesPattern | src/utils/colorGenerator.ts:46-48 | the validity test accepts exactly the strings `^#[0-9A-F]{6}$`/i matches |
| ColorGenerator.NormalizeColor | src/utils/colorGenerator.ts:51-53 | the result starts with `#`; a `#`-prefixed input is kept, any other gets `#` in front |
| ColorGenerator.NormalizeColorIdempotent | src/utils/colorGenerator.ts:51-53 | normalising twice is normalising once |
| ColorGenerator.NormalizeColorValid | src/utils/colorGenerator.ts:46-53 | the normalised colour is valid exactly when the input was valid or was six hex digits |
| ColorGenerator.BaseHue | src/utils/colorGenerator.ts:19 | a random number in [0, 1) gives a hue in [0, 360) |
| ColorGenerator.HarmoniousHues | src/utils/colorGenerator.ts:18-29 | four hues in [0, 360): the base, +30, +180 and +60 degrees |
| ColorGenerator.HarmoniousColors | src/utils/colorGenerator.ts:18-29 | four colours |
| ColorGenerator.GenerateRandomPalettes | src/utils/colorGenerator.ts:4-15 | the loop builds the list of `count` palettes |
| ColorGenerator.RandomPalettesShape | src/utils/colorGenerator.ts:4-15 | `count` palettes (none for a negative count), the i-th with id `palette-i`, four colours and no name; the ids are distinct |
| ColorGenerator.PresetPalettesShape | src/utils/colorGenerator.ts:56-87 | six named palettes of four colours with distinct ids |
| ColorGenerator.PresetColorsValid | src/utils/colorGenerator.ts:56-87 | every preset colour is a valid hex colour |
| ColorPicker.InitialCustomColorsValid | src/components/ColorPicker.tsx:23-28 | the four starting custom colours are valid |
| ColorPicker.CustomPalette | src/components/ColorPicker.tsx:43-46 | the applied palette has id `custom`, name `Custom` and the slot colours |
| ColorPicker.Picker.constructor | src/components/ColorPicker.tsx:20-28 | six random palettes, the default slots, nothing selected |
| ColorPicker.Picker.HandleRegenerateRandom | src/components/ColorPicker.tsx:31-33 | six new random palettes; the rest is unchanged |
| ColorPicker.Picker.HandleCustomColorChange | src/components/ColorPicker.tsx:35-39 | a fresh copy of the slots with the one slot set to the normalised colour |
| ColorPicker.Picker.HandleApplyCustom | src/components/ColorPicker.tsx:41-49 | the custom palette is handed on exactly when every slot is valid |
| ColorPicker.CustomColorChangeEffect | src/components/ColorPicker.tsx:35-39 | the other slots are kept, and the changed slot is valid exactly when the typed colour (with or without `#`) is |
| ImageGuidance.TableKeysAreTemplates | src/utils/imageGuidance.ts:16-134 | the table has exactly the eight template ids as keys |
| ImageGuidance.GetImageRequirements | src/utils/imageGuidance.ts:137-141 | the entry of a listed id, `{}` for any other |
| ImageGuidance.EveryTemplateHasLogo | src/utils/imageGuidance.ts:16-134 | every template asks for a logo and no optional images; only elegant and simple ask for no primary image |
| ImageGuidance.UnknownTemplateHasNone | src/utils/imageGuidance.ts:137-141 | an id that names no template gets `{}` |
| ImageGuidance.ColonIndex | src/utils/imageGuidance.ts:4 | the position of the first `:` of an aspect ratio |
| ImageGuidance.ParseRatioRoundTrip | src/utils/imageGuidance.ts:4 | reading back a written `w:h` gives `(w, h)` |
| ImageGuidance.RatioStringsParse | src/utils/imageGuidance.ts:16-134 | the six ratio strings of the table read as their number pairs |
| ImageGuidance.TableRatiosAgree | src/utils/imageGuidance.ts:16-134 | every entry's width and height stand in the ratio it names |
| EmailTemplates.SafeHref | src/templates/EmailTemplates.tsx:4-9 | http(s) URLs and scheme-less URLs are kept trimmed; any other scheme gives `""` |
| EmailTemplates.SafeHrefIsSafe | src/templates/EmailTemplates.tsx:4-9 | the result never has a non-http scheme, and it is `""` or the trimmed URL |
| EmailTemplates.SafeHrefIdempotent | src/templates/EmailTemplates.tsx:4-9 | guarding twice is guarding once |
| EmailTemplates.GuardedLink | src/templates/EmailTemplates.tsx:73-82 | one guarded link when the field is non-empty, none otherwise |
| EmailTemplates.GuardedLinkSafe | src/templates/EmailTemplates.tsx:73-82 | a guarded link never has an unsafe scheme |
| EmailTemplates.EmailLinksSafe | src/templates/EmailTemplates.tsx:16-548 | in all four templates, every link other than the `mailto:` link is safe, and the `mailto:` link comes first |
| EmailTemplates.SocialLinksFromFields | src/templates/EmailTemplates.tsx:84-118 | every social link guards a non-empty LinkedIn, Twitter or Instagram field under its template label |
| EmailTemplates.SocialLinksCount | src/templates/EmailTemplates.tsx:84-118 | one social link per non-empty field |
| EmailTemplates.SocialLinksOrder | src/templates/EmailTemplates.tsx:84-118 | the links are in the order LinkedIn, Twitter, Instagram |
| DigitalCardFormats.NormalizeUrl | src/templates/DigitalCardFormats.tsx:7-10 | the result starts with http(s)://; such an input is kept, and any other gets `https://` in front |
| DigitalCardFormats.NormalizeUrlIdempotent | src/templates/DigitalCardFormats.tsx:7-10 | there is never a double prefix |
| DigitalCardFormats.NormalizeUrlIsSafe | src/templates/DigitalCardFormats.tsx:7-10 | a normalised URL never carries a non-http scheme |
| DigitalCardFormats.ContactLinksShape | src/templates/DigitalCardFormats.tsx:56-76 | one link per non-empty email, phone and website; `mailto:`, `tel:` and an http(s) website |
| DigitalCardFormats.ContactLinksOrder | src/templates/DigitalCardFormats.tsx:56-76 | the order is email, phone, website |
| DigitalCardFormats.MobileActions | src/templates/DigitalCardFormats.tsx:285-309 | Email/Call buttons for the given fields, on the accent colour, with the text colour `getBestTextColor` picks |
| DigitalCardFormats.MobileActionsReadable | src/templates/DigitalCardFormats.tsx:285-309 | every button's text reaches 4.5:1 on its background |
| FontSizeControl.GetLabel | src/components/FontSizeControl.tsx:17-21 | Small iff below 0.9, Large iff above 1.1, Normal iff in [0.9, 1.1] |
| FontSizeControl.GetLabelMonotone | src/components/FontSizeControl.tsx:17-21 | a larger scale never gets a smaller label |
| FontSizeControl.SliderValue | src/components/FontSizeControl.tsx:32-38 | every slider step lies in [0.8, 1.2] |
| FontSizeControl.SliderLabels | src/components/FontSizeControl.tsx:10-44 | the first two steps are Small, the last two Large, and the default 1.0 is Normal |

## Left out

- Capture: the DOM-to-image step (hidden clone, font and image loading, the 200 ms settle delay, html2canvas) is a `Snapshot` value; only the element and its pixel size are kept.
- The jsPDF labels under the marks, and the drawing colour and line width, are not recorded.
- `exportPDF.ts` and `exportHTML.ts` are not part of this model.
- Errors thrown by the browser APIs and their catch blocks are not modelled.
- PdfExport.ExportSeparateSides: a capture cannot fail in the model, so the source's case of a failed back capture after `-front.pdf` is already saved (the front file stays written) is not modelled, nor is the order of the two saves across files.
- The 500 ms pause between saving the front file and capturing the back in `exportSeparateSides` is left out, because it only works around the browser's blocking of a second download.
- ContrastChecker.GetContrastRatio: `getLuminance` (hex parsing with `parseInt` and gamma correction in floating point) is the parameter `lum`. Its range [0, 1] is assumed through `ValidLuminance`. The 4.5:1 results (BestTextColorPassesAA, AccessiblePaletteReadable, MobileActionsReadable) also assume that white has luminance 1 and black 0 (`ExactExtremes`).
- ColorGenerator.HarmoniousColors: `hslToHex` and `Math.random` are the parameters `hsl` and `draw`, so it states only the number of colours and the hues passed on.
- Sanitize.SanitizeTextMarkup: the textarea decoding of HTML entities needs the DOM, so it is skipped, and so is the trim after it; the contract states tag-freedom of the text before those two steps, and decoding may bring back `<` and `>`.
- Lower-casing and the `i` regular-expression flag are ASCII-only; there is no Unicode case folding.
- Numbers are exact reals, so NaN, infinities and rounding in floating point are absent. The 0.01 inch offset of the crop marks is exact.
- Canvas drawing (`renderFront`, `renderBack`, `roundRect`, image loading) is left out; `PlanRender` keeps the decisions that `renderCardToCanvas` makes before drawing.
- CanvasRenderer.ExtractHandle: the `catch` branch cannot be reached in the model, because the model's string operations cannot throw.
- ImageGuidance.GetImageRequirements: keys that JavaScript objects inherit, such as `toString`, are not modelled, so any unlisted id gets `{}`.
- DigitalCardFormats.MobileActions: requires at least two colours, because the source reads `colors[1]` and `getBestTextColor` would fail on `undefined`.
- ColorPicker.Picker.HandleCustomColorChange: requires an index below 4, because the picker only renders four slots. The `onSelectPalette` callback is modelled as the `selected` record of handed-on palettes.
- The React components' markup, styling, modals, pages and the template configuration maps are not modelled. The `SocialLinks` component of the digital card formats is not part of this model.

## Findings

| source | as written | input that shows it | evidently intended | confidence | as-written member | corrected member |
|---|---|---|---|---|---|---|
| src/utils/sanitize.ts:44-49 | `sanitizeURL` strips one listed dangerous scheme and then at most one further non-http scheme; `mailto:` is not on the dangerous list | `mailto:javascript:alert(1)` sanitises to `javascript:alert(1)` | no scheme other than http/https survives sanitising | not executed | SanitizeUrlCases.SanitizeUrlLeavesSecondScheme | Sanitize.SanitizeUrlStrict |
