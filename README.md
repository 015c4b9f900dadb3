# html2pdf: pagination and link remapping, modelled in Dafny

html2pdf is a browser page that turns an HTML file into a PDF. It renders
the document into one tall canvas, cuts that canvas into page-sized bands,
draws one band per PDF page and then re-creates every hyperlink of the
document as a link annotation on the page that holds it. This project
models the arithmetic and bookkeeping of that conversion, all of which lives
in `src/script.js`:

- **page geometry**: the named page sizes, the landscape swap and the single
  ratio of PDF points per CSS pixel (module `PageGeometry`);
- **pagination**: the total height in points, the page count and, for each
  page, the band of canvas rows it shows and the height it is drawn at
  (module `Paginator`);
- **anchor collection**: which anchors are kept, their absolute position as
  the sum of offsets up the offsetParent chain, and the 10 by 12 fallback
  size (module `Anchors`);
- **link placement**: the page that holds a link's top edge, its offset on
  that page, and the rule that drops links below the last page
  (module `LinkPlacer`);
- **the document being built**: the PDF writer reduced to a class holding a
  sequence of pages (images and link rectangles) and the current page
  (module `PdfDocument`), driven by the page loop and the link loop
  (module `Converter`);
- **file names**: which files are accepted as HTML, the base name kept from
  them, and the name the PDF is saved under (module `FileNames`).

All JavaScript numbers are modelled as mathematical reals. `Math.floor` is
Dafny's `.Floor`, and `Math.ceil` is `PageGeometry.Ceil`, which is built
from it. The canvas size and the rendering scale are integers in the program
(canvas dimensions, `parseInt`). Inside a `Paginator.Layout` the scale is
held as a real.

The headline results:

- the bands tile the canvas with no gap and no overlap (`Paginator.BandTiling`, `Paginator.BandOf`);
- every page but the last is drawn exactly one page high (`Paginator.DrawnHeightBounds`);
- a link is dropped exactly when its top edge lies at or below the bottom of
  the last page (`LinkPlacer.Place`);
- a link inside the canvas lands on the page whose image band holds its row,
  at the height where that row is drawn (`LinkPlacer.PlacedOnItsBand`);
- after the link loop, page k carries exactly the links placed on page k, in
  order, and keeps its image (`Converter.ConvertedPerPage`, `Converter.LinksOnMembers`).

For a canvas of height 0 the code computes a page count of 0. It therefore
draws no band, and the PDF keeps the single blank page it was created with:
the code enforces no minimum of one computed page, and
`Paginator.PageCountBounds` states this.

## Model

| member | source | states |
|---|---|---|
| PageGeometry.LookupPageSize | src/script.js:67-71 | a4, letter and legal are the only keys, each found with width below height; any other key gives None |
| PageGeometry.PageDimsOrientation | src/script.js:172-175 | for a known key, landscape gives (height, width) of the table entry and is wider than tall; portrait gives the entry unchanged and is taller than wide; an unknown key gives None |
| PageGeometry.Ratio | src/script.js:186 | the ratio times the canvas width in CSS pixels is exactly the page width, and it is positive for a positive page width |
| PageGeometry.Ceil | src/script.js:193 | Math.ceil: the least integer at or above its argument |
| Paginator.TotalHeight | src/script.js:192 | the total height in points is non-negative and zero exactly for an empty canvas |
| Paginator.StepInPoints | src/script.js:199-200 | one full band of pdfH / ratio * scale rows, converted back to points, is exactly one page |
| Paginator.SrcYAsWritten | src/script.js:199 | the band start p * step equals p * pdfH / ratio * scale evaluated left to right, as the loop writes it |
| Paginator.PageCountInRows | src/script.js:192-193 | the page count is the canvas height in full bands, rounded up |
| Paginator.PageCountBounds | src/script.js:192-193 | the page count is 0 exactly for an empty canvas, at least 1 otherwise, and (count-1)*pdfH < total <= count*pdfH |
| Paginator.BandInCanvas | src/script.js:199-200 | every page's band starts inside the canvas, is non-empty and ends inside the canvas |
| Paginator.BandFull | src/script.js:199-200 | a band that is not the last is a full band, and the next band starts where it ends |
| Paginator.BandLast | src/script.js:199-200 | the last band ends at the bottom of the canvas |
| Paginator.BandTiling | src/script.js:196-200 | the three facts above together: the bands cover the canvas in order with no gap |
| Paginator.BandsDisjoint | src/script.js:199-200 | an earlier band ends no later than any later band starts |
| Paginator.InBandOfRow | src/script.js:199-200 | a canvas row less than one step below the top of band p, and above the canvas bottom, lies in band p |
| Paginator.BandOf | src/script.js:196-200 | every row of the canvas lies in exactly one band, and that band's index is below the page count |
| Paginator.DrawnHeightInPage | src/script.js:200-210 | each band is drawn at a positive height of at most one page |
| Paginator.DrawnHeightFull | src/script.js:200-210 | every page but the last is drawn exactly one page high |
| Paginator.DrawnHeightLast | src/script.js:192-210 | the last page is drawn at the total height less the earlier pages |
| Paginator.DrawnHeightBounds | src/script.js:200-210 | the three drawn-height facts above together |
| Anchors.SumSplit | src/script.js:132-138 | offsets summed along a chain compose: inner part plus outer part |
| Anchors.AbsolutePosition | src/script.js:132-138 | the offsetParent walk returns the sums of offsetTop and offsetLeft along the chain |
| Anchors.CollectAnchors | src/script.js:113-147 | the scan returns the collected anchors in document order when links are preserved and nothing otherwise; each has a kept href and a positive size |
| Anchors.CollectedSound | src/script.js:117-147 | every collected anchor is the record of an input element with a kept href, has a positive size, and there are no more of them than elements |
| Anchors.CollectedComplete | src/script.js:117-147 | every element whose href is non-empty and not a fragment is collected |
| Anchors.CollectedAppend | src/script.js:117-147 | collecting a concatenation concatenates the collections |
| LinkPlacer.PageSplit | src/script.js:220-224 | the page index and in-page offset split the absolute y: 0 <= offset < pdfH, index >= 0 for y >= 0, and index >= n exactly when y >= n pages |
| LinkPlacer.Place | src/script.js:218-235 | a link is dropped iff y*ratio >= pageCount*pdfH; otherwise it goes on one page below the count, at offset y*ratio - page*pdfH in [0, pdfH), with x, width and height times ratio and its href unchanged |
| LinkPlacer.PlacedInsideCanvas | src/script.js:192-224 | a link whose top edge lies inside the canvas is never dropped |
| LinkPlacer.PlacedBand | src/script.js:199-224 | such a link goes on the page whose band holds its top row |
| LinkPlacer.PlacedOffset | src/script.js:199-222 | a placed link sits on its page at the height where its top row is drawn on that page |
| LinkPlacer.PlacedOnItsBand | src/script.js:196-235 | the two facts above together: a link inside the canvas is placed on the page showing it, at the row's drawn height |
| PdfDocument.Pdf.constructor | src/script.js:177-181 | a new document has one blank page, which is current |
| PdfDocument.Pdf.AddPage | src/script.js:197 | appends a blank page and makes it current |
| PdfDocument.Pdf.SetPage | src/script.js:226 | makes page n (from 1) current; a number outside the document leaves the current page as it was |
| PdfDocument.Pdf.AddImage | src/script.js:210 | draws an image on the current page and changes no other page |
| PdfDocument.Pdf.Link | src/script.js:229-235 | adds a link rectangle to the current page and changes no other page |
| Converter.RenderedPrefix | src/script.js:196-212 | the first m rendered pages, page p holding exactly band p's image and no link |
| Converter.RenderPages | src/script.js:196-212 | the page loop leaves exactly the rendered document: one page per band, the last current |
| Converter.RenderedDocShape | src/script.js:196-212 | the rendered document has max(1, pageCount) pages and no link; each page holds exactly its band, inside the canvas and drawn at most one page high; an empty canvas leaves one blank page |
| Converter.AnnotateOne | src/script.js:218-236 | one link keeps the document valid and its page count unchanged |
| Converter.AnnotateAll | src/script.js:218-236 | the links in order keep the document valid and its page count unchanged |
| Converter.AnnotateLinks | src/script.js:218-236 | the link loop leaves exactly the document of annotating the links in order |
| Converter.LinksOnMembers | src/script.js:218-236 | the links on page k are exactly the rectangles of the links placed on page k |
| Converter.AnnotateAllPerPage | src/script.js:218-236 | the link loop adds to each page exactly the links placed on it, in order, and changes nothing else of any page |
| Converter.ConvertedPerPage | src/script.js:196-236 | in the finished document each page keeps its image and carries exactly its placed links; with no links it is the rendered document |
| Converter.RunLayout | src/script.js:172-193 | the run's layout is valid and its ratio maps the canvas width onto the page width |
| Converter.BuildDocument | src/script.js:177-236 | builds a fresh document equal to the rendered pages annotated with the links; no link is added when preservation is off |
| Converter.Convert | src/script.js:86-236 | the saved name ends the way FinalName says; a document exists exactly for a known page size, and it is the converted document of the run's layout and collected links |
| FileNames.Lower | src/script.js:37 | ASCII lower-casing, character by character, as the case-insensitive match compares |
| FileNames.StripHtmlSuffix | src/script.js:41 | removes exactly the trailing ".html" or ".htm" (any case) |
| FileNames.HtmlSuffixRoundTrip | src/script.js:37-41 | a base name plus ".html" or ".htm" in any case is accepted and gives that base name back |
| FileNames.AcceptFile | src/script.js:37-41 | a file is accepted iff it exists and its name ends in .htm or .html (any case), and then the base name is the name without that suffix |
| FileNames.Session.constructor | src/script.js:5 | a page session starts with no file name and the initial placeholder |
| FileNames.Session.LoadFile | src/script.js:36-42 | an accepted file sets the base name and the placeholder base + ".pdf"; a refused one changes nothing |
| FileNames.LeadingSpace | src/script.js:89 | counts exactly the white space trim removes at the start |
| FileNames.TrailingSpace | src/script.js:89 | counts exactly the white space trim removes at the end |
| FileNames.TrimIsInfix | src/script.js:89 | trim leaves a piece of the input with only white space before and after it |
| FileNames.TrimEnds | src/script.js:89 | what trim leaves is empty or starts and ends with a character trim keeps |
| FileNames.FinalName | src/script.js:89-90 | the saved name always ends in ".pdf" |
| FileNames.FinalNameCases | src/script.js:89-90 | a blank field gives base + ".pdf"; a trimmed name ending in ".pdf" is kept; any other gets ".pdf" appended |
| FileNames.FinalNameIdempotent | src/script.js:89-90 | a final name without surrounding white space, used again as the field, gives itself back |

## Left out

- The iframe, `document.write`, the 800 ms wait and the async click handler: DOM and timing plumbing with no arithmetic.
- `html2canvas`: the canvas width and height are parameters of `Converter.Convert`.
- `drawImage` and `toDataURL`: the pixel copy into a page-sized canvas and the JPEG encoding. The model records only the rows cut and the box drawn (`PdfDocument.DrawnImage`).
- `pageCanvas.height = srcHeight`: a browser canvas truncates a fractional height to an integer. The model keeps the real band height.
- jsPDF internals: page size and orientation of the pages themselves, the `save` call, and what `setPage` does with a number outside the document. `PdfDocument.Pdf.SetPage` assumes that such a number is ignored; it is reachable only for a link with a negative offset.
- The `FileReader`, the drag-and-drop listeners, `log` and `setProgress`: I/O and UI updates.
- The `if (!htmlContent) return` guard and the catch block. A missing page size is the one error path inside the core; `Converter.Convert` returns no document for it, which is what the thrown TypeError leads to.
- The unused measurements `rect`, `iRect`, `scrollX`, `scrollY` and `domRect`, and the unused `detectUrls` and `newTab` options.
- IEEE-754 arithmetic: rounding, Infinity and NaN. Arithmetic is over mathematical reals, which is why `Converter.Convert` requires a positive canvas width and scale. With either at 0 the program divides by zero.
- A `parseInt` that yields NaN, and an `offsetTop || 0` that replaces NaN: offsets arrive already defaulted to integers (`Anchors.Offset`).
- Converter.AnnotateAllPerPage: stated for links with a non-negative offset only. A negative offset gives a negative page index, and what happens then depends on jsPDF's `setPage`.
- Converter.ConvertedPerPage: stated for links with a non-negative offset only, for the same reason.
- LinkPlacer.PlacedOnItsBand: stated for links whose top edge lies inside the canvas. Links below the canvas but above the bottom of the last page are placed as well, and `LinkPlacer.Place` covers them.
