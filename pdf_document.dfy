/**
 * The PDF being built, reduced to what the converter passes to the PDF
 * writer: a sequence of pages, each with the images drawn on it and the
 * link rectangles annotated on it, and the page currently being written.
 */
module PdfDocument {
  /**
   * An image drawn on a page: the canvas rows it was cut from (first row and
   * number of rows, in device pixels) and the box it is drawn into, in points.
   */
  datatype DrawnImage = DrawnImage(srcY: real, srcHeight: real, x: real, y: real, width: real, height: real)

  /** A link annotation: a rectangle in the page's own points (origin top left) and its URL. */
  datatype LinkRect = LinkRect(x: real, y: real, width: real, height: real, url: string)

  datatype Page = Page(images: seq<DrawnImage>, links: seq<LinkRect>)

  const BlankPage := Page([], [])

  /** The whole document state: its pages and the index of the current page. */
  datatype DocState = DocState(pages: seq<Page>, current: nat)

  predicate ValidState(d: DocState) {
    d.current < |d.pages|
  }

  class Pdf {
    var pages: seq<Page>
    /** Index (from 0) of the page that images and links are added to. */
    var current: nat

    ghost predicate Valid()
      reads this
    {
      current < |pages|
    }

    function State(): (d: DocState)
      reads this
    {
      DocState(pages, current)
    }

    /** A new document has one blank page, which is current. */
    constructor ()
      ensures Valid() && pages == [BlankPage] && current == 0
    {
      pages := [BlankPage];
      current := 0;
    }

    /** Appends a blank page and makes it current. */
    method AddPage()
      requires Valid()
      modifies this
      ensures Valid()
      ensures pages == old(pages) + [BlankPage] && current == |old(pages)|
    {
      pages := pages + [BlankPage];
      current := |pages| - 1;
    }

    /**
     * Makes page n (numbered from 1) current; a number outside 1..|pages|
     * leaves the current page as it was.
     */
    method SetPage(n: int)
      requires Valid()
      modifies this
      ensures Valid() && pages == old(pages)
      ensures current == if 1 <= n <= |pages| then n - 1 else old(current)
    {
      if 1 <= n <= |pages| {
        current := n - 1;
      }
    }

    /** Draws an image on the current page; no other page changes. */
    method AddImage(img: DrawnImage)
      requires Valid()
      modifies this
      ensures Valid() && current == old(current) && |pages| == |old(pages)|
      ensures pages == old(pages)[current := old(pages)[current].(images := old(pages)[current].images + [img])]
    {
      pages := pages[current := pages[current].(images := pages[current].images + [img])];
    }

    /** Adds a link annotation to the current page; no other page changes. */
    method Link(rect: LinkRect)
      requires Valid()
      modifies this
      ensures Valid() && current == old(current) && |pages| == |old(pages)|
      ensures pages == old(pages)[current := old(pages)[current].(links := old(pages)[current].links + [rect])]
    {
      pages := pages[current := pages[current].(links := pages[current].links + [rect])];
    }
  }
}
