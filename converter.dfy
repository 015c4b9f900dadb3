/**
 * The conversion run: the page loop that cuts the canvas into one image per
 * page, the loop that annotates the collected links, and the run that ties
 * them to page geometry, anchor collection and the output name.
 */
module Converter {
  import opened Wrappers
  import opened PageGeometry
  import opened Paginator
  import opened Anchors
  import opened LinkPlacer
  import opened PdfDocument
  import opened FileNames

  /** The image drawn on page p: band p of the canvas, at the top left, full page width. */
  function BandImage(l: Layout, pdfW: real, p: nat): DrawnImage
    requires ValidLayout(l)
  {
    DrawnImage(SrcY(l, p), SrcHeight(l, p), 0.0, 0.0, pdfW, DrawnHeight(l, p))
  }

  /** The first m pages of the rendered document, each holding its band image and no link. */
  function RenderedPrefix(l: Layout, pdfW: real, m: nat): (pages: seq<Page>)
    requires ValidLayout(l)
    ensures |pages| == m
    ensures forall p :: 0 <= p < m ==> pages[p] == Page([BandImage(l, pdfW, p)], [])
  {
    if m == 0 then [] else RenderedPrefix(l, pdfW, m - 1) + [Page([BandImage(l, pdfW, m - 1)], [])]
  }

  /**
   * The document after the page loop: one page per band, the last one
   * current; a canvas of height 0 gives no band, and the document keeps the
   * blank page it was created with.
   */
  function RenderedDoc(l: Layout, pdfW: real): DocState
    requires ValidLayout(l)
  {
    var n := PageCount(l);
    if n == 0 then DocState([BlankPage], 0) else DocState(RenderedPrefix(l, pdfW, n), n - 1)
  }

  /** The page loop: page p is added (the first one exists already) and band p drawn on it. */
  method RenderPages(pdf: Pdf, l: Layout, pdfW: real)
    requires ValidLayout(l)
    requires pdf.Valid() && pdf.State() == DocState([BlankPage], 0)
    modifies pdf
    ensures pdf.Valid() && pdf.State() == RenderedDoc(l, pdfW)
  {
    var pageCount := PageCount(l);
    for p := 0 to pageCount
      invariant pdf.Valid()
      invariant p == 0 ==> pdf.State() == DocState([BlankPage], 0)
      invariant p > 0 ==> pdf.State() == DocState(RenderedPrefix(l, pdfW, p), p - 1)
    {
      if p > 0 {
        pdf.AddPage();
      }
      var srcY := SrcY(l, p);
      var srcHeight := SrcHeight(l, p);
      ghost var before := pdf.pages;
      assert before == RenderedPrefix(l, pdfW, p) + [BlankPage] && pdf.current == p;
      var img := DrawnImage(srcY, srcHeight, 0.0, 0.0, pdfW, DrawnHeight(l, p));
      pdf.AddImage(img);
      assert img == BandImage(l, pdfW, p);
      assert BlankPage.images + [img] == [img];
      assert pdf.pages == before[p := Page([BandImage(l, pdfW, p)], [])];
      assert pdf.pages == RenderedPrefix(l, pdfW, p + 1);
    }
  }

  /**
   * The rendered document: max(1, pageCount) pages and no link yet; each
   * page below the count holds exactly its band of the canvas, drawn at the
   * top left across the page width and at most one page high; a canvas of
   * height 0 leaves the single blank page.
   */
  lemma RenderedDocShape(l: Layout, pdfW: real)
    requires ValidLayout(l)
    ensures var d, n := RenderedDoc(l, pdfW), PageCount(l);
      && ValidState(d) && |d.pages| == (if n == 0 then 1 else n) && d.current == |d.pages| - 1
      && (forall k :: 0 <= k < |d.pages| ==> d.pages[k].links == [])
      && (n == 0 ==> d.pages == [BlankPage])
      && (forall p: nat :: p < n ==>
            && d.pages[p].images == [BandImage(l, pdfW, p)]
            && 0.0 <= SrcY(l, p) && SrcY(l, p) + SrcHeight(l, p) <= l.imgH as real
            && 0.0 < DrawnHeight(l, p) <= l.pdfH)
  {
    var n := PageCount(l);
    forall p: nat | p < n
      ensures 0.0 <= SrcY(l, p) && SrcY(l, p) + SrcHeight(l, p) <= l.imgH as real
      ensures 0.0 < DrawnHeight(l, p) <= l.pdfH
    {
      BandTiling(l, p);
      DrawnHeightBounds(l, p);
    }
  }

  /**
   * One link of the annotation loop: a dropped link changes nothing; a
   * placed one makes its page current (a page number outside the document
   * leaves the current page as it is) and is added to the current page.
   */
  function AnnotateOne(d: DocState, a: Anchor, ratio: real, pdfH: real, pageCount: nat): (r: DocState)
    requires ValidState(d) && pdfH > 0.0
    ensures ValidState(r) && |r.pages| == |d.pages|
  {
    match Place(a, ratio, pdfH, pageCount)
    case Dropped => d
    case Placed(pageIndex, rect) =>
      var cur := if 1 <= pageIndex + 1 <= |d.pages| then pageIndex else d.current;
      DocState(d.pages[cur := d.pages[cur].(links := d.pages[cur].links + [rect])], cur)
  }

  /** The document after annotating the links in order. */
  function AnnotateAll(d: DocState, anchors: seq<Anchor>, ratio: real, pdfH: real, pageCount: nat): (r: DocState)
    requires ValidState(d) && pdfH > 0.0
    ensures ValidState(r) && |r.pages| == |d.pages|
  {
    if anchors == [] then d
    else AnnotateOne(AnnotateAll(d, anchors[..|anchors| - 1], ratio, pdfH, pageCount), anchors[|anchors| - 1], ratio, pdfH, pageCount)
  }

  /** The annotation loop over the collected links. */
  method AnnotateLinks(pdf: Pdf, anchors: seq<Anchor>, ratio: real, pdfH: real, pageCount: nat)
    requires pdf.Valid() && pdfH > 0.0
    modifies pdf
    ensures pdf.Valid() && pdf.State() == AnnotateAll(old(pdf.State()), anchors, ratio, pdfH, pageCount)
  {
    for i := 0 to |anchors|
      invariant pdf.Valid()
      invariant pdf.State() == AnnotateAll(old(pdf.State()), anchors[..i], ratio, pdfH, pageCount)
    {
      assert anchors[..i + 1][..i] == anchors[..i];
      match Place(anchors[i], ratio, pdfH, pageCount)
      case Dropped =>
      case Placed(pageIdx, rect) =>
        pdf.SetPage(pageIdx + 1);
        pdf.Link(rect);
    }
    assert anchors[..|anchors|] == anchors;
  }

  /** The rectangles, in order, of the links placed on page k. */
  function LinksOn(anchors: seq<Anchor>, ratio: real, pdfH: real, pageCount: nat, k: int): seq<LinkRect>
    requires pdfH > 0.0
  {
    if anchors == [] then []
    else
      var r := Place(anchors[|anchors| - 1], ratio, pdfH, pageCount);
      LinksOn(anchors[..|anchors| - 1], ratio, pdfH, pageCount, k) +
        (if r.Placed? && r.pageIndex == k then [r.rect] else [])
  }

  /**
   * The links on page k are exactly the rectangles of the links placed on
   * page k: every member comes from such a link, and every such link is there.
   */
  lemma {:induction false} LinksOnMembers(anchors: seq<Anchor>, ratio: real, pdfH: real, pageCount: nat, k: int)
    requires pdfH > 0.0
    ensures forall rect :: rect in LinksOn(anchors, ratio, pdfH, pageCount, k) ==>
      exists i :: 0 <= i < |anchors| && Place(anchors[i], ratio, pdfH, pageCount) == Placed(k, rect)
    ensures forall i, rect :: 0 <= i < |anchors| && Place(anchors[i], ratio, pdfH, pageCount) == Placed(k, rect) ==>
      rect in LinksOn(anchors, ratio, pdfH, pageCount, k)
  {
    if anchors != [] {
      var init := anchors[..|anchors| - 1];
      LinksOnMembers(init, ratio, pdfH, pageCount, k);
      forall rect | rect in LinksOn(anchors, ratio, pdfH, pageCount, k)
        ensures exists i :: 0 <= i < |anchors| && Place(anchors[i], ratio, pdfH, pageCount) == Placed(k, rect)
      {
        if rect in LinksOn(init, ratio, pdfH, pageCount, k) {
          var i :| 0 <= i < |init| && Place(init[i], ratio, pdfH, pageCount) == Placed(k, rect);
          assert anchors[i] == init[i];
        } else {
          assert Place(anchors[|anchors| - 1], ratio, pdfH, pageCount) == Placed(k, rect);
        }
      }
      forall i, rect | 0 <= i < |anchors| && Place(anchors[i], ratio, pdfH, pageCount) == Placed(k, rect)
        ensures rect in LinksOn(anchors, ratio, pdfH, pageCount, k)
      {
        if i < |init| {
          assert anchors[i] == init[i];
        }
      }
    }
  }

  /**
   * Each link lands on exactly one page: with non-negative positions and
   * every page index below the page count present in the document, the
   * annotation loop adds to page k exactly the links placed on page k, in
   * order, and changes nothing else of any page.
   */
  lemma {:induction false} AnnotateAllPerPage(d: DocState, anchors: seq<Anchor>, ratio: real, pdfH: real, pageCount: nat)
    requires ValidState(d) && pdfH > 0.0 && ratio >= 0.0 && pageCount <= |d.pages|
    requires forall i :: 0 <= i < |anchors| ==> anchors[i].y >= 0
    ensures var r := AnnotateAll(d, anchors, ratio, pdfH, pageCount);
      forall k :: 0 <= k < |d.pages| ==>
        r.pages[k] == d.pages[k].(links := d.pages[k].links + LinksOn(anchors, ratio, pdfH, pageCount, k))
  {
    if anchors == [] {
      forall k | 0 <= k < |d.pages| ensures d.pages[k] == d.pages[k].(links := d.pages[k].links + []) {
        assert d.pages[k].links + [] == d.pages[k].links;
      }
    } else {
      var init, a := anchors[..|anchors| - 1], anchors[|anchors| - 1];
      AnnotateAllPerPage(d, init, ratio, pdfH, pageCount);
      var mid := AnnotateAll(d, init, ratio, pdfH, pageCount);
      var r := AnnotateAll(d, anchors, ratio, pdfH, pageCount);
      var pl := Place(a, ratio, pdfH, pageCount);
      forall k | 0 <= k < |d.pages|
        ensures r.pages[k] == d.pages[k].(links := d.pages[k].links + LinksOn(anchors, ratio, pdfH, pageCount, k))
      {
        var before := LinksOn(init, ratio, pdfH, pageCount, k);
        if pl.Placed? && pl.pageIndex == k {
          assert r.pages[k] == mid.pages[k].(links := mid.pages[k].links + [pl.rect]);
          assert d.pages[k].links + before + [pl.rect] == d.pages[k].links + (before + [pl.rect]);
        } else {
          assert r.pages[k] == mid.pages[k];
          assert before + [] == before;
        }
      }
    }
  }

  /**
   * The finished document, page by page: with non-negative link positions,
   * page k keeps the image the page loop drew on it and carries exactly the
   * links placed on page k, in order; with no links (preservation off) every
   * page carries none.
   */
  lemma ConvertedPerPage(l: Layout, pdfW: real, anchors: seq<Anchor>)
    requires ValidLayout(l)
    requires forall i :: 0 <= i < |anchors| ==> anchors[i].y >= 0
    ensures var d, r := RenderedDoc(l, pdfW), Converted(l, pdfW, anchors);
      && |r.pages| == |d.pages|
      && forall k :: 0 <= k < |d.pages| ==>
           && r.pages[k].images == d.pages[k].images
           && r.pages[k].links == LinksOn(anchors, l.ratio, l.pdfH, PageCount(l), k)
    ensures anchors == [] ==> Converted(l, pdfW, anchors) == RenderedDoc(l, pdfW)
  {
    RenderedDocShape(l, pdfW);
    var d := RenderedDoc(l, pdfW);
    AnnotateAllPerPage(d, anchors, l.ratio, l.pdfH, PageCount(l));
    forall k | 0 <= k < |d.pages| ensures d.pages[k].links + LinksOn(anchors, l.ratio, l.pdfH, PageCount(l), k) == LinksOn(anchors, l.ratio, l.pdfH, PageCount(l), k) {
      assert d.pages[k].links == [];
    }
  }

  /** The layout of a run: the canvas, the rendering scale, the page size and the ratio computed once from them. */
  function RunLayout(canvasW: nat, canvasH: nat, scale: nat, dims: PageSize): (l: Layout)
    requires canvasW > 0 && scale > 0 && dims.width > 0.0 && dims.height > 0.0
    ensures ValidLayout(l) && l.ratio * (canvasW as real / scale as real) == dims.width
  {
    Layout(canvasH, scale as real, Ratio(dims.width, canvasW, scale), dims.height)
  }

  /** The document a run produces: the rendered pages, then the links annotated with the run's ratio. */
  function Converted(l: Layout, pdfW: real, anchors: seq<Anchor>): DocState
    requires ValidLayout(l)
  {
    AnnotateAll(RenderedDoc(l, pdfW), anchors, l.ratio, l.pdfH, PageCount(l))
  }

  /** Builds the document: a new PDF, the page loop, and the link loop when links are preserved and some were found. */
  method BuildDocument(l: Layout, pdfW: real, preserveLinks: bool, anchors: seq<Anchor>) returns (pdf: Pdf)
    requires ValidLayout(l)
    requires !preserveLinks ==> anchors == []
    ensures fresh(pdf) && pdf.Valid() && pdf.State() == Converted(l, pdfW, anchors)
  {
    pdf := new Pdf();
    RenderPages(pdf, l, pdfW);
    var pageCount := PageCount(l);
    if preserveLinks && |anchors| > 0 {
      AnnotateLinks(pdf, anchors, l.ratio, l.pdfH, pageCount);
    }
  }

  /**
   * A whole conversion. The output name is fixed first and the links are
   * collected; an unknown page-size key then aborts the run and no document
   * is produced. Otherwise the pages are rendered with the single ratio of
   * the run and, when links are preserved and some were found, annotated.
   */
  method Convert(session: Session, canvasW: nat, canvasH: nat, scale: nat, pageSizeKey: string,
                 orientation: string, preserveLinks: bool, elements: seq<AnchorElement>, outputField: string)
    returns (pdf: Pdf?, finalName: string)
    requires canvasW > 0 && scale > 0
    ensures finalName == FinalName(outputField, session.fileName)
    ensures pdf != null <==> PageDims(pageSizeKey, orientation).Some?
    ensures pdf != null ==>
      var dims := PageDims(pageSizeKey, orientation).value;
      && fresh(pdf) && pdf.Valid() && dims.width > 0.0 && dims.height > 0.0
      && pdf.State() == Converted(RunLayout(canvasW, canvasH, scale, dims), dims.width,
                                  if preserveLinks then Collected(elements) else [])
  {
    finalName := FinalName(outputField, session.fileName);
    var anchors := CollectAnchors(elements, preserveLinks);
    PageDimsOrientation(pageSizeKey, orientation);
    var dims := PageDims(pageSizeKey, orientation);
    if dims.None? {
      return null, finalName;
    }
    var l := RunLayout(canvasW, canvasH, scale, dims.value);
    pdf := BuildDocument(l, dims.value.width, preserveLinks, anchors);
  }
}
