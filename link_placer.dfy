/**
 * Placement of a collected link on the page holding its top edge: its
 * absolute y in points, the owning page, the y within that page, and the
 * rule that drops links below the last page.
 */
module LinkPlacer {
  import opened Anchors
  import opened PdfDocument
  import opened Paginator

  /** The page (from 0) whose vertical extent holds the absolute point yPt. */
  function PageIndex(yPt: real, pdfH: real): int
    requires pdfH > 0.0
  {
    (yPt / pdfH).Floor
  }

  /** Splitting an absolute y into a page index and an offset within that page. */
  lemma PageSplit(yPt: real, pdfH: real, n: int)
    requires pdfH > 0.0
    ensures var p := PageIndex(yPt, pdfH);
      var off := yPt - p as real * pdfH;
      && 0.0 <= off < pdfH
      && (yPt >= 0.0 ==> p >= 0)
      && (p >= n <==> yPt >= n as real * pdfH)
  {
    var p := PageIndex(yPt, pdfH);
    LeDiv(p as real, yPt, pdfH);
    LeDiv(p as real + 1.0, yPt, pdfH);
    assert (p as real + 1.0) * pdfH == p as real * pdfH + pdfH;
    LeDiv(0.0, yPt, pdfH);
    LeDiv(n as real, yPt, pdfH);
  }

  /** What happens to one link: dropped, or placed on a page (from 0) at a rectangle. */
  datatype Placement = Dropped | Placed(pageIndex: int, rect: LinkRect)

  /**
   * Places one link. It is dropped exactly when its top edge lies at or
   * below the bottom of the last page; otherwise it goes, whole, on the page
   * holding its top edge even when it reaches past that page's bottom.
   */
  function Place(a: Anchor, ratio: real, pdfH: real, pageCount: nat): (r: Placement)
    requires pdfH > 0.0
    ensures r.Dropped? <==> a.y as real * ratio >= pageCount as real * pdfH
    ensures r.Placed? ==>
      && r.pageIndex < pageCount
      && 0.0 <= r.rect.y < pdfH
      && r.pageIndex as real * pdfH + r.rect.y == a.y as real * ratio
      && r.rect == LinkRect(a.x as real * ratio, r.rect.y, a.width as real * ratio, a.height as real * ratio, a.href)
    ensures r.Placed? && a.y >= 0 && ratio >= 0.0 ==> r.pageIndex >= 0
  {
    var yPt := a.y as real * ratio;
    var pageIdx := PageIndex(yPt, pdfH);
    var yOnPage := yPt - pageIdx as real * pdfH;
    PageSplit(yPt, pdfH, pageCount);
    if pageIdx >= pageCount then Dropped
    else Placed(pageIdx, LinkRect(a.x as real * ratio, yOnPage, a.width as real * ratio, a.height as real * ratio, a.href))
  }

  /** A row above the canvas bottom lies above the bottom of the total height in points. */
  lemma RowAboveBottom(y: real, s: real, ratio: real, h: real)
    requires s > 0.0 && ratio > 0.0 && y * s < h
    ensures y * ratio < (h / s) * ratio
  {
    assert y < h / s;
  }

  /** A point inside page k, converted to canvas rows, lies inside band k. */
  lemma PointsToRows(k: real, y: real, s: real, ratio: real, pdfH: real, step: real)
    requires s > 0.0 && ratio > 0.0 && pdfH > 0.0 && step / s * ratio == pdfH
    requires k * pdfH <= y * ratio < k * pdfH + pdfH
    ensures k * step <= y * s < k * step + step
  {
    var c := s / ratio;
    assert step == pdfH * c by {
      assert step / s == pdfH / ratio;
    }
    assert y * s == (y * ratio) * c;
    MulLe(k * pdfH, y * ratio, c);
    MulStrict(y * ratio, k * pdfH + pdfH, c);
  }

  /** The offset of a row within band k, drawn at ratio / scale points per row, is the offset within page k. */
  lemma RowsOffsetToPoints(k: real, y: real, s: real, ratio: real, pdfH: real, step: real, row: real, top: real)
    requires s > 0.0 && ratio > 0.0 && pdfH > 0.0 && step / s * ratio == pdfH
    requires row == y * s && top == k * step
    ensures (row - top) / s * ratio == y * ratio - k * pdfH
  {
    assert (row - top) / s == y - k * (step / s);
  }

  /** A link whose top edge, in points, lies above some t no lower than the bottom of the last page is not dropped. */
  lemma PlacedAbove(a: Anchor, ratio: real, pdfH: real, pageCount: nat, t: real)
    requires pdfH > 0.0
    requires a.y as real * ratio < t <= pageCount as real * pdfH
    ensures Place(a, ratio, pdfH, pageCount).Placed?
  {
  }

  /** A link whose top edge lies inside the canvas is not dropped. */
  lemma PlacedInsideCanvas(l: Layout, a: Anchor)
    requires ValidLayout(l)
    requires a.y as real * l.scale < l.imgH as real
    ensures Place(a, l.ratio, l.pdfH, PageCount(l)).Placed?
  {
    PageCountBounds(l);
    RowAboveBottom(a.y as real, l.scale, l.ratio, l.imgH as real);
    PlacedAbove(a, l.ratio, l.pdfH, PageCount(l), TotalHeight(l));
  }

  /** A placed link's page index k, followed back to canvas rows at step rows per page, covers its top row. */
  lemma PlacedRow(a: Anchor, ratio: real, pdfH: real, pageCount: nat, s: real, step: real, k: int)
    requires s > 0.0 && ratio > 0.0 && pdfH > 0.0 && step / s * ratio == pdfH
    requires 0.0 <= a.y as real * s
    requires Place(a, ratio, pdfH, pageCount).Placed? && k == Place(a, ratio, pdfH, pageCount).pageIndex
    ensures k >= 0 && k as real * step <= a.y as real * s < k as real * step + step
  {
    var y := a.y as real;
    assert 0 <= a.y by {
      if a.y < 0 {
        MulStrict(y, 0.0, s);
      }
    }
    PointsToRows(k as real, y, s, ratio, pdfH, step);
  }

  /** A placed link's offset on its page k is its top row's offset below row top, converted to points. */
  lemma PlacedRowOffset(a: Anchor, ratio: real, pdfH: real, pageCount: nat, s: real, step: real, k: int, top: real)
    requires s > 0.0 && ratio > 0.0 && pdfH > 0.0 && step / s * ratio == pdfH
    requires Place(a, ratio, pdfH, pageCount).Placed? && k == Place(a, ratio, pdfH, pageCount).pageIndex
    requires top == k as real * step
    ensures Place(a, ratio, pdfH, pageCount).rect.y == (a.y as real * s - top) / s * ratio
  {
    RowsOffsetToPoints(k as real, a.y as real, s, ratio, pdfH, step, a.y as real * s, top);
  }

  /** A link whose top edge lies inside the canvas goes on the page whose image band holds that canvas row. */
  lemma PlacedBand(l: Layout, a: Anchor)
    requires ValidLayout(l)
    requires 0.0 <= a.y as real * l.scale < l.imgH as real
    ensures var r := Place(a, l.ratio, l.pdfH, PageCount(l));
      r.Placed? && r.pageIndex == BandOf(l, a.y as real * l.scale)
  {
    var row := a.y as real * l.scale;
    var step := Step(l);
    PlacedInsideCanvas(l, a);
    StepInPoints(l);
    var k := Place(a, l.ratio, l.pdfH, PageCount(l)).pageIndex;
    PlacedRow(a, l.ratio, l.pdfH, PageCount(l), l.scale, step, k);
    InBandOfRow(l, k, row, step);
  }

  /** A placed link sits on its page k at the height at which its top row is drawn on page k. */
  lemma PlacedOffset(l: Layout, a: Anchor, pageCount: nat, k: nat)
    requires ValidLayout(l)
    requires Place(a, l.ratio, l.pdfH, pageCount).Placed? && k == Place(a, l.ratio, l.pdfH, pageCount).pageIndex
    ensures Place(a, l.ratio, l.pdfH, pageCount).rect.y == (a.y as real * l.scale - SrcY(l, k)) / l.scale * l.ratio
  {
    var step := Step(l);
    StepInPoints(l);
    SrcYOfStep(l, k, step);
    PlacedRowOffset(a, l.ratio, l.pdfH, pageCount, l.scale, step, k, SrcY(l, k));
  }

  /**
   * A link whose top edge lies inside the canvas is never dropped: it goes on
   * the page whose image band holds that canvas row, at the height where the
   * row is drawn on that page.
   */
  lemma PlacedOnItsBand(l: Layout, a: Anchor)
    requires ValidLayout(l)
    requires 0.0 <= a.y as real * l.scale < l.imgH as real
    ensures var r := Place(a, l.ratio, l.pdfH, PageCount(l));
      var row := a.y as real * l.scale;
      && r.Placed?
      && r.pageIndex == BandOf(l, row)
      && r.rect.y == (row - SrcY(l, r.pageIndex)) / l.scale * l.ratio
  {
    PlacedBand(l, a);
    PlacedOffset(l, a, PageCount(l), Place(a, l.ratio, l.pdfH, PageCount(l)).pageIndex);
  }
}
