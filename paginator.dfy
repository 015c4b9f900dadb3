/**
 * Pagination of the rendered canvas: the total height in points, the page
 * count, and for each page the band of canvas rows (device pixels) copied
 * onto it and the height that band is drawn at.
 */
module Paginator {
  import opened PageGeometry

  /**
   * The inputs the page loop uses: the canvas height in device pixels, the
   * rendering scale (device pixels per CSS pixel), the run's single ratio
   * (points per CSS pixel) and the page height in points.
   */
  datatype Layout = Layout(imgH: nat, scale: real, ratio: real, pdfH: real)

  predicate ValidLayout(l: Layout) {
    l.scale > 0.0 && l.ratio > 0.0 && l.pdfH > 0.0
  }

  /** Height of the whole canvas in points: CSS height times the ratio. */
  function TotalHeight(l: Layout): (t: real)
    requires ValidLayout(l)
    ensures t >= 0.0
    ensures t == 0.0 <==> l.imgH == 0
  {
    (l.imgH as real / l.scale) * l.ratio
  }

  /** Number of canvas rows (device pixels) that fill one page. */
  function Step(l: Layout): (s: real)
    requires ValidLayout(l)
    ensures s > 0.0
  {
    l.pdfH / l.ratio * l.scale
  }

  /** One band of rows, converted back to points, is exactly one page. */
  lemma StepInPoints(l: Layout)
    requires ValidLayout(l)
    ensures Step(l) / l.scale * l.ratio == l.pdfH
  {
    assert Step(l) / l.scale == l.pdfH / l.ratio;
  }

  /** The page count: the total height divided by the page height, rounded up. */
  function PageCount(l: Layout): nat
    requires ValidLayout(l)
  {
    var c := Ceil(TotalHeight(l) / l.pdfH);
    assert TotalHeight(l) / l.pdfH >= 0.0;
    c
  }

  /** First canvas row of page p's band: p full bands down. */
  function SrcY(l: Layout, p: nat): real
    requires ValidLayout(l)
  {
    p as real * Step(l)
  }

  /** Number of canvas rows in page p's band: a full band, or what is left of the canvas if that is less. */
  function SrcHeight(l: Layout, p: nat): real
    requires ValidLayout(l)
  {
    var rest := l.imgH as real - SrcY(l, p);
    if Step(l) <= rest then Step(l) else rest
  }

  /** Height in points at which page p's band is drawn, from the top of the page. */
  function DrawnHeight(l: Layout, p: nat): real
    requires ValidLayout(l)
  {
    (SrcHeight(l, p) / l.scale) * l.ratio
  }

  /** Canvas row y belongs to page p's band. */
  predicate InBand(l: Layout, p: nat, y: real)
    requires ValidLayout(l)
  {
    SrcY(l, p) <= y < SrcY(l, p) + SrcHeight(l, p)
  }

  /** Multiplying both sides of a strict inequality by a positive factor keeps it. */
  lemma MulStrict(a: real, b: real, c: real)
    requires a < b && c > 0.0
    ensures a * c < b * c
  {
  }

  /** Multiplying both sides of an inequality by a non-negative factor keeps it. */
  lemma MulLe(a: real, b: real, c: real)
    requires a <= b && c >= 0.0
    ensures a * c <= b * c
  {
  }

  /** For a positive divisor h, comparing k with t / h is comparing k * h with t. */
  lemma LeDiv(k: real, t: real, h: real)
    requires h > 0.0
    ensures k <= t / h <==> k * h <= t
    ensures k < t / h <==> k * h < t
  {
    var q := t / h;
    assert q * h == t;
    if k <= q { assert k * h <= q * h; }
    if k * h <= t { assert k * h <= q * h; }
    if k < q { assert k * h < q * h; }
    if k * h < t { assert k * h < q * h; }
  }

  /** The band start as the page loop writes it, p * pdfH / ratio * scale evaluated left to right. */
  lemma SrcYAsWritten(l: Layout, p: nat)
    requires ValidLayout(l)
    ensures SrcY(l, p) == ((p as real * l.pdfH) / l.ratio) * l.scale
  {
    calc {
      ((p as real * l.pdfH) / l.ratio) * l.scale;
      p as real * (l.pdfH / l.ratio * l.scale);
    }
  }

  /** The page count is the canvas height in full bands, rounded up. */
  lemma PageCountInRows(l: Layout)
    requires ValidLayout(l)
    ensures TotalHeight(l) / l.pdfH == l.imgH as real / Step(l)
    ensures PageCount(l) == Ceil(l.imgH as real / Step(l))
  {
    var ratio, s, h := l.ratio, l.scale, l.imgH as real;
    calc {
      TotalHeight(l) / l.pdfH;
      (h / s) * ratio / l.pdfH;
      h / (l.pdfH / ratio * s);
    }
  }

  /** n = ceil(t / h) with h > 0 brackets t between n - 1 and n pages of height h. */
  lemma CeilBrackets(t: real, h: real)
    requires h > 0.0
    ensures (Ceil(t / h) - 1) as real * h < t <= Ceil(t / h) as real * h
  {
    var n := Ceil(t / h);
    LeDiv((n - 1) as real, t, h);
    LeDiv(n as real, t, h);
  }

  /**
   * Page-count bounds: a non-empty canvas needs at least one page and the
   * pages are just enough, (n-1)*pdfH < total <= n*pdfH; an empty canvas
   * gives no page at all (the code enforces no minimum).
   */
  lemma PageCountBounds(l: Layout)
    requires ValidLayout(l)
    ensures l.imgH == 0 <==> PageCount(l) == 0
    ensures l.imgH > 0 ==> PageCount(l) >= 1
    ensures (PageCount(l) as int - 1) as real * l.pdfH < TotalHeight(l) <= PageCount(l) as real * l.pdfH
  {
    CeilBrackets(TotalHeight(l), l.pdfH);
  }

  /** In rows: page indices below the count start inside the canvas, and the last band reaches its bottom. */
  lemma RowBounds(h: real, step: real, p: nat)
    requires step > 0.0 && p < Ceil(h / step)
    ensures p as real * step < h
    ensures p + 1 == Ceil(h / step) ==> h <= (p + 1) as real * step
  {
    LeDiv(p as real, h, step);
    LeDiv((p + 1) as real, h, step);
  }

  /** In rows: band p of a canvas of h rows cut every step rows, as the page loop cuts it. */
  lemma RowTiling(h: real, step: real, p: nat)
    requires step > 0.0 && p < Ceil(h / step)
    ensures var y := p as real * step;
      var sh := if step <= h - y then step else h - y;
      && 0.0 <= y < h && sh > 0.0 && y + sh <= h
      && (p + 1 < Ceil(h / step) ==> sh == step && (p + 1) as real * step == y + sh)
      && (p + 1 == Ceil(h / step) ==> y + sh == h)
  {
    RowBounds(h, step, p);
    MulLe(0.0, p as real, step);
    assert (p + 1) as real * step == p as real * step + step;
    if p + 1 < Ceil(h / step) {
      RowBounds(h, step, p + 1);
    }
  }

  /** Every page's band lies inside the canvas and is non-empty. */
  lemma BandInCanvas(l: Layout, p: nat)
    requires ValidLayout(l) && p < PageCount(l)
    ensures 0.0 <= SrcY(l, p) < l.imgH as real
    ensures SrcHeight(l, p) > 0.0 && SrcY(l, p) + SrcHeight(l, p) <= l.imgH as real
  {
    PageCountInRows(l);
    RowTiling(l.imgH as real, Step(l), p);
  }

  /** A band that is not the last one is a full band, and the next band starts where it ends. */
  lemma BandFull(l: Layout, p: nat)
    requires ValidLayout(l) && p + 1 < PageCount(l)
    ensures SrcHeight(l, p) == Step(l) && SrcY(l, p + 1) == SrcY(l, p) + SrcHeight(l, p)
  {
    PageCountInRows(l);
    RowTiling(l.imgH as real, Step(l), p);
  }

  /** The last band ends at the bottom of the canvas. */
  lemma BandLast(l: Layout, p: nat)
    requires ValidLayout(l) && p + 1 == PageCount(l)
    ensures SrcY(l, p) + SrcHeight(l, p) == l.imgH as real
  {
    PageCountInRows(l);
    RowTiling(l.imgH as real, Step(l), p);
  }

  /**
   * Band tiling: every page's band lies inside the canvas and is non-empty;
   * a band that is not the last one has the full page height and the next
   * band starts right where it ends; the last band ends at the canvas bottom.
   */
  lemma BandTiling(l: Layout, p: nat)
    requires ValidLayout(l) && p < PageCount(l)
    ensures 0.0 <= SrcY(l, p) < l.imgH as real
    ensures SrcHeight(l, p) > 0.0 && SrcY(l, p) + SrcHeight(l, p) <= l.imgH as real
    ensures p + 1 < PageCount(l) ==>
      SrcHeight(l, p) == Step(l) && SrcY(l, p + 1) == SrcY(l, p) + SrcHeight(l, p)
    ensures p + 1 == PageCount(l) ==> SrcY(l, p) + SrcHeight(l, p) == l.imgH as real
  {
    BandInCanvas(l, p);
    if p + 1 < PageCount(l) {
      BandFull(l, p);
    } else {
      BandLast(l, p);
    }
  }

  /** Converting a band of sh rows to points: positive, at most one page, exactly one page for a full band. */
  lemma ScaledBand(sh: real, step: real, s: real, ratio: real, pdfH: real)
    requires s > 0.0 && ratio > 0.0 && 0.0 < sh <= step && step / s * ratio == pdfH
    ensures 0.0 < sh / s * ratio <= pdfH
  {
    assert sh / s <= step / s;
    MulLe(sh / s, step / s, ratio);
    MulStrict(0.0, sh / s, ratio);
  }

  /** Converting the rows left below p full bands to points leaves the total less p pages. */
  lemma ScaledRest(h: real, step: real, p: real, s: real, ratio: real, pdfH: real, sh: real)
    requires s > 0.0 && step / s * ratio == pdfH && sh == h - p * step
    ensures sh / s * ratio == h / s * ratio - p * pdfH
  {
    assert sh / s * ratio == h / s * ratio - p * (step / s * ratio);
  }

  /** A band's drawn height is positive and at most one page. */
  lemma DrawnHeightInPage(l: Layout, p: nat)
    requires ValidLayout(l) && p < PageCount(l)
    ensures 0.0 < DrawnHeight(l, p) <= l.pdfH
  {
    BandInCanvas(l, p);
    StepInPoints(l);
    assert SrcHeight(l, p) <= Step(l);
    ScaledBand(SrcHeight(l, p), Step(l), l.scale, l.ratio, l.pdfH);
  }

  /** Every page but the last is drawn at exactly the page height. */
  lemma DrawnHeightFull(l: Layout, p: nat)
    requires ValidLayout(l) && p + 1 < PageCount(l)
    ensures DrawnHeight(l, p) == l.pdfH
  {
    BandFull(l, p);
    StepInPoints(l);
  }

  /** The last page is drawn at whatever of the total height the earlier pages leave. */
  lemma DrawnHeightLast(l: Layout, p: nat)
    requires ValidLayout(l) && p + 1 == PageCount(l)
    ensures DrawnHeight(l, p) == TotalHeight(l) - p as real * l.pdfH
  {
    BandLast(l, p);
    StepInPoints(l);
    ScaledRest(l.imgH as real, Step(l), p as real, l.scale, l.ratio, l.pdfH, SrcHeight(l, p));
  }

  /**
   * Drawn height: each band is drawn at a positive height of at most one
   * page; every page but the last is drawn at exactly the page height, and
   * the last one at whatever of the total height is left.
   */
  lemma DrawnHeightBounds(l: Layout, p: nat)
    requires ValidLayout(l) && p < PageCount(l)
    ensures 0.0 < DrawnHeight(l, p) <= l.pdfH
    ensures p + 1 < PageCount(l) ==> DrawnHeight(l, p) == l.pdfH
    ensures p + 1 == PageCount(l) ==> DrawnHeight(l, p) == TotalHeight(l) - p as real * l.pdfH
  {
    DrawnHeightInPage(l, p);
    if p + 1 < PageCount(l) {
      DrawnHeightFull(l, p);
    } else {
      DrawnHeightLast(l, p);
    }
  }

  /** Bands are disjoint: an earlier band ends no later than a later one starts. */
  lemma BandsDisjoint(l: Layout, p: nat, q: nat)
    requires ValidLayout(l) && p < q
    ensures SrcY(l, p) + SrcHeight(l, p) <= SrcY(l, q)
  {
    var step := Step(l);
    MulLe((p + 1) as real, q as real, step);
    assert (p + 1) as real * step == p as real * step + step;
  }

  /** In rows: the band index floor(y / step) of a row inside the canvas is below the page count. */
  lemma RowIndexBound(h: real, step: real, y: real)
    requires step > 0.0 && 0.0 <= y < h
    ensures 0 <= (y / step).Floor < Ceil(h / step)
  {
    var k := (y / step).Floor;
    LeDiv(0.0, y, step);
    LeDiv(k as real, y, step);
    LeDiv(k as real, h, step);
  }

  /** In rows: band floor(y / step) holds row y. */
  lemma RowInBand(step: real, y: real)
    requires step > 0.0
    ensures (y / step).Floor as real * step <= y < (y / step).Floor as real * step + step
  {
    var k := (y / step).Floor;
    LeDiv(k as real, y, step);
    LeDiv(k as real + 1.0, y, step);
    assert (k as real + 1.0) * step == k as real * step + step;
  }
  /** The first row of band p, for step the rows per page. */
  lemma SrcYOfStep(l: Layout, p: nat, step: real)
    requires ValidLayout(l) && step == Step(l)
    ensures SrcY(l, p) == p as real * step
  {
  }

  /** A row at most one step below the top of band p, and above the canvas bottom, lies in band p. */
  lemma InBandOfRow(l: Layout, p: nat, y: real, step: real)
    requires ValidLayout(l) && step == Step(l) && y < l.imgH as real
    requires p as real * step <= y < p as real * step + step
    ensures InBand(l, p, y)
  {
  }


  /** The band holding canvas row y: the bands cover the canvas with no gap and no overlap. */
  function BandOf(l: Layout, y: real): (p: nat)
    requires ValidLayout(l) && 0.0 <= y < l.imgH as real
    ensures p < PageCount(l) && InBand(l, p, y)
    ensures forall q: nat :: InBand(l, q, y) ==> q == p
  {
    PageCountInRows(l);
    var step := Step(l);
    RowIndexBound(l.imgH as real, step, y);
    RowInBand(step, y);
    var p: nat := (y / step).Floor;
    BandTiling(l, p);
    assert InBand(l, p, y);
    forall q: nat | InBand(l, q, y) ensures q == p {
      if q < p {
        BandsDisjoint(l, q, p);
      } else if p < q {
        BandsDisjoint(l, p, q);
      }
    }
    p
  }
}
