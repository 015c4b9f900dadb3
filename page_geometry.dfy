/**
 * Page geometry of the converter: the named page sizes, the orientation
 * swap and the single scale factor between CSS pixels and PDF points.
 * JavaScript numbers are modelled as mathematical reals.
 */
module PageGeometry {
  import opened Wrappers

  /** Ceiling of a real (JavaScript's Math.ceil on exact values), built from Dafny's floor. */
  function Ceil(x: real): (c: int)
    ensures (c - 1) as real < x <= c as real
  {
    if x.Floor as real == x then x.Floor else x.Floor + 1
  }

  /** Page dimensions in points: width, then height. */
  datatype PageSize = PageSize(width: real, height: real)

  /** The table of named page sizes; any other key is absent from it. */
  function LookupPageSize(key: string): (r: Option<PageSize>)
    ensures r.Some? <==> key == "a4" || key == "letter" || key == "legal"
    ensures r.Some? ==> 0.0 < r.value.width < r.value.height
  {
    if key == "a4" then Some(PageSize(595.28, 841.89))
    else if key == "letter" then Some(PageSize(612.0, 792.0))
    else if key == "legal" then Some(PageSize(612.0, 1008.0))
    else None
  }

  /** Only the exact string "landscape" selects landscape; anything else is portrait. */
  predicate IsLandscape(orientation: string) {
    orientation == "landscape"
  }

  /** The page size actually laid out: the named size, swapped for landscape. */
  function Orient(size: PageSize, orientation: string): PageSize {
    if IsLandscape(orientation) then PageSize(size.height, size.width) else size
  }

  /** Page dimensions for a size key and an orientation, None for an unknown key. */
  function PageDims(key: string, orientation: string): Option<PageSize> {
    match LookupPageSize(key)
    case None => None
    case Some(size) => Some(Orient(size, orientation))
  }

  /**
   * For each of the three named sizes, landscape yields (height, width) of the
   * table entry and is wider than tall; portrait yields the entry unchanged and
   * is taller than wide. An unknown key yields nothing.
   */
  lemma PageDimsOrientation(key: string, orientation: string)
    ensures PageDims(key, orientation).None? <==> LookupPageSize(key).None?
    ensures LookupPageSize(key).Some? && IsLandscape(orientation) ==>
      var base := LookupPageSize(key).value;
      var dims := PageDims(key, orientation).value;
      dims.width == base.height && dims.height == base.width && dims.width > dims.height > 0.0
    ensures LookupPageSize(key).Some? && !IsLandscape(orientation) ==>
      var dims := PageDims(key, orientation).value;
      dims == LookupPageSize(key).value && dims.height > dims.width > 0.0
  {
  }

  /**
   * Points per CSS pixel: the page width divided by the canvas width in CSS
   * pixels (device pixels over the rendering scale).
   */
  function Ratio(pdfW: real, imgW: nat, scale: nat): (ratio: real)
    requires imgW > 0 && scale > 0
    ensures pdfW > 0.0 ==> ratio > 0.0
    ensures ratio * (imgW as real / scale as real) == pdfW
  {
    var cssWidth := imgW as real / scale as real;
    assert cssWidth > 0.0;
    pdfW / cssWidth
  }
}
