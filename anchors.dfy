/**
 * Collection of the document's hyperlinks before rendering: each anchor
 * with an href attribute is kept unless the href is empty or an in-page
 * fragment, and its absolute position is the sum of the offsets along its
 * offsetParent chain up to the body.
 */
module Anchors {
  /**
   * One element of an offsetParent chain: its offsetTop and offsetLeft in
   * CSS pixels, already defaulted to 0 where the element reports none.
   */
  datatype Offset = Offset(top: int, left: int)

  /**
   * An anchor element as the scan sees it: its href attribute, the chain of
   * offsets from the anchor itself up to (not including) the body, and its
   * measured offsetWidth and offsetHeight.
   */
  datatype AnchorElement = AnchorElement(href: string, chain: seq<Offset>, offsetWidth: nat, offsetHeight: nat)

  /** A collected link: href and rectangle in CSS pixels of the document. */
  datatype Anchor = Anchor(href: string, x: int, y: int, width: nat, height: nat)

  /** Size used for an anchor whose measured width is 0. */
  const FallbackWidth: nat := 10
  /** Size used for an anchor whose measured height is 0. */
  const FallbackHeight: nat := 12

  /** Sum of the offsetTop values along a chain. */
  function SumTop(chain: seq<Offset>): int {
    if chain == [] then 0 else SumTop(chain[..|chain| - 1]) + chain[|chain| - 1].top
  }

  /** Sum of the offsetLeft values along a chain. */
  function SumLeft(chain: seq<Offset>): int {
    if chain == [] then 0 else SumLeft(chain[..|chain| - 1]) + chain[|chain| - 1].left
  }

  /**
   * Offsets compose along the chain: the position relative to the body is
   * the position relative to an intermediate offsetParent plus that
   * parent's own position relative to the body.
   */
  lemma {:induction false} SumSplit(inner: seq<Offset>, outer: seq<Offset>)
    ensures SumTop(inner + outer) == SumTop(inner) + SumTop(outer)
    ensures SumLeft(inner + outer) == SumLeft(inner) + SumLeft(outer)
  {
    if outer != [] {
      var init := outer[..|outer| - 1];
      assert (inner + outer)[..|inner + outer| - 1] == inner + init;
      SumSplit(inner, init);
    } else {
      assert inner + outer == inner;
    }
  }

  /** The walk up the offsetParent chain, accumulating top and left. */
  method AbsolutePosition(chain: seq<Offset>) returns (top: int, left: int)
    ensures top == SumTop(chain) && left == SumLeft(chain)
  {
    top, left := 0, 0;
    var i := 0;
    while i < |chain|
      invariant 0 <= i <= |chain|
      invariant top == SumTop(chain[..i]) && left == SumLeft(chain[..i])
    {
      assert chain[..i + 1][..i] == chain[..i];
      top := top + chain[i].top;
      left := left + chain[i].left;
      i := i + 1;
    }
    assert chain[..i] == chain;
  }

  /** A measured size, or the fallback when the measurement is 0. */
  function OrFallback(measured: nat, fallback: nat): (d: nat)
    ensures measured > 0 ==> d == measured
    ensures measured == 0 ==> d == fallback
  {
    if measured == 0 then fallback else measured
  }

  /** The hrefs that are turned into link annotations: non-empty and not a fragment. */
  predicate IsExternalHref(href: string) {
    href != [] && href[0] != '#'
  }

  /** The record collected for a kept anchor element. */
  function ToAnchor(e: AnchorElement): Anchor {
    Anchor(e.href, SumLeft(e.chain), SumTop(e.chain),
           OrFallback(e.offsetWidth, FallbackWidth), OrFallback(e.offsetHeight, FallbackHeight))
  }

  /** The anchors collected from the elements, in document order. */
  function Collected(elements: seq<AnchorElement>): seq<Anchor> {
    if elements == [] then []
    else
      var last := elements[|elements| - 1];
      Collected(elements[..|elements| - 1]) + (if IsExternalHref(last.href) then [ToAnchor(last)] else [])
  }

  /** The scan over all anchor elements; with link preservation off nothing is collected. */
  method CollectAnchors(elements: seq<AnchorElement>, preserveLinks: bool) returns (anchors: seq<Anchor>)
    ensures anchors == if preserveLinks then Collected(elements) else []
    ensures forall k :: 0 <= k < |anchors| ==>
      IsExternalHref(anchors[k].href) && anchors[k].width > 0 && anchors[k].height > 0
  {
    anchors := [];
    if !preserveLinks {
      return;
    }
    for i := 0 to |elements|
      invariant anchors == Collected(elements[..i])
    {
      assert elements[..i + 1][..i] == elements[..i];
      var a := elements[i];
      var href := a.href;
      if !IsExternalHref(href) {
        continue;
      }
      var top, left := AbsolutePosition(a.chain);
      anchors := anchors + [Anchor(href, left, top,
                                   OrFallback(a.offsetWidth, FallbackWidth),
                                   OrFallback(a.offsetHeight, FallbackHeight))];
    }
    assert elements[..|elements|] == elements;
    CollectedSound(elements);
  }

  /**
   * Only kept hrefs are collected, each with a positive size, and every
   * collected anchor is the record of some element of the input.
   */
  lemma {:induction false} CollectedSound(elements: seq<AnchorElement>)
    ensures |Collected(elements)| <= |elements|
    ensures forall k :: 0 <= k < |Collected(elements)| ==>
      var a := Collected(elements)[k];
      IsExternalHref(a.href) && a.width > 0 && a.height > 0
    ensures forall a :: a in Collected(elements) ==>
      exists e :: e in elements && IsExternalHref(e.href) && a == ToAnchor(e)
  {
    if elements != [] {
      var init := elements[..|elements| - 1];
      CollectedSound(init);
      forall a | a in Collected(elements)
        ensures exists e :: e in elements && IsExternalHref(e.href) && a == ToAnchor(e)
      {
        if a in Collected(init) {
          var e :| e in init && IsExternalHref(e.href) && a == ToAnchor(e);
          assert e in elements;
        } else {
          assert a == ToAnchor(elements[|elements| - 1]);
        }
      }
    }
  }

  /** Every element with a kept href is collected. */
  lemma {:induction false} CollectedComplete(elements: seq<AnchorElement>)
    ensures forall e :: e in elements && IsExternalHref(e.href) ==> ToAnchor(e) in Collected(elements)
  {
    if elements != [] {
      var init := elements[..|elements| - 1];
      CollectedComplete(init);
      assert elements == init + [elements[|elements| - 1]];
    }
  }

  /** Collection works element by element: collecting a concatenation concatenates the collections. */
  lemma {:induction false} CollectedAppend(first: seq<AnchorElement>, second: seq<AnchorElement>)
    ensures Collected(first + second) == Collected(first) + Collected(second)
  {
    if second == [] {
      assert first + second == first;
    } else {
      var init := second[..|second| - 1];
      assert (first + second)[..|first + second| - 1] == first + init;
      CollectedAppend(first, init);
    }
  }
}
