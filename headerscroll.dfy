/**
 * The two scroll behaviours of the header: its background turns translucent
 * and blurred once the page is scrolled more than 100 pixels, and a click on
 * an in-page link scrolls so that the target sits just below the fixed
 * header.
 */
module HeaderScroll {
  import opened Wrappers

  /** The header's inline `background` and `backdropFilter` styles. */
  datatype Look = Look(background: string, backdropFilter: string)

  const Solid: Look := Look("#fff", "none")
  const Frosted: Look := Look("rgba(255, 255, 255, 0.95)", "blur(10px)")

  /**
   * The look for a vertical scroll offset, recomputed from scratch on every
   * scroll event; both style properties always switch together.
   */
  function LookAt(scrollY: real): (look: Look)
    ensures look == Frosted <==> scrollY > 100.0
    ensures look == Solid <==> scrollY <= 100.0
  {
    if scrollY > 100.0 then Frosted else Solid
  }

  class Header {
    var background: string
    var backdropFilter: string

    /** The `scroll` listener. */
    method OnScroll(scrollY: real)
      modifies this
      ensures Look(background, backdropFilter) == LookAt(scrollY)
    {
      background := if scrollY > 100.0 then Frosted.background else Solid.background;
      backdropFilter := if scrollY > 100.0 then Frosted.backdropFilter else Solid.backdropFilter;
    }
  }

  /**
   * Where a click on a link with the given `href` scrolls to. `offsets` maps
   * each `href` that resolves to an element to that element's `offsetTop`;
   * with no such element the click does nothing.
   */
  function Destination(href: string, offsets: map<string, int>, headerHeight: int): (top: Option<int>)
    ensures top.None? <==> href !in offsets
    ensures top.Some? ==> offsets[href] - top.value == headerHeight
  {
    if href in offsets then Some(offsets[href] - headerHeight) else None
  }

  class Viewport {
    var scrollY: int

    /** The `click` listener of an in-page link: scroll to the target less the header's height, if there is a target. */
    method OnAnchorClick(href: string, offsets: map<string, int>, headerHeight: int)
      modifies this
      ensures href !in offsets ==> scrollY == old(scrollY)
      ensures href in offsets ==> offsets[href] - scrollY == headerHeight
      ensures Destination(href, offsets, headerHeight).Some? ==> scrollY == Destination(href, offsets, headerHeight).value
    {
      var top := Destination(href, offsets, headerHeight);
      if top.None? {
        return;
      }
      scrollY := top.value;
    }
  }
}
