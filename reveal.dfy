/**
 * The scroll-reveal animation. Each card, statistic and contact item is
 * given the `animate-hidden` class and observed; the first time it is
 * reported as intersecting the viewport it gets `animate-visible`, loses
 * `animate-hidden` and is no longer observed. Nothing ever hides it again.
 */
module Reveal {

  /** The element's two animation classes and whether the observer still watches it. */
  datatype Item = Item(hidden: bool, visible: bool, observed: bool)

  /** As set up when the page loads. */
  const Pending: Item := Item(true, false, true)

  /** One observer callback for the element; `intersecting` is its `isIntersecting`. */
  function Report(item: Item, intersecting: bool): (r: Item)
    ensures item.visible ==> r.visible
    ensures r.observed ==> r == item
    ensures r != item ==> item.observed && intersecting && r.visible && !r.hidden
  {
    if item.observed && intersecting then Item(false, true, false) else item
  }

  /** The element after a sequence of observer reports. */
  function Run(item: Item, reports: seq<bool>): Item
    decreases |reports|
  {
    if reports == [] then item else Run(Report(item, reports[0]), reports[1..])
  }

  /** Consistent states: pending (hidden and observed) or revealed (visible and no longer observed). */
  ghost predicate Consistent(item: Item) {
    item == Pending || item == Item(false, true, false)
  }

  /**
   * From any consistent state, reports keep the element consistent, never
   * take away `animate-visible` once given, and reveal it exactly when one
   * of them says it intersects.
   */
  lemma {:induction false} RevealIsOneWay(item: Item, reports: seq<bool>)
    requires Consistent(item)
    ensures Consistent(Run(item, reports))
    ensures item.visible ==> Run(item, reports).visible
    ensures item == Pending ==> (Run(item, reports).visible <==> true in reports)
    decreases |reports|
  {
    if reports != [] {
      RevealIsOneWay(Report(item, reports[0]), reports[1..]);
      assert true in reports <==> reports[0] || true in reports[1..] by {
        assert reports == [reports[0]] + reports[1..];
      }
    }
  }

  class Element {
    var hidden: bool
    var visible: bool
    var observed: bool

    function State(): Item
      reads this
    {
      Item(hidden, visible, observed)
    }

    /** `classList.add('animate-hidden')` and `observe`, once at start-up. */
    constructor ()
      ensures State() == Pending
    {
      hidden, visible, observed := true, false, true;
    }

    /** The observer's callback entry for this element. */
    method OnIntersection(intersecting: bool)
      modifies this
      ensures State() == Report(old(State()), intersecting)
    {
      if observed && intersecting {
        visible := true;
        hidden := false;
        observed := false;
      }
    }
  }
}
