/**
 * The mobile navigation menu. Two elements carry an `active` class: the
 * toggle button and the menu panel. Clicking the toggle flips both; clicking
 * a navigation link, or pressing Escape anywhere on the page, clears both.
 */
module NavMenu {

  /** Whether the toggle button and the menu panel carry the `active` class. */
  datatype Flags = Flags(toggleActive: bool, menuActive: bool)

  const Closed: Flags := Flags(false, false)

  /** `classList.toggle('active')` on both elements. */
  function Toggled(f: Flags): (g: Flags)
    ensures g.toggleActive != f.toggleActive && g.menuActive != f.menuActive
  {
    Flags(!f.toggleActive, !f.menuActive)
  }

  /** The page events that touch the menu. */
  datatype Event = ToggleClick | LinkClick | KeyDown(key: string)

  /** The effect of one event: a link click or the Escape key removes `active` from both elements. */
  function Step(f: Flags, e: Event): (g: Flags)
    ensures !e.ToggleClick? ==> g == f || g == Closed
    ensures g == f <==> (e.KeyDown? && e.key != "Escape") || (!e.ToggleClick? && f == Closed)
  {
    match e
    case ToggleClick => Toggled(f)
    case LinkClick => Closed
    case KeyDown(key) => if key == "Escape" then Closed else f
  }

  /** The flags after a sequence of events, first to last. */
  function Run(f: Flags, events: seq<Event>): Flags
    decreases |events|
  {
    if events == [] then f else Run(Step(f, events[0]), events[1..])
  }

  /** Two toggles give back the original flags. */
  lemma ToggleTwice(f: Flags)
    ensures Toggled(Toggled(f)) == f
  {
  }

  /** Closing is idempotent and does not depend on the state it starts from. */
  lemma CloseIdempotent(f: Flags, e: Event)
    requires e == LinkClick || e == KeyDown("Escape")
    ensures Step(f, e) == Closed && Step(Step(f, e), e) == Closed
  {
  }

  /**
   * Running events one after another is running them as one sequence.
   * The same fact, with the same proof, as `Notifications.RunAppend`: each module folds its
   * own step function over its own events.
   */
  lemma {:induction false} RunAppend(f: Flags, first: seq<Event>, second: seq<Event>)
    ensures Run(f, first + second) == Run(Run(f, first), second)
    decreases |first|
  {
    if first != [] {
      assert (first + second)[1..] == first[1..] + second;
      RunAppend(Step(f, first[0]), first[1..], second);
    } else {
      assert first + second == second;
    }
  }

  /** Starting with the two flags equal (both off when the page loads), no sequence of events sets them apart. */
  lemma {:induction false} FlagsStayInStep(f: Flags, events: seq<Event>)
    requires f.toggleActive == f.menuActive
    ensures Run(f, events).toggleActive == Run(f, events).menuActive
    decreases |events|
  {
    if events != [] {
      FlagsStayInStep(Step(f, events[0]), events[1..]);
    }
  }

  /** Whatever happened before, a link click or Escape as the last event leaves the menu closed. */
  lemma ClosedAfterLinkOrEscape(f: Flags, events: seq<Event>, last: Event)
    requires last == LinkClick || last == KeyDown("Escape")
    ensures Run(f, events + [last]) == Closed
  {
    RunAppend(f, events, [last]);
  }

  /** `n` toggle clicks in a row. */
  function Toggles(n: nat): (events: seq<Event>)
    ensures |events| == n && forall k | 0 <= k < n :: events[k] == ToggleClick
  {
    if n == 0 then [] else [ToggleClick] + Toggles(n - 1)
  }

  /** An even number of toggle clicks restores the flags; an odd number flips them. */
  lemma {:induction false} RunToggles(f: Flags, n: nat)
    ensures Run(f, Toggles(n)) == if n % 2 == 0 then f else Toggled(f)
    decreases n
  {
    if n > 0 {
      RunToggles(Toggled(f), n - 1);
    }
  }

  /** The two elements, as the page holds them. */
  class Menu {
    var toggleActive: bool
    var menuActive: bool

    function State(): Flags
      reads this
    {
      Flags(toggleActive, menuActive)
    }

    /** As the page loads: neither element is active. */
    constructor ()
      ensures State() == Closed
    {
      toggleActive, menuActive := false, false;
    }

    /** A click on the toggle button. */
    method OnToggleClick()
      modifies this
      ensures State() == Step(old(State()), ToggleClick)
      ensures toggleActive == !old(toggleActive) && menuActive == !old(menuActive)
    {
      toggleActive := !toggleActive;
      menuActive := !menuActive;
    }

    /** A click on any navigation link. */
    method OnLinkClick()
      modifies this
      ensures State() == Step(old(State()), LinkClick) == Closed
    {
      toggleActive := false;
      menuActive := false;
    }

    /** A key press anywhere on the page; only Escape has an effect. */
    method OnKeyDown(key: string)
      modifies this
      ensures State() == Step(old(State()), KeyDown(key))
      ensures key == "Escape" ==> State() == Closed
      ensures key != "Escape" ==> State() == old(State())
    {
      if key == "Escape" {
        toggleActive := false;
        menuActive := false;
      }
    }
  }
}
