/**
 * The notification toast (`showNotification`). Showing a message first
 * removes every notification on the page, then appends one new element
 * whose background colour follows its type. A timer slides it into view
 * shortly afterwards, and it is removed by its close button or by a second
 * timer, whichever comes first. Elements are told apart by an identity
 * handed out when they are created; a timer or button that refers to an
 * element already removed has no effect on the page.
 */
module Notifications {

  const Green: string := "#4CAF50"
  const Red: string := "#f44336"
  const Blue: string := "#2196F3"

  /** The background colour for a notification type: green for success, red for error, blue for anything else. */
  function Background(kind: string): (c: string)
    ensures c == Green <==> kind == "success"
    ensures c == Red <==> kind == "error"
    ensures c == Blue <==> kind != "success" && kind != "error"
  {
    if kind == "success" then Green else if kind == "error" then Red else Blue
  }

  /** One notification element; `slidIn` is whether its transform has been set to `translateX(0)`. */
  datatype Notification = Notification(id: nat, message: string, kind: string, background: string, slidIn: bool)

  /** The notifications attached to the page body, and the identity the next one will get. */
  datatype Page = Page(shown: seq<Notification>, nextId: nat)

  /** At most one notification is on the page, and every identity in use has been handed out. */
  ghost predicate Valid(p: Page) {
    |p.shown| <= 1 && forall k | 0 <= k < |p.shown| :: p.shown[k].id < p.nextId
  }

  /** `shown` without the element whose identity is `id` (`element.remove()`). */
  function Without(shown: seq<Notification>, id: nat): (r: seq<Notification>)
    ensures |r| <= |shown|
    ensures forall k | 0 <= k < |r| :: r[k] in shown && r[k].id != id
    ensures (forall k | 0 <= k < |shown| :: shown[k].id != id) ==> r == shown
  {
    if shown == [] then []
    else (if shown[0].id == id then [] else [shown[0]]) + Without(shown[1..], id)
  }

  /** The effect of the slide-in timer: the element with identity `id`, if still on the page, moves into view. */
  function SlidIn(shown: seq<Notification>, id: nat): (r: seq<Notification>)
    ensures |r| == |shown|
    ensures forall k | 0 <= k < |r| :: r[k] == if shown[k].id == id then shown[k].(slidIn := true) else shown[k]
  {
    seq(|shown|, k requires 0 <= k < |shown| => if shown[k].id == id then shown[k].(slidIn := true) else shown[k])
  }

  /** What happens on the page: a call of `showNotification`, the slide-in timer, the close button, the removal timer. */
  datatype Event = Show(message: string, kind: string) | SlideIn(id: nat) | Close(id: nat) | Expire(id: nat)

  function Step(p: Page, e: Event): (q: Page)
    ensures q.nextId >= p.nextId
    ensures e.Show? ==> |q.shown| == 1 && q.shown[0].id == p.nextId && q.shown[0].message == e.message
    ensures !e.Show? ==> q.nextId == p.nextId && |q.shown| <= |p.shown|
  {
    match e
    case Show(message, kind) =>
      Page([Notification(p.nextId, message, kind, Background(kind), false)], p.nextId + 1)
    case SlideIn(id) => p.(shown := SlidIn(p.shown, id))
    case Close(id) => p.(shown := Without(p.shown, id))
    case Expire(id) => p.(shown := Without(p.shown, id))
  }

  function Run(p: Page, events: seq<Event>): Page
    decreases |events|
  {
    if events == [] then p else Run(Step(p, events[0]), events[1..])
  }

  /** After showing a message there is exactly one notification: that message, in the colour of its type, not yet slid in. */
  lemma ShowLeavesOne(p: Page, message: string, kind: string)
    ensures var q := Step(p, Show(message, kind));
      Valid(q) && |q.shown| == 1 && q.shown[0].message == message
      && q.shown[0].background == Background(kind) && !q.shown[0].slidIn
  {
  }

  /** Every event keeps the page to at most one notification. */
  lemma StepKeepsValid(p: Page, e: Event)
    requires Valid(p)
    ensures Valid(Step(p, e))
  {
  }

  /** No sequence of events ever puts two notifications on the page. */
  lemma {:induction false} AtMostOneNotification(p: Page, events: seq<Event>)
    requires Valid(p)
    ensures Valid(Run(p, events))
    decreases |events|
  {
    if events != [] {
      StepKeepsValid(p, events[0]);
      AtMostOneNotification(Step(p, events[0]), events[1..]);
    }
  }

  /**
   * A timer or close button of a notification that is no longer on the page
   * changes nothing: in particular the auto-removal of an older notification
   * never removes the one shown after it.
   */
  lemma StaleRemovalHarmless(p: Page, id: nat)
    requires forall k | 0 <= k < |p.shown| :: p.shown[k].id != id
    ensures Step(p, Close(id)) == p && Step(p, Expire(id)) == p && Step(p, SlideIn(id)) == p
  {
    assert SlidIn(p.shown, id) == p.shown;
  }

  /**
   * Running events one after another is running them as one sequence.
   * The same fact, with the same proof, as `NavMenu.RunAppend`: each module folds its
   * own step function over its own events.
   */
  lemma {:induction false} RunAppend(p: Page, first: seq<Event>, second: seq<Event>)
    ensures Run(p, first + second) == Run(Run(p, first), second)
    decreases |first|
  {
    if first != [] {
      assert (first + second)[1..] == first[1..] + second;
      RunAppend(Step(p, first[0]), first[1..], second);
    } else {
      assert first + second == second;
    }
  }

  /** Whatever came before, the page ends showing only the last message shown. */
  lemma LastShowWins(p: Page, events: seq<Event>, message: string, kind: string)
    ensures var q := Run(p, events + [Show(message, kind)]);
      |q.shown| == 1 && q.shown[0].message == message && q.shown[0].background == Background(kind)
  {
    RunAppend(p, events, [Show(message, kind)]);
  }

  /** An error toast replaced at once by a success toast leaves only the success toast, in green. */
  lemma ErrorThenSuccess(p: Page, first: string, second: string)
    ensures var q := Run(p, [Show(first, "error"), Show(second, "success")]);
      |q.shown| == 1 && q.shown[0].message == second && q.shown[0].background == Green
  {
    assert [Show(first, "error"), Show(second, "success")] == [Show(first, "error")] + [Show(second, "success")];
    LastShowWins(p, [Show(first, "error")], second, "success");
  }

  /** The notifications in the page body. */
  class NotificationArea {
    var shown: seq<Notification>
    var nextId: nat

    function State(): Page
      reads this
    {
      Page(shown, nextId)
    }

    constructor ()
      ensures State() == Page([], 0) && Valid(State())
    {
      shown, nextId := [], 0;
    }

    /** `showNotification(message, type)`, with `type` defaulting to "info"; returns the new element's identity. */
    method Show(message: string, kind: string := "info") returns (id: nat)
      requires Valid(State())
      modifies this
      ensures Valid(State()) && State() == Step(old(State()), Event.Show(message, kind))
      ensures id == old(nextId) && shown == [Notification(id, message, kind, Background(kind), false)]
    {
      shown := [];
      id := nextId;
      nextId := nextId + 1;
      shown := shown + [Notification(id, message, kind, Background(kind), false)];
    }

    /** The 100 ms timer: the element slides into view if it is still on the page. */
    method SlideIn(id: nat)
      requires Valid(State())
      modifies this
      ensures Valid(State()) && State() == Step(old(State()), Event.SlideIn(id))
    {
      shown := SlidIn(shown, id);
    }

    /** `notification.remove()`, run by the close button and by the 5000 ms timer alike. */
    method Remove(id: nat)
      requires Valid(State())
      modifies this
      ensures Valid(State()) && State() == Step(old(State()), Close(id)) == Step(old(State()), Expire(id))
      ensures |shown| <= |old(shown)| && forall k | 0 <= k < |shown| :: shown[k].id != id
    {
      shown := Without(shown, id);
    }
  }
}
