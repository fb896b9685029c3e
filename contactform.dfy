/**
 * The simulated contact-form submission. Submitting disables the submit
 * button and changes its text to "Enviando..."; a 2000 ms timer later
 * shows a success notification, resets the form, puts back the text the
 * button had when it was submitted and enables it again. Every submission
 * schedules its own timer, and timers with equal delays fire in the order
 * they were set, so the labels waiting to be restored form a queue.
 */
module ContactForm {
  import Notifications

  const SendingText: string := "Enviando..."
  const SuccessMessage: string := "Mensagem enviada com sucesso! Entraremos em contato em breve."

  /** The submit button, and the labels captured by the submissions whose timers have not fired yet. */
  datatype FormState = FormState(text: string, disabled: bool, pending: seq<string>)

  /** The submit handler: remember the text, show "Enviando...", disable the button. */
  function Submitted(s: FormState): (t: FormState)
    ensures t.disabled && t.text == SendingText
    ensures t.pending == s.pending + [s.text]
  {
    FormState(SendingText, true, s.pending + [s.text])
  }

  /** The earliest pending timer: restore the text that submission captured and enable the button. */
  function Completed(s: FormState): (t: FormState)
    requires s.pending != []
    ensures !t.disabled && t.text == s.pending[0] && t.pending == s.pending[1..]
  {
    FormState(s.pending[0], false, s.pending[1..])
  }

  /** A click on the submit button, or the earliest pending timer firing. */
  datatype Event = SubmitClick | TimerFires

  /** A disabled button dispatches no submission, and with no timer pending none fires. */
  function Step(s: FormState, e: Event): (t: FormState)
    ensures s.disabled && e == SubmitClick ==> t == s
    ensures |s.pending| <= 1 && (s.disabled <==> s.pending != []) ==>
      |t.pending| <= 1 && (t.disabled <==> t.pending != [])
  {
    match e
    case SubmitClick => if s.disabled then s else Submitted(s)
    case TimerFires => if s.pending == [] then s else Completed(s)
  }

  function Run(s: FormState, events: seq<Event>): FormState
    decreases |events|
  {
    if events == [] then s else Run(Step(s, events[0]), events[1..])
  }

  /** Waiting for input, with the button's own text. */
  ghost predicate Idle(s: FormState, text: string) {
    s == FormState(text, false, [])
  }

  /** Waiting for the one pending timer, which will restore `text`. */
  ghost predicate Sending(s: FormState, text: string) {
    s == FormState(SendingText, true, [text])
  }

  /** One submission and its timer bring the button back to where it was. */
  lemma SubmitThenComplete(text: string)
    ensures Sending(Submitted(FormState(text, false, [])), text)
    ensures Completed(Submitted(FormState(text, false, []))) == FormState(text, false, [])
  {
  }

  /**
   * Because a disabled button dispatches no submission, every sequence of
   * clicks and timers keeps the form either idle with the button's own text
   * or sending with exactly one pending timer, which will restore that text.
   */
  lemma {:induction false} TextAlwaysRestored(s: FormState, text: string, events: seq<Event>)
    requires Idle(s, text) || Sending(s, text)
    ensures Idle(Run(s, events), text) || Sending(Run(s, events), text)
    decreases |events|
  {
    if events != [] {
      var t := Step(s, events[0]);
      assert Idle(t, text) || Sending(t, text);
      TextAlwaysRestored(t, text, events[1..]);
    }
  }

  /**
   * The handler itself does not guard against a second submission: run
   * twice before the timer, it captures "Enviando..." as the text to
   * restore, and once both timers have fired the enabled button still reads
   * "Enviando...". Only the disabled button keeps this from happening.
   */
  lemma DoubleSubmitKeepsSendingText(text: string)
    ensures var s := Submitted(Submitted(FormState(text, false, [])));
      s.pending == [text, SendingText]
      && Completed(Completed(s)) == FormState(SendingText, false, [])
  {
  }

  /** The form: its submit button, the values of its fields and their defaults. */
  class Form {
    var text: string
    var disabled: bool
    var pending: seq<string>
    var values: seq<string>
    const defaults: seq<string>

    function State(): FormState
      reads this
    {
      FormState(text, disabled, pending)
    }

    constructor (text: string, defaults: seq<string>)
      ensures Idle(State(), text) && this.defaults == defaults && values == defaults
    {
      this.text, disabled, pending := text, false, [];
      this.defaults, values := defaults, defaults;
    }

    /** The `submit` listener. */
    method OnSubmit()
      modifies this
      ensures State() == Submitted(old(State())) && values == old(values)
    {
      pending := pending + [text];
      text := SendingText;
      disabled := true;
    }

    /** The 2000 ms timer of the earliest pending submission. */
    method OnTimer(area: Notifications.NotificationArea)
      requires pending != [] && Notifications.Valid(area.State())
      modifies this, area
      ensures State() == Completed(old(State())) && values == defaults
      ensures Notifications.Valid(area.State())
      ensures area.State() == Notifications.Step(old(area.State()), Notifications.Show(SuccessMessage, "success"))
      ensures |area.shown| == 1 && area.shown[0].message == SuccessMessage
      ensures area.shown[0].background == Notifications.Green
    {
      var _ := area.Show(SuccessMessage, "success");
      values := defaults;
      text := pending[0];
      pending := pending[1..];
      disabled := false;
    }
  }
}
