/**
 * The contact form: three controlled fields, a simulated submission whose
 * timer firing is a discrete completion event, and the success message
 * with its "Send Another Message" reset.
 */
module Contact {

  /** The `name` attributes of the three inputs. */
  datatype Field = Name | Email | Message

  datatype FormState = FormState(name: string, email: string, message: string)

  /**
   * The component's state cells and the number of scheduled submission
   * timers that have not fired yet.
   */
  datatype ContactModel = ContactModel(
    formState: FormState,
    isSubmitting: bool,
    formSuccess: bool,
    pendingTimers: nat)

  datatype Event =
    | Change(field: Field, value: string)  // an input's change event
    | Submit                               // the form's submit event
    | TimerFired                           // the simulated request's timeout
    | SendAnother                          // the "Send Another Message" button

  const EmptyForm: FormState := FormState("", "", "")

  const Initial: ContactModel := ContactModel(EmptyForm, false, false, 0)

  function FieldValue(f: FormState, field: Field): string {
    match field
    case Name => f.name
    case Email => f.email
    case Message => f.message
  }

  /** `{ ...prev, [name]: value }`. */
  function WithField(f: FormState, field: Field, value: string): (r: FormState)
    ensures FieldValue(r, field) == value
    ensures forall other: Field :: other != field ==> FieldValue(r, other) == FieldValue(f, other)
  {
    match field
    case Name => f.(name := value)
    case Email => f.(email := value)
    case Message => f.(message := value)
  }

  /** The state after an event. A timer can only fire after it was scheduled. */
  function Step(m: ContactModel, e: Event): (r: ContactModel)
    requires e.TimerFired? ==> m.pendingTimers > 0
    ensures e.Change? ==> r.isSubmitting == m.isSubmitting && r.formSuccess == m.formSuccess
    ensures e.Change? ==> FieldValue(r.formState, e.field) == e.value
    ensures e.Submit? || e.TimerFired? ==> r.formState == m.formState && r.isSubmitting == e.Submit?
    ensures r.formSuccess && !m.formSuccess ==> e.TimerFired?
    ensures e.SendAnother? ==> !r.formSuccess && r.formState == EmptyForm
  {
    match e
    case Change(field, value) => m.(formState := WithField(m.formState, field, value))
    case Submit => m.(isSubmitting := true, pendingTimers := m.pendingTimers + 1)
    case TimerFired => m.(isSubmitting := false, formSuccess := true, pendingTimers := m.pendingTimers - 1)
    case SendAnother => m.(formSuccess := false, formState := EmptyForm)
  }

  /** The part of the page that the form column renders. */
  datatype View =
    | FormView(values: FormState, submitDisabled: bool, submitLabel: string)
    | SuccessView

  function Render(m: ContactModel): (v: View)
    ensures v.SuccessView? <==> m.formSuccess
    ensures v.FormView? ==> v.values == m.formState
    ensures v.FormView? ==> (v.submitDisabled <==> m.isSubmitting)
    ensures v.FormView? ==> v.submitLabel == (if m.isSubmitting then "Sending..." else "Send Message")
  {
    if m.formSuccess then SuccessView
    else FormView(m.formState, m.isSubmitting, if m.isSubmitting then "Sending..." else "Send Message")
  }

  /**
   * Which events the rendered page can deliver: the inputs and the form
   * exist only while the form is shown; the browser submits only through
   * an enabled button and with every `required` field filled in; a timer
   * fires only when one is pending; the reset button exists only on the
   * success message.
   */
  predicate Enabled(m: ContactModel, e: Event)
    ensures Enabled(m, e) && (e.Change? || e.Submit?) ==> Render(m).FormView?
    ensures Enabled(m, e) && e.Submit? ==> Render(m) == FormView(m.formState, false, "Send Message")
    ensures Enabled(m, e) && e.SendAnother? ==> Render(m) == SuccessView
  {
    match e
    case Change(_, _) => !m.formSuccess
    case Submit =>
      && !m.formSuccess && !m.isSubmitting
      && m.formState.name != "" && m.formState.email != "" && m.formState.message != ""
    case TimerFired => m.pendingTimers > 0
    case SendAnother => m.formSuccess
  }

  /**
   * What holds in every reachable state: at most one request is in flight,
   * and it is in flight exactly while the form says it is submitting; the
   * success message is never shown while submitting.
   */
  predicate Inv(m: ContactModel) {
    && m.pendingTimers <= 1
    && (m.isSubmitting <==> m.pendingTimers == 1)
    && (m.isSubmitting ==> !m.formSuccess)
  }

  lemma InitialState()
    ensures Inv(Initial)
    ensures Initial.formState.name == "" && Initial.formState.email == "" && Initial.formState.message == ""
    ensures !Initial.isSubmitting && !Initial.formSuccess
    ensures Render(Initial) == FormView(EmptyForm, false, "Send Message")
  {
  }

  lemma StepPreservesInv(m: ContactModel, e: Event)
    requires Inv(m) && Enabled(m, e)
    ensures Inv(Step(m, e))
  {
  }

  /**
   * Success is reached only by the completion of a submission that was in
   * progress: the form never skips the submitting state.
   */
  lemma SuccessOnlyAfterSubmitting(m: ContactModel, e: Event)
    requires Inv(m) && Enabled(m, e)
    requires !m.formSuccess && Step(m, e).formSuccess
    ensures e == TimerFired && m.isSubmitting && !Step(m, e).isSubmitting
  {
  }

  /** A submission of a filled-in form goes idle, then submitting, then success. */
  lemma SubmitThenComplete(m: ContactModel)
    requires Inv(m) && Enabled(m, Submit)
    ensures Step(m, Submit).isSubmitting && Render(Step(m, Submit)).FormView?
    ensures Render(Step(m, Submit)).submitDisabled
    ensures Enabled(Step(m, Submit), TimerFired)
    ensures Step(Step(m, Submit), TimerFired).formSuccess
    ensures !Step(Step(m, Submit), TimerFired).isSubmitting
    ensures Step(Step(m, Submit), TimerFired).formState == m.formState
  {
  }

  /** Traces the page can produce, one event at a time. */
  predicate Admissible(m: ContactModel, events: seq<Event>)
    decreases |events|
  {
    events == [] || (Enabled(m, events[0]) && Admissible(Step(m, events[0]), events[1..]))
  }

  function Run(m: ContactModel, events: seq<Event>): ContactModel
    requires Admissible(m, events)
    decreases |events|
  {
    if events == [] then m else Run(Step(m, events[0]), events[1..])
  }

  /** Every state the page reaches from mounting keeps the invariant. */
  lemma {:induction false} RunPreservesInv(m: ContactModel, events: seq<Event>)
    requires Inv(m) && Admissible(m, events)
    ensures Inv(Run(m, events))
    decreases |events|
  {
    if events != [] {
      StepPreservesInv(m, events[0]);
      RunPreservesInv(Step(m, events[0]), events[1..]);
    }
  }

  /** Along any admissible trace the success message appears only after the submitting state. */
  lemma {:induction false} SuccessIsPrecededBySubmitting(m: ContactModel, events: seq<Event>)
    requires Inv(m) && !m.formSuccess && !m.isSubmitting
    requires Admissible(m, events) && Run(m, events).formSuccess
    ensures exists k :: 0 <= k < |events| && events[k] == Submit
    decreases |events|
  {
    if events == [] {
      assert false;
    } else if events[0] == Submit {
      assert events[0] == Submit;
    } else {
      var next := Step(m, events[0]);
      StepPreservesInv(m, events[0]);
      assert !next.isSubmitting && !next.formSuccess;
      SuccessIsPrecededBySubmitting(next, events[1..]);
      var k :| 0 <= k < |events[1..]| && events[1..][k] == Submit;
      assert events[k + 1] == Submit;
    }
  }

  /** The component's state cells; the pending timers are the browser's, hence ghost. */
  class ContactSection {
    var formState: FormState
    var isSubmitting: bool
    var formSuccess: bool
    ghost var pendingTimers: nat

    ghost function Model(): ContactModel
      reads this
    {
      ContactModel(formState, isSubmitting, formSuccess, pendingTimers)
    }

    constructor ()
      ensures Model() == Initial
    {
      formState := EmptyForm;
      isSubmitting := false;
      formSuccess := false;
      pendingTimers := 0;
    }

    /** `handleChange` for the input whose `name` is `field`. */
    method HandleChange(field: Field, value: string)
      modifies this
      ensures Model() == Step(old(Model()), Change(field, value))
      ensures FieldValue(formState, field) == value
      ensures forall other: Field :: other != field ==> FieldValue(formState, other) == FieldValue(old(formState), other)
      ensures isSubmitting == old(isSubmitting) && formSuccess == old(formSuccess)
    {
      formState := WithField(formState, field, value);
    }

    /** `handleSubmit`: marks the form submitting and schedules the completion timer. */
    method HandleSubmit()
      modifies this
      ensures Model() == Step(old(Model()), Submit)
      ensures isSubmitting && formSuccess == old(formSuccess) && formState == old(formState)
      ensures pendingTimers == old(pendingTimers) + 1
    {
      isSubmitting := true;
      pendingTimers := pendingTimers + 1;
    }

    /** The timeout callback of a scheduled submission. */
    method CompleteSubmission()
      requires pendingTimers > 0
      modifies this
      ensures Model() == Step(old(Model()), TimerFired)
      ensures !isSubmitting && formSuccess && formState == old(formState)
    {
      isSubmitting := false;
      formSuccess := true;
      pendingTimers := pendingTimers - 1;
    }

    /** The "Send Another Message" button. */
    method SendAnotherMessage()
      modifies this
      ensures Model() == Step(old(Model()), SendAnother)
      ensures !formSuccess && formState == EmptyForm && isSubmitting == old(isSubmitting)
    {
      formSuccess := false;
      formState := EmptyForm;
    }
  }
}
