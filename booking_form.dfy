/**
 * The booking form controller: the submit handler with its simulated
 * 1500 ms submission, the single message slot, and the phone field's live
 * formatting. Timers are events the caller delivers: CompleteSubmission is
 * the submission delay elapsing, DismissMessage a message's display time
 * elapsing.
 */
module BookingForm {
  import opened Wrappers
  import opened FormValidation
  import opened Phone

  datatype MessageKind = Success | Error

  /** A message node; `id` tells apart the nodes created by successive calls. */
  datatype FormMessage = FormMessage(id: nat, kind: MessageKind, text: string)

  const SuccessText: string := "Thank you! We'll confirm your consultation within 24 hours."

  class Form {
    /** The current value of every named control. */
    var values: FormData
    /** The values `reset()` restores. */
    const defaults: FormData
    /** The one `.form-message` node attached to the form, if any. */
    var message: Option<FormMessage>
    var nextId: nat
    /** The submit button is disabled and reads "Processing...". */
    var busy: bool

    ghost predicate Valid()
      reads this
    {
      message.Some? ==> message.value.id < nextId
    }

    constructor (defaults: FormData)
      ensures Valid()
      ensures this.defaults == defaults && values == defaults
      ensures message == None && nextId == 0 && !busy
    {
      this.defaults := defaults;
      values := defaults;
      message := None;
      nextId := 0;
      busy := false;
    }

    /** `showFormMessage`: any existing message is removed, then the new one is attached. */
    method ShowFormMessage(kind: MessageKind, text: string) returns (id: nat)
      requires Valid()
      modifies this
      ensures Valid()
      ensures id == old(nextId) && nextId == old(nextId) + 1
      ensures message == Some(FormMessage(id, kind, text))
      ensures values == old(values) && busy == old(busy)
    {
      id := nextId;
      nextId := nextId + 1;
      message := Some(FormMessage(id, kind, text));
    }

    /**
     * The removal scheduled by the call that created message `id`: it detaches
     * that node, which is a no-op once a later call has replaced it.
     */
    method DismissMessage(id: nat)
      requires Valid()
      modifies this`message
      ensures Valid()
      ensures message == if old(message).Some? && old(message).value.id == id then None else old(message)
    {
      if message.Some? && message.value.id == id {
        message := None;
      }
    }

    /** The phone field's `input` handler: the field takes its formatted value. */
    method OnPhoneInput(raw: string)
      requires Valid()
      modifies this`values
      ensures Valid()
      ensures values == old(values)["phone" := FormatPhone(raw)]
    {
      values := values["phone" := FormatPhone(raw)];
    }

    /**
     * The submit handler: a rejected form shows the validation message; an
     * accepted one disables the button until the simulated submission completes.
     */
    method Submit() returns (accepted: bool)
      requires Valid()
      modifies this
      ensures Valid()
      ensures accepted <==> ValidateForm(old(values)) == Accepted
      ensures values == old(values)
      ensures accepted ==> busy && message == old(message) && nextId == old(nextId)
      ensures !accepted ==> busy == old(busy) && nextId == old(nextId) + 1
      ensures !accepted ==> message == Some(FormMessage(old(nextId), Error, ValidateForm(old(values)).message))
    {
      var verdict := ValidateForm(values);
      if verdict.Rejected? {
        var _ := ShowFormMessage(Error, verdict.message);
        accepted := false;
      } else {
        busy := true;
        accepted := true;
      }
    }

    /** The 1500 ms timer of an accepted submission: success message, reset, button restored. */
    method CompleteSubmission() returns (id: nat)
      requires Valid() && busy
      modifies this
      ensures Valid()
      ensures id == old(nextId) && nextId == old(nextId) + 1
      ensures message == Some(FormMessage(id, Success, SuccessText))
      ensures values == defaults && !busy
    {
      id := ShowFormMessage(Success, SuccessText);
      values := defaults;
      busy := false;
    }
  }

  /**
   * Two messages in succession leave only the second attached, and the
   * first message's dismissal timer does not remove the second.
   */
  method TwoMessagesLeaveOne(first: string, second: string) returns (attached: Option<FormMessage>)
    ensures attached == Some(FormMessage(1, Error, second))
  {
    var form := new Form(map[]);
    var a := form.ShowFormMessage(Error, first);
    var b := form.ShowFormMessage(Error, second);
    form.DismissMessage(a);
    attached := form.message;
  }

  /** A valid submission ends with the form reset, the button restored and one success message. */
  method SubmitValidForm(defaults: FormData, entered: FormData)
    returns (attached: Option<FormMessage>, after: FormData, busy: bool)
    requires ValidateForm(entered) == Accepted
    ensures attached == Some(FormMessage(0, Success, SuccessText))
    ensures after == defaults && !busy
  {
    var form := new Form(defaults);
    form.values := entered;
    var accepted := form.Submit();
    var _ := form.CompleteSubmission();
    attached, after, busy := form.message, form.values, form.busy;
  }
}
