/**
  The lead-capture form hook: four state cells updated by the start of a
  submission, by its completion with the relay's answer, and by an explicit
  reset. The HTTP exchange is replaced by the `Outcome` it produced.
*/
module FormHandler {
  import opened Wrappers

  /** Shown when the relay rejects a submission without a usable message. */
  const DefaultRejection: string := "Что-то пошло не так"
  /** Shown when the request or the decoding of its answer failed. */
  const NetworkError: string := "Ошибка сети. Попробуйте еще раз."
  /** Name of the field carrying the relay's routing key. */
  const AccessKeyField: string := "access_key"

  /** One name/value pair of the form, as the browser collects it. */
  datatype Field = Field(name: string, value: string)

  /**
    What the awaited request produced: a decoded answer whose success flag is
    set, a decoded answer whose flag is not set (with its `message` when it is
    a string), or an exception from the transport or from decoding.
  */
  datatype Outcome = Ok | Rejected(message: Option<string>) | TransportError

  /** The submission lifecycle the four cells encode. */
  datatype Phase = Idle | Submitting | Succeeded | Failed(message: string)

  /** The relay's text, unless it is absent or empty (a falsy string). */
  function RejectionMessage(message: Option<string>): (r: string)
    ensures r != ""
    ensures message.Some? && message.value != "" ==> r == message.value
    ensures message.None? || message.value == "" ==> r == DefaultRejection
  {
    if message.Some? && message.value != "" then message.value else DefaultRejection
  }

  /** The phase a completed submission ends in. */
  function Settle(outcome: Outcome): (p: Phase)
    ensures p != Idle && p != Submitting
    ensures p == Succeeded <==> outcome == Ok
    ensures p.Failed? ==> p.message != ""
    ensures outcome == TransportError ==> p == Failed(NetworkError)
  {
    match outcome
    case Ok => Succeeded
    case Rejected(message) => Failed(RejectionMessage(message))
    case TransportError => Failed(NetworkError)
  }

  /** The form values after `reset()`: the same fields, each emptied. */
  function Cleared(fields: seq<Field>): (r: seq<Field>)
    ensures |r| == |fields|
    ensures forall i :: 0 <= i < |r| ==> r[i].name == fields[i].name && r[i].value == ""
  {
    seq(|fields|, i requires 0 <= i < |fields| => Field(fields[i].name, ""))
  }

  /** The form element whose inputs the user fills in. */
  class FormElement {
    var fields: seq<Field>

    constructor (fields: seq<Field>)
      ensures this.fields == fields
    {
      this.fields := fields;
    }

    /** Restores every input to its (empty) default value. */
    method Reset()
      modifies this
      ensures fields == Cleared(old(fields))
    {
      fields := Cleared(fields);
    }
  }

  class FormHandler {
    var isSubmitting: bool
    var isSuccess: bool
    var isError: bool
    var errorMessage: string

    /**
      The cells never claim two outcomes at once, a submission in flight
      shows no outcome, and an error always has text to show.
    */
    ghost predicate Valid()
      reads this
    {
      && !(isSuccess && isError)
      && (isSubmitting ==> !isSuccess && !isError)
      && (isError ==> errorMessage != "")
    }

    /** The phase the cells stand for. */
    function Status(): Phase
      reads this
    {
      if isSubmitting then Submitting
      else if isSuccess then Succeeded
      else if isError then Failed(errorMessage)
      else Idle
    }

    constructor ()
      ensures Valid() && Status() == Idle
      ensures !isSubmitting && !isSuccess && !isError && errorMessage == ""
    {
      isSubmitting, isSuccess, isError, errorMessage := false, false, false, "";
    }

    /**
      The part of the submit handler before the request is awaited: marks the
      submission in flight, clears the error flag and returns the payload,
      the form's fields followed by the access key. The form is only rendered
      while no success is shown, and its button is disabled while submitting.
    */
    method BeginSubmit(form: FormElement, accessKey: string) returns (payload: seq<Field>)
      requires Valid() && !isSuccess && !isSubmitting
      modifies this
      ensures Valid() && Status() == Submitting
      ensures isSubmitting && !isError
      ensures isSuccess == old(isSuccess) && errorMessage == old(errorMessage)
      ensures payload == form.fields + [Field(AccessKeyField, accessKey)]
    {
      isSubmitting := true;
      isError := false;
      payload := form.fields + [Field(AccessKeyField, accessKey)];
    }

    /**
      The part after the await: the try/catch on the outcome, then the
      `finally` that ends the submission.
    */
    method Complete(outcome: Outcome, form: FormElement)
      requires Valid() && isSubmitting
      modifies this, form
      ensures Valid() && !isSubmitting
      ensures Status() == Settle(outcome)
      ensures outcome == Ok ==> isSuccess && !isError && errorMessage == old(errorMessage)
      ensures outcome == Ok ==> form.fields == Cleared(old(form.fields))
      ensures outcome != Ok ==> !isSuccess && isError && form.fields == old(form.fields)
      ensures outcome.Rejected? ==> errorMessage == RejectionMessage(outcome.message)
      ensures outcome == TransportError ==> errorMessage == NetworkError
    {
      match outcome {
        case Ok =>
          isSuccess := true;
          form.Reset();
        case Rejected(message) =>
          isError := true;
          errorMessage := RejectionMessage(message);
        case TransportError =>
          isError := true;
          errorMessage := NetworkError;
      }
      isSubmitting := false;
    }

    /** "Send another request": back to the empty form, submission flag untouched. */
    method ResetForm()
      requires Valid()
      modifies this
      ensures Valid()
      ensures !isSuccess && !isError && errorMessage == ""
      ensures isSubmitting == old(isSubmitting)
      ensures !isSubmitting ==> Status() == Idle
    {
      isSuccess := false;
      isError := false;
      errorMessage := "";
    }
  }

  /** A failed submission, a retry that succeeds, and a reset, as a caller sees them. */
  method RetryScenario(accessKey: string)
  {
    var form := new FormElement([Field("name", "Анна"), Field("phone", "+7")]);
    var handler := new FormHandler();
    var payload := handler.BeginSubmit(form, accessKey);
    assert |payload| == 3 && payload[2] == Field(AccessKeyField, accessKey);
    handler.Complete(TransportError, form);
    assert handler.Status() == Failed(NetworkError);
    payload := handler.BeginSubmit(form, accessKey);
    assert handler.Status() == Submitting && !handler.isError;
    handler.Complete(Ok, form);
    assert handler.Status() == Succeeded && form.fields[0] == Field("name", "");
    handler.ResetForm();
    assert handler.Status() == Idle;
  }
}
