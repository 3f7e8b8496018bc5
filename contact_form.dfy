/**
 * The contact form: the field schema with one message per field, the
 * submitting flag around the call to the server action, the toasts and the
 * reset that follow, and the switch between the form and a mailto link.
 */
module ContactForm {
  import opened Wrappers
  import opened ContactActions

  const NameError := "El nombre debe tener al menos 2 caracteres"
  const EmailError := "Por favor ingresa un email válido"
  const SubjectError := "El asunto debe tener al menos 5 caracteres"
  const MessageError := "El mensaje debe tener al menos 10 caracteres"

  /** The message shown under each field, when that field is rejected. */
  datatype FieldErrors = FieldErrors(name: Option<string>, email: Option<string>, subject: Option<string>, message: Option<string>)

  const NoFieldErrors := FieldErrors(None, None, None, None)

  /**
   * `contactSchema`: name of length at least 2, an email the address check
   * `isEmail` accepts, subject of length at least 5, message of length at
   * least 10.
   */
  predicate Accepts(d: ContactData, isEmail: string -> bool)
  {
    |d.name| >= 2 && isEmail(d.email) && |d.subject| >= 5 && |d.message| >= 10
  }

  /**
   * Validation reports every rejected field on its own, each with its own
   * message, and reports nothing exactly when the schema accepts the data.
   */
  function Validate(d: ContactData, isEmail: string -> bool): (errs: FieldErrors)
    ensures errs.name == (if |d.name| < 2 then Some(NameError) else None)
    ensures errs.email == (if isEmail(d.email) then None else Some(EmailError))
    ensures errs.subject == (if |d.subject| < 5 then Some(SubjectError) else None)
    ensures errs.message == (if |d.message| < 10 then Some(MessageError) else None)
    ensures errs == NoFieldErrors <==> Accepts(d, isEmail)
  {
    FieldErrors(
      if |d.name| >= 2 then None else Some(NameError),
      if isEmail(d.email) then None else Some(EmailError),
      if |d.subject| >= 5 then None else Some(SubjectError),
      if |d.message| >= 10 then None else Some(MessageError))
  }

  /**
   * Data the schema accepts has no empty field, as long as the address check
   * rejects the empty string; it therefore always passes the server's
   * required-field check.
   */
  lemma AcceptedPassesRequiredCheck(d: ContactData, isEmail: string -> bool)
    requires !isEmail("")
    requires Accepts(d, isEmail)
    ensures AllPresent(d)
  {
  }

  /** Accepted data sent to a configured provider whose `send` returns gets `{ success: true }`. */
  lemma AcceptedAndDeliveredSucceeds(d: ContactData, isEmail: string -> bool, outcome: SendOutcome)
    requires !isEmail("")
    requires Accepts(d, isEmail)
    requires outcome.Returned?
    ensures SendContactEmail(Some(d), Configured(outcome)).response.success
  {
    AcceptedPassesRequiredCheck(d, isEmail);
  }

  const SuccessText := "¡Mensaje enviado con éxito!"
  const DefaultFailureText := "Error al enviar el mensaje"
  const ThrownText := "Error al enviar el mensaje. Intenta de nuevo."

  /** `result.error || "Error al enviar el mensaje"`: an absent or empty error falls back to the default. */
  function FailureText(error: Option<string>): (text: string)
    ensures text != ""
    ensures error.Some? && error.value != "" ==> text == error.value
    ensures (error.None? || error.value == "") ==> text == DefaultFailureText
  {
    if error.Some? && error.value != "" then error.value else DefaultFailureText
  }

  datatype Toast = SuccessToast(text: string) | ErrorToast(text: string)

  /** How the awaited call to the server action ended: with a response, or by throwing. */
  datatype CallResult = Resolved(response: ContactResponse) | Rejected

  /** The values the form holds after `reset()`. */
  const EmptyForm := ContactData("", "", "", "")

  /** The mailto link shown when the form is switched off. */
  const MailtoHref := "mailto:juan.fernando@example.com?subject=Consulta desde el portafolio"

  datatype ContactView = FormView | MailtoFallback(href: string)

  /**
   * The form is rendered only when the public flag is exactly "true"; any
   * other value, or none, shows the mailto fallback instead.
   */
  function Render(flag: Option<string>): (v: ContactView)
    ensures v.FormView? <==> flag == Some("true")
    ensures v.MailtoFallback? ==> v.href == MailtoHref
  {
    if flag == Some("true") then FormView else MailtoFallback(MailtoHref)
  }

  /** The form's state: the submitting flag, the field values, the field errors and the last toast. */
  class ContactFormView {
    var isSubmitting: bool
    var values: ContactData
    var errors: FieldErrors
    var toast: Option<Toast>

    constructor ()
      ensures !isSubmitting && values == EmptyForm && errors == NoFieldErrors && toast == None
    {
      isSubmitting := false;
      values := EmptyForm;
      errors := NoFieldErrors;
      toast := None;
    }

    /** The four inputs and the submit button are all disabled exactly while submitting. */
    predicate ControlsDisabled()
      reads this
    {
      isSubmitting
    }

    /** `setIsSubmitting(true)` before the call. */
    method BeginSubmit()
      modifies this
      ensures isSubmitting && ControlsDisabled()
      ensures values == old(values) && errors == old(errors) && toast == old(toast)
    {
      isSubmitting := true;
    }

    /**
     * The rest of `onSubmit` once the call ends: a success toast and a reset
     * on success, the response's error (or the default) on failure, a fixed
     * text when the call throws, and in every case the flag cleared.
     */
    method FinishSubmit(result: CallResult)
      modifies this
      ensures !isSubmitting && !ControlsDisabled()
      ensures result.Resolved? && result.response.success ==>
        toast == Some(SuccessToast(SuccessText)) && values == EmptyForm && errors == NoFieldErrors
      ensures result.Resolved? && !result.response.success ==>
        toast == Some(ErrorToast(FailureText(result.response.error)))
        && values == old(values) && errors == old(errors)
      ensures result.Rejected? ==>
        toast == Some(ErrorToast(ThrownText)) && values == old(values) && errors == old(errors)
    {
      match result {
        case Resolved(response) =>
          if response.success {
            toast := Some(SuccessToast(SuccessText));
            values := EmptyForm;
            errors := NoFieldErrors;
          } else {
            toast := Some(ErrorToast(FailureText(response.error)));
          }
        case Rejected =>
          toast := Some(ErrorToast(ThrownText));
      }
      isSubmitting := false;
    }

    /**
     * `handleSubmit(onSubmit)` with the data `d`: rejected data only shows
     * its field errors and calls nothing; accepted data is sent, and the call
     * ends as `result`. The flag is down again afterwards either way.
     */
    method Submit(d: ContactData, isEmail: string -> bool, result: CallResult)
      modifies this
      ensures Accepts(d, isEmail) ==> !isSubmitting && !ControlsDisabled() && errors == NoFieldErrors
      ensures !Accepts(d, isEmail) ==>
        errors == Validate(d, isEmail) && errors != NoFieldErrors && values == d
        && toast == old(toast) && isSubmitting == old(isSubmitting)
      ensures Accepts(d, isEmail) && result.Resolved? && result.response.success ==>
        toast == Some(SuccessToast(SuccessText)) && values == EmptyForm
      ensures Accepts(d, isEmail) && result.Resolved? && !result.response.success ==>
        toast == Some(ErrorToast(FailureText(result.response.error))) && values == d
      ensures Accepts(d, isEmail) && result.Rejected? ==>
        toast == Some(ErrorToast(ThrownText)) && values == d
    {
      values := d;
      errors := Validate(d, isEmail);
      if errors == NoFieldErrors {
        BeginSubmit();
        FinishSubmit(result);
      }
    }
  }
}
