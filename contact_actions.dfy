/**
 * The contact server action `sendContactEmail`: the required-field check,
 * the mail payload built from the form data, and the mapping from the mail
 * provider's configuration and outcome to the `{success, error}` response.
 * The action never throws: every path ends in a response.
 */
module ContactActions {
  import opened Wrappers
  import opened Text

  datatype ContactData = ContactData(name: string, email: string, subject: string, message: string)

  /** `{ success, error? }`. */
  datatype ContactResponse = ContactResponse(success: bool, error: Option<string>)

  /**
   * What the provider's `send` did: it returned (carrying, in its value, an
   * error the action never looks at) or it threw.
   */
  datatype SendOutcome = Returned(providerError: Option<string>) | Threw

  /**
   * The mail provider as the action sees it: no client (no API key), or a
   * client whose `send` call has the given outcome.
   */
  datatype Mailer = Unconfigured | Configured(outcome: SendOutcome)

  datatype Email = Email(from: string, to: string, subject: string, html: string, replyTo: string)

  /** The response and the message handed to `send`, when it was called. */
  datatype Reply = Reply(response: ContactResponse, sent: Option<Email>)

  const Sender := "portfolio@resend.dev"
  const Recipient := "juan.fernando@example.com"
  const SubjectPrefix := "[Portafolio] "

  const RequiredError := "Todos los campos son requeridos"
  const SendError := "Error al enviar el email. Intenta de nuevo más tarde."
  const NotConfiguredError := "Servicio de email no configurado. Por favor, contacta directamente por email."
  const InternalError := "Error interno del servidor. Intenta de nuevo más tarde."

  /** `!data.name || !data.email || ...` is false: every field is a non-empty string. */
  predicate AllPresent(d: ContactData)
    ensures AllPresent(d) <==> forall f :: f in [d.name, d.email, d.subject, d.message] ==> |f| > 0
  {
    d.name != "" && d.email != "" && d.subject != "" && d.message != ""
  }

  /** `message.replace(/\n/g, '<br>')`: every line feed becomes a `<br>` tag. */
  function EscapeNewlines(s: string): (r: string)
    ensures '\n' !in r
    ensures '\n' !in s ==> r == s
    ensures |r| >= |s|
  {
    if s == [] then []
    else (if s[0] == '\n' then "<br>" else [s[0]]) + EscapeNewlines(s[1..])
  }

  /** The replacement works piece by piece: escaping a joined text joins the escaped pieces. */
  lemma {:induction false} EscapeNewlinesAppend(a: string, b: string)
    ensures EscapeNewlines(a + b) == EscapeNewlines(a) + EscapeNewlines(b)
    decreases |a|
  {
    if a == [] {
      assert a + b == b;
    } else {
      var head := if a[0] == '\n' then "<br>" else [a[0]];
      assert (a + b)[0] == a[0] && (a + b)[1..] == a[1..] + b;
      EscapeNewlinesAppend(a[1..], b);
      calc {
        EscapeNewlines(a + b);
        head + EscapeNewlines(a[1..] + b);
        head + (EscapeNewlines(a[1..]) + EscapeNewlines(b));
        (head + EscapeNewlines(a[1..])) + EscapeNewlines(b);
        EscapeNewlines(a) + EscapeNewlines(b);
      }
    }
  }

  /**
   * Each line feed becomes exactly `<br>`: text up to the first line feed is
   * kept as it is, the line feed is replaced, and escaping goes on after it.
   */
  lemma LineFeedBecomesBreak(a: string, b: string)
    requires '\n' !in a
    ensures EscapeNewlines(a + "\n" + b) == a + "<br>" + EscapeNewlines(b)
  {
    EscapeNewlinesAppend(a + "\n", b);
    EscapeNewlinesAppend(a, "\n");
    assert EscapeNewlines("\n") == "<br>" by {
      assert "\n"[0] == '\n' && "\n"[1..] == [];
    }
  }

  const Heading := "<div><h2>Nuevo mensaje desde el portafolio</h2><div><h3>Información del contacto</h3>"
  const MessageOpen := "<div><h3>Mensaje</h3><p>"
  const MessageClose := "</p></div>"
  const FooterOpen := "<div><p>Este mensaje fue enviado desde tu portafolio web.</p><p>Puedes responder directamente a "
  const FooterClose := "</p></div></div>"

  /** One labelled contact field of the body: `<p><strong>label:</strong> value</p>`. */
  function FieldLine(caption: string, value: string): string
  {
    "<p><strong>" + caption + ":</strong> " + value + "</p>"
  }

  lemma FieldLineShows(caption: string, value: string)
    ensures Contains(FieldLine(caption, value), value)
  {
    ContainsMiddle("<p><strong>" + caption + ":</strong> ", value, "</p>");
  }

  /**
   * The pieces of the body's template: the heading, the name, email and
   * subject lines, the message with line feeds turned into `<br>`, and where
   * a reply goes.
   */
  function HtmlParts(d: ContactData): seq<string>
  {
    [ Heading,
      FieldLine("Nombre", d.name), FieldLine("Email", d.email), FieldLine("Asunto", d.subject),
      "</div>",
      MessageOpen + EscapeNewlines(d.message) + MessageClose,
      FooterOpen + d.email + FooterClose ]
  }

  function HtmlBody(d: ContactData): string
  {
    Concat(HtmlParts(d))
  }

  /** The body shows the name, the email, the subject and the escaped message. */
  lemma HtmlBodyShowsFields(d: ContactData)
    ensures Contains(HtmlBody(d), EscapeNewlines(d.message))
    ensures Contains(HtmlBody(d), d.name) && Contains(HtmlBody(d), d.subject)
    ensures Contains(HtmlBody(d), d.email)
  {
    var parts := HtmlParts(d);
    FieldLineShows("Nombre", d.name);
    FieldLineShows("Email", d.email);
    FieldLineShows("Asunto", d.subject);
    ContainsMiddle(MessageOpen, EscapeNewlines(d.message), MessageClose);
    ConcatShowsPart(parts, 1, d.name);
    ConcatShowsPart(parts, 2, d.email);
    ConcatShowsPart(parts, 3, d.subject);
    ConcatShowsPart(parts, 5, EscapeNewlines(d.message));
  }

  /**
   * The message handed to `send`: fixed sender and recipient, the subject
   * behind the "[Portafolio] " prefix, replies going to the submitter, and a
   * body that shows the name, the email, the subject and the escaped message.
   */
  function Compose(d: ContactData): (e: Email)
    ensures e.from == Sender && e.to == Recipient
    ensures e.subject == SubjectPrefix + d.subject
    ensures e.replyTo == d.email
    ensures Contains(e.html, EscapeNewlines(d.message))
    ensures Contains(e.html, d.name) && Contains(e.html, d.subject)
    ensures Contains(e.html, d.email)
  {
    HtmlBodyShowsFields(d);
    Email(Sender, Recipient, SubjectPrefix + d.subject, HtmlBody(d), d.email)
  }

  /**
   * `sendContactEmail`. A missing payload (reading a field of it throws) is
   * the outer catch; an empty field stops before any send; without a client
   * nothing is sent; otherwise the composed message is sent once, and only a
   * throwing `send` turns into the delivery error.
   */
  function SendContactEmail(input: Option<ContactData>, mailer: Mailer): (reply: Reply)
    ensures reply.response.success <==>
      input.Some? && AllPresent(input.value) && mailer.Configured? && mailer.outcome.Returned?
    ensures reply.sent.Some? <==> input.Some? && AllPresent(input.value) && mailer.Configured?
    ensures reply.sent.Some? ==> reply.sent.value == Compose(input.value)
    ensures reply.response.success ==> reply.response.error.None?
    ensures !reply.response.success ==> reply.response.error.Some? && reply.response.error.value != ""
  {
    match input
    case None => Reply(ContactResponse(false, Some(InternalError)), None)
    case Some(d) =>
      if !AllPresent(d) then Reply(ContactResponse(false, Some(RequiredError)), None)
      else match mailer
        case Unconfigured => Reply(ContactResponse(false, Some(NotConfiguredError)), None)
        case Configured(outcome) =>
          var email := Compose(d);
          match outcome
          case Returned(_) => Reply(ContactResponse(true, None), Some(email))
          case Threw => Reply(ContactResponse(false, Some(SendError)), Some(email))
  }

  /** Each failure path has its own message, chosen by the first check that fails. */
  lemma FailureMessages(input: Option<ContactData>, mailer: Mailer)
    ensures input.None? ==> SendContactEmail(input, mailer).response.error == Some(InternalError)
    ensures input.Some? && !AllPresent(input.value) ==>
      SendContactEmail(input, mailer).response.error == Some(RequiredError)
    ensures input.Some? && AllPresent(input.value) && mailer.Unconfigured? ==>
      SendContactEmail(input, mailer).response.error == Some(NotConfiguredError)
    ensures input.Some? && AllPresent(input.value) && mailer == Configured(Threw) ==>
      SendContactEmail(input, mailer).response.error == Some(SendError)
  {
  }

  /** The four failure messages are pairwise different, so the response tells the paths apart. */
  lemma FailureMessagesDistinct()
    ensures RequiredError != SendError && RequiredError != NotConfiguredError && RequiredError != InternalError
    ensures SendError != NotConfiguredError && SendError != InternalError
    ensures NotConfiguredError != InternalError
  {
    assert |RequiredError| == 31 && |SendError| == 53 && |NotConfiguredError| == 77 && |InternalError| == 55;
  }

  /**
   * The value `send` returns is not inspected: a provider error reported in
   * it, rather than thrown, still ends in `{ success: true }`.
   */
  lemma ReturnedErrorIgnored(d: ContactData, err: string)
    requires AllPresent(d)
    ensures SendContactEmail(Some(d), Configured(Returned(Some(err)))).response == ContactResponse(true, None)
  {
  }

  /** The embedded message is a single HTML line: no line feed survives the escaping. */
  lemma EmbeddedMessageHasNoLineFeed(d: ContactData, mailer: Mailer)
    requires SendContactEmail(Some(d), mailer).sent.Some?
    ensures '\n' !in EscapeNewlines(d.message)
    ensures Contains(SendContactEmail(Some(d), mailer).sent.value.html, EscapeNewlines(d.message))
  {
  }
}
