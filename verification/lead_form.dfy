/** The lead form's submit handler, over the page elements it reads and writes:
    four inputs, four error slots, the success box and the focused element. */
module LeadForm {
  import opened Wrappers
  import opened Dom
  import opened LeadRules

  const NameMessage := "Digite seu nome completo (pelo menos 2 palavras)."
  const EmailMessage := "Digite um email v\U{00E1}lido (ex.: voce@exemplo.com)."
  const WhatsMessage := "WhatsApp inv\U{00E1}lido. Use DDD + n\U{00FA}mero (ex.: 11999999999)."
  const ConsentMessage := "Para continuar, marque o consentimento (LGPD)."

  /** The element `document.activeElement` designates, as far as the handler cares. */
  datatype Focus = NameInput | EmailInput | Elsewhere

  /** A text input after `form.reset()`: back to its empty default, if it exists. */
  function Blank(input: Option<string>): (r: Option<string>)
    ensures r.Some? <==> input.Some?
    ensures r.Some? ==> r.value == ""
  {
    if input.Some? then Some("") else None
  }

  /** A checkbox after `form.reset()`: unchecked, if it exists. */
  function Unchecked(box: Option<bool>): (r: Option<bool>)
    ensures r.Some? <==> box.Some?
    ensures r.Some? ==> !r.value
  {
    if box.Some? then Some(false) else None
  }

  class Form {
    // The inputs `#nome`, `#email`, `#whats` and `#consent`: the value (the
    // checked state for the checkbox), or None when the page lacks the element.
    var name: Option<string>
    var email: Option<string>
    var whats: Option<string>
    var consent: Option<bool>
    // The error slots `#errNome`, `#errEmail`, `#errWhats` and `#errConsent`:
    // their text, or None when the page lacks the slot.
    var nameError: Option<string>
    var emailError: Option<string>
    var whatsError: Option<string>
    var consentError: Option<string>
    // The success box `#formSuccess` and its `hidden` attribute.
    const hasSuccessBox: bool
    var successHidden: bool
    // `document.activeElement`.
    var active: Focus

    /** Only an element that exists can have the focus. */
    ghost predicate Valid()
      reads this
    {
      && (active == NameInput ==> name.Some?)
      && (active == EmailInput ==> email.Some?)
    }

    constructor (name: Option<string>, email: Option<string>, whats: Option<string>, consent: Option<bool>,
                 nameError: Option<string>, emailError: Option<string>,
                 whatsError: Option<string>, consentError: Option<string>,
                 hasSuccessBox: bool, successHidden: bool, active: Focus)
      requires active == NameInput ==> name.Some?
      requires active == EmailInput ==> email.Some?
      ensures Valid()
      ensures this.name == name && this.email == email && this.whats == whats && this.consent == consent
      ensures this.nameError == nameError && this.emailError == emailError
      ensures this.whatsError == whatsError && this.consentError == consentError
      ensures this.hasSuccessBox == hasSuccessBox && this.successHidden == successHidden
      ensures this.active == active
    {
      this.name, this.email, this.whats, this.consent := name, email, whats, consent;
      this.nameError, this.emailError := nameError, emailError;
      this.whatsError, this.consentError := whatsError, consentError;
      this.hasSuccessBox, this.successHidden := hasSuccessBox, successHidden;
      this.active := active;
    }

    // The four checks on the current values. The handler reads a missing input as ""
    // and a missing checkbox as unchecked; `ChecksOnRead` shows that the predicates
    // below, which test presence first, agree with the rules applied to those reads.
    predicate NameOk() reads this { name.Some? && HasTwoWords(name.value) }
    predicate EmailOk() reads this { email.Some? && IsEmailValid(email.value) }
    predicate WhatsOk() reads this { whats.None? || IsWhatsValidIfProvided(whats.value) }
    predicate ConsentOk() reads this { consent.GetOr(false) }
    predicate AllOk() reads this { NameOk() && EmailOk() && WhatsOk() && ConsentOk() }

    /** Each check is its rule applied to the value the handler reads: an absent name or
        email fails (the rules refuse ""), an absent WhatsApp number passes. */
    lemma ChecksOnRead()
      ensures NameOk() <==> HasTwoWords(name.GetOr(""))
      ensures EmailOk() <==> IsEmailValid(email.GetOr(""))
      ensures WhatsOk() <==> IsWhatsValidIfProvided(whats.GetOr(""))
    {
      if name.None? { RefusedNames(""); }
      if email.None? { RefusedEmails(""); }
      if whats.None? { AcceptedWhats(""); }
    }

    /** The success box exists and is not hidden. */
    predicate SuccessShown() reads this { hasSuccessBox && !successHidden }

    /** `resetStatus`: every present error slot is emptied and the success box, if any,
        is hidden; nothing else changes. */
    method ResetStatus()
      requires Valid()
      modifies this
      ensures Valid()
      ensures nameError == SetText(old(nameError), "") && emailError == SetText(old(emailError), "")
      ensures whatsError == SetText(old(whatsError), "") && consentError == SetText(old(consentError), "")
      ensures hasSuccessBox ==> successHidden
      ensures !hasSuccessBox ==> successHidden == old(successHidden)
      ensures name == old(name) && email == old(email) && whats == old(whats) && consent == old(consent)
      ensures active == old(active)
    {
      nameError := SetText(nameError, "");
      emailError := SetText(emailError, "");
      whatsError := SetText(whatsError, "");
      consentError := SetText(consentError, "");
      if hasSuccessBox {
        successHidden := true;
      }
    }

    /** The handler's four checks, given their verdicts in the order it runs them: each
        failing check writes its message into its slot (a passing one leaves the slot as it
        is); the name input, if present, takes the focus when the name fails, and the email
        input, if present, when the email fails and the name input does not hold the focus.
        `ok` is whether all four passed. */
    method Report(nameOk: bool, emailOk: bool, whatsOk: bool, consentOk: bool) returns (ok: bool)
      requires Valid()
      modifies this`nameError, this`emailError, this`whatsError, this`consentError, this`active
      ensures Valid()
      ensures ok <==> nameOk && emailOk && whatsOk && consentOk
      ensures nameOk ==> nameError == old(nameError)
      ensures !nameOk ==> nameError == SetText(old(nameError), NameMessage)
      ensures emailOk ==> emailError == old(emailError)
      ensures !emailOk ==> emailError == SetText(old(emailError), EmailMessage)
      ensures whatsOk ==> whatsError == old(whatsError)
      ensures !whatsOk ==> whatsError == SetText(old(whatsError), WhatsMessage)
      ensures consentOk ==> consentError == old(consentError)
      ensures !consentOk ==> consentError == SetText(old(consentError), ConsentMessage)
      ensures active == if !nameOk && name.Some? then NameInput
                        else if !emailOk && email.Some? && old(active) != NameInput then EmailInput
                        else old(active)
    {
      ok := true;

      if !nameOk {
        ok := false;
        nameError := SetText(nameError, NameMessage);
        if name.Some? {
          active := NameInput;
        }
      }

      if !emailOk {
        ok := false;
        emailError := SetText(emailError, EmailMessage);
        if !ok && email.Some? && active != NameInput {
          active := EmailInput;
        }
      }

      if !whatsOk {
        ok := false;
        whatsError := SetText(whatsError, WhatsMessage);
      }

      if !consentOk {
        ok := false;
        consentError := SetText(consentError, ConsentMessage);
      }
    }

    /** The success path: the success box is shown and `form.reset()` returns every input
        to its default. */
    method ShowSuccess()
      requires Valid()
      modifies this`successHidden, this`name, this`email, this`whats, this`consent
      ensures Valid()
      ensures !successHidden
      ensures name == Blank(old(name)) && email == Blank(old(email))
      ensures whats == Blank(old(whats)) && consent == Unchecked(old(consent))
    {
      successHidden := false;
      name, email, whats, consent := Blank(name), Blank(email), Blank(whats), Unchecked(consent);
    }

    /** The `submit` handler. `ok` is the handler's verdict: all four checks passed.
        Every check runs, so each present slot reports its own check, several at once;
        the name input takes the focus when the name fails, the email input only when the
        email fails and the name input is not the focused element; the success box shows,
        and the inputs are reset, exactly when everything passed and the box exists. */
    method Submit() returns (ok: bool)
      requires Valid()
      modifies this
      ensures Valid()
      ensures ok <==> old(AllOk())
      ensures old(NameOk()) ==> nameError == SetText(old(nameError), "")
      ensures !old(NameOk()) ==> nameError == SetText(old(nameError), NameMessage)
      ensures old(EmailOk()) ==> emailError == SetText(old(emailError), "")
      ensures !old(EmailOk()) ==> emailError == SetText(old(emailError), EmailMessage)
      ensures old(WhatsOk()) ==> whatsError == SetText(old(whatsError), "")
      ensures !old(WhatsOk()) ==> whatsError == SetText(old(whatsError), WhatsMessage)
      ensures old(ConsentOk()) ==> consentError == SetText(old(consentError), "")
      ensures !old(ConsentOk()) ==> consentError == SetText(old(consentError), ConsentMessage)
      ensures SuccessShown() <==> ok && hasSuccessBox
      ensures !hasSuccessBox ==> successHidden == old(successHidden)
      ensures ok && hasSuccessBox ==>
        name == Blank(old(name)) && email == Blank(old(email)) &&
        whats == Blank(old(whats)) && consent == Unchecked(old(consent))
      ensures !(ok && hasSuccessBox) ==>
        name == old(name) && email == old(email) && whats == old(whats) && consent == old(consent)
      ensures active == if !old(NameOk()) && old(name).Some? then NameInput
                        else if !old(EmailOk()) && old(email).Some? && old(active) != NameInput then EmailInput
                        else old(active)
    {
      var nameOk, emailOk, whatsOk, consentOk := NameOk(), EmailOk(), WhatsOk(), ConsentOk();
      ResetStatus();
      ok := Report(nameOk, emailOk, whatsOk, consentOk);

      if !ok {
        return;
      }

      if hasSuccessBox {
        ShowSuccess();
      }
    }
  }

  /** The handler on "Ana", "bad-email", "123" and an unchecked box: every check fails,
      each slot reports its own message, the name input takes the focus and no success
      is shown. */
  method FourErrorsAtOnce() returns (f: Form)
    ensures f.nameError == Some(NameMessage) && f.emailError == Some(EmailMessage)
    ensures f.whatsError == Some(WhatsMessage) && f.consentError == Some(ConsentMessage)
    ensures f.active == NameInput && !f.SuccessShown()
  {
    var name, email, whats := "Ana", "bad-email", "123";
    f := new Form(Some(name), Some(email), Some(whats), Some(false), Some(""), Some(""), Some(""), Some(""),
                  true, true, Elsewhere);
    RefusedNames(name);
    RefusedEmails(email);
    RefusedWhats(whats);
    var ok := f.Submit();
  }

  /** The handler on "Ana Maria", "ana@exemplo.com", an empty WhatsApp number and a
      checked box: every check passes, every slot is left empty, the success box shows
      and the form is reset. */
  method AcceptedLead() returns (f: Form, ok: bool)
    ensures ok && f.SuccessShown()
    ensures f.nameError == Some("") && f.emailError == Some("")
    ensures f.whatsError == Some("") && f.consentError == Some("")
    ensures f.name == Some("") && f.email == Some("") && f.whats == Some("") && f.consent == Some(false)
  {
    var name, email, whats := "Ana Maria", "ana@exemplo.com", "";
    f := new Form(Some(name), Some(email), Some(whats), Some(true), Some(""), Some(""), Some(""), Some(""),
                  true, true, Elsewhere);
    AcceptedNames(name);
    AcceptedEmails(email);
    AcceptedWhats(whats);
    ok := f.Submit();
  }
}
