/** The contact form in the browser (js/main.js:206-303, 366-492): the submit
    handler with its validation order and three network outcomes, the shared
    message surface, and the per-field input, focus and blur handlers. */
module ContactFormUi {
  import opened Wrappers
  import opened Text
  import opened EmailPattern
  import opened PhoneMask
  import opened NameInput
  import opened CharCounter

  const RequiredMsg: string := "Proszę wypełnić wszystkie wymagane pola (*)."
  const InvalidEmailMsg: string := "Podany adres e-mail jest nieprawidłowy."
  const ConsentMsg: string := "Proszę zaakceptować zgodę na przetwarzanie danych osobowych."
  const DefaultSuccessMsg: string := "Wiadomość została wysłana! Odpowiemy najszybciej jak to możliwe."
  const DefaultErrorMsg: string := "Wystąpił błąd. Proszę spróbować ponownie lub skontaktować się telefonicznie."
  const OfflineMsg: string := "Dziękujemy za wiadomość! Skontaktujemy się z Tobą wkrótce. (Uwaga: formularz wymaga serwera PHP do działania.)"
  const BusyLabel: string := "<i class=\"fas fa-spinner fa-spin\"></i> Wysyłanie..."
  /** Delay of the timer that hides a success message. */
  const AutoHideDelayMs: nat := 8000

  /** The values of the form's controls. */
  datatype Fields = Fields(name: string, email: string, phone: string, service: string, message: string, rodo: bool)

  /** What `form.reset()` restores: the markup's defaults, empty and unchecked. */
  const EmptyFields: Fields := Fields("", "", "", "", "", false)

  datatype Tone = Success | Error

  /** The message region: hidden (class "form-message", no text) or showing a
      message of one tone. */
  datatype Surface = Hidden | Shown(tone: Tone, text: string)

  datatype Button = Button(disabled: bool, caption: string)

  /** How the awaited `fetch` and `response.json()` end: a parsed body with the
      response's `ok` flag, or an exception from either. */
  datatype NetOutcome = Responded(ok: bool, success: bool, message: Option<string>) | Thrown

  /** The message to show and whether the form is reset. */
  datatype Reaction = Reaction(tone: Tone, text: string, reset: bool)

  /** The inline e-mail hint with its border colour. */
  datatype EmailMark = Unmarked | MarkedValid | MarkedInvalid

  /** The submit handler's checks on the trimmed values, in order; the first
      failing one names the message shown. */
  function ClientCheck(f: Fields): Option<string> {
    var name, email, message := Trim(f.name, IsJsSpace), Trim(f.email, IsJsSpace), Trim(f.message, IsJsSpace);
    if name == "" || email == "" || message == "" then Some(RequiredMsg)
    else if !IsValidEmail(email) then Some(InvalidEmailMsg)
    else if !f.rodo then Some(ConsentMsg)
    else None
  }

  /** Which check fails, as a condition on the trimmed values: the message of
      each check is shown exactly when the checks before it pass and it fails. */
  lemma ClientCheckOrder(f: Fields)
    ensures var name, email, message := Trim(f.name, IsJsSpace), Trim(f.email, IsJsSpace), Trim(f.message, IsJsSpace);
      var r := ClientCheck(f);
      && (r == None <==> name != "" && email != "" && message != "" && IsValidEmail(email) && f.rodo)
      && (r == Some(RequiredMsg) <==> name == "" || email == "" || message == "")
      && (r == Some(InvalidEmailMsg) <==> name != "" && email != "" && message != "" && !IsValidEmail(email))
      && (r == Some(ConsentMsg) <==> name != "" && email != "" && message != "" && IsValidEmail(email) && !f.rodo)
  {
    assert |RequiredMsg| == 44 && |InvalidEmailMsg| == 39 && |ConsentMsg| == 60;
  }

  /** `data.message || fallback`: the server's text unless it is missing or empty. */
  function OrElse(m: Option<string>, fallback: string): (r: string)
    ensures m.Some? && m.value != "" ==> r == m.value
    ensures m.None? || m.value == "" ==> r == fallback
  {
    if m.Some? && m.value != "" then m.value else fallback
  }

  /** The three outcomes of the network call. A thrown call is shown as a
      success and resets the form, like an accepted one. */
  function React(net: NetOutcome): (r: Reaction)
    ensures r.reset <==> r.tone == Success
    ensures r.tone == Success <==> net.Thrown? || (net.ok && net.success)
    ensures r.text != ""
    ensures net.Responded? && net.message.Some? && net.message.value != "" ==> r.text == net.message.value
    ensures net.Thrown? ==> r.text == OfflineMsg
    ensures net.Responded? && (net.message.None? || net.message.value == "") ==>
      r.text == (if net.ok && net.success then DefaultSuccessMsg else DefaultErrorMsg)
  {
    match net
    case Thrown => Reaction(Success, OfflineMsg, true)
    case Responded(ok, success, message) =>
      if ok && success then Reaction(Success, OrElse(message, DefaultSuccessMsg), true)
      else Reaction(Error, OrElse(message, DefaultErrorMsg), false)
  }

  class ContactForm {
    var fields: Fields
    var button: Button
    var surface: Surface
    /** Auto-hide timers scheduled and not yet fired. */
    var hideTimers: nat
    /** Whether the page has the message region; without it messages are dropped. */
    const hasSurface: bool
    /** The submissions handed to the network, oldest first. */
    var outbox: seq<Fields>
    /** The caret position the phone input handler asks for. */
    var phoneCaret: int
    /** The phone field's "too short" border and tooltip. */
    var phoneWarn: bool
    var emailMark: EmailMark
    var counter: Counter

    constructor (caption: string, hasSurface: bool)
      ensures fields == EmptyFields && button == Button(false, caption)
      ensures surface == Hidden && hideTimers == 0 && this.hasSurface == hasSurface
      ensures outbox == [] && phoneCaret == 0 && !phoneWarn
      ensures emailMark == Unmarked && counter == Counter(0, false)
    {
      fields := EmptyFields;
      button := Button(false, caption);
      surface := Hidden;
      hideTimers := 0;
      this.hasSurface := hasSurface;
      outbox := [];
      phoneCaret := 0;
      phoneWarn := false;
      emailMark := Unmarked;
      counter := Counter(0, false);
    }

    /** The region and the pending timers after `showFormMessage(tone, text)`. */
    function AfterShow(s: Surface, timers: nat, tone: Tone, text: string): (Surface, nat) {
      if !hasSurface then (s, timers)
      else (Shown(tone, text), if tone == Success then timers + 1 else timers)
    }

    /** `showFormMessage`: set the region's tone and text; a success message
        also schedules a timer that hides the region again. */
    method ShowFormMessage(tone: Tone, text: string)
      modifies this`surface, this`hideTimers
      ensures (surface, hideTimers) == AfterShow(old(surface), old(hideTimers), tone, text)
    {
      if !hasSurface {
        return;
      }
      surface := Shown(tone, text);
      if tone == Success {
        hideTimers := hideTimers + 1;
      }
    }

    /** One auto-hide timer fires. It clears whatever the region shows by
        then, also a message shown after the one that scheduled it. */
    method AutoHideFires()
      requires hideTimers > 0
      modifies this`surface, this`hideTimers
      ensures surface == Hidden && hideTimers == old(hideTimers) - 1
    {
      surface := Hidden;
      hideTimers := hideTimers - 1;
    }

    /** The submit handler up to the `await`: validate, then either show the
        first failure and stop, or disable the button, show the busy label and
        hand the fields to the network. */
    method BeginSubmit() returns (failure: Option<string>, originalLabel: string)
      modifies this`button, this`surface, this`hideTimers, this`outbox
      ensures failure == ClientCheck(old(fields))
      ensures originalLabel == old(button.caption)
      ensures button == if failure.None? then Button(true, BusyLabel) else old(button)
      ensures outbox == if failure.None? then old(outbox) + [old(fields)] else old(outbox)
      ensures (surface, hideTimers)
              == if failure.Some? then AfterShow(old(surface), old(hideTimers), Error, failure.value)
                 else (old(surface), old(hideTimers))
    {
      originalLabel := button.caption;
      failure := ClientCheck(fields);
      if failure.Some? {
        ShowFormMessage(Error, failure.value);
        return;
      }
      button := Button(true, BusyLabel);
      outbox := outbox + [fields];
    }

    /** The submit handler after the `await`: report the outcome, reset the
        form on success or on a thrown call, and in every case re-enable the
        button with its original label. */
    method FinishSubmit(net: NetOutcome, originalLabel: string)
      modifies this`button, this`surface, this`hideTimers, this`fields
      ensures button == Button(false, originalLabel)
      ensures fields == if React(net).reset then EmptyFields else old(fields)
      ensures (surface, hideTimers) == AfterShow(old(surface), old(hideTimers), React(net).tone, React(net).text)
    {
      var r := React(net);
      ShowFormMessage(r.tone, r.text);
      if r.reset {
        fields := EmptyFields;
      }
      button := Button(false, originalLabel);
    }

    /** One whole submission whose network call, if made, ends with `net`. */
    method Submit(net: NetOutcome)
      modifies this`button, this`surface, this`hideTimers, this`outbox, this`fields
      ensures var check := ClientCheck(old(fields));
        check.Some? ==> (fields == old(fields) && button == old(button) && outbox == old(outbox)
                         && (surface, hideTimers) == AfterShow(old(surface), old(hideTimers), Error, check.value))
      ensures var r := React(net);
        ClientCheck(old(fields)).None? ==> (outbox == old(outbox) + [old(fields)]
                                            && button == Button(false, old(button.caption))
                                            && fields == (if r.reset then EmptyFields else old(fields))
                                            && (surface, hideTimers) == AfterShow(old(surface), old(hideTimers), r.tone, r.text))
    {
      var failure, originalLabel := BeginSubmit();
      if failure.None? {
        FinishSubmit(net, originalLabel);
      }
    }

    /** Phone `input`: re-mask the value and move the caret by the change in length. */
    method PhoneInput()
      modifies this`fields, this`phoneCaret
      ensures fields == old(fields).(phone := FormatPhone(old(fields.phone)))
      ensures phoneCaret == old(phoneCaret) + (Utf16Length(fields.phone) - Utf16Length(old(fields.phone)))
    {
      var prevLen := Utf16Length(fields.phone);
      fields := fields.(phone := FormatPhone(fields.phone));
      phoneCaret := phoneCaret + (Utf16Length(fields.phone) - prevLen);
    }

    /** Phone `focus`: an empty field gets the prefix and the caret after it. */
    method PhoneFocus()
      modifies this`fields, this`phoneCaret
      ensures old(fields.phone) == "" ==> fields == old(fields).(phone := Seed) && phoneCaret == |Seed|
      ensures old(fields.phone) != "" ==> fields == old(fields) && phoneCaret == old(phoneCaret)
    {
      if fields.phone == "" {
        fields := fields.(phone := Seed);
        phoneCaret := 4;
      }
    }

    /** Phone `blur`: a bare prefix is cleared, then a number with one to eight
        national digits is flagged. */
    method PhoneBlur()
      modifies this`fields, this`phoneWarn
      ensures fields == old(fields).(phone := BlurValue(old(fields.phone)))
      ensures phoneWarn == TooShort(fields.phone)
    {
      fields := fields.(phone := BlurValue(fields.phone));
      phoneWarn := TooShort(fields.phone);
    }

    /** Name `input`: drop the characters outside the name alphabet. */
    method NameInput()
      modifies this`fields
      ensures fields == old(fields).(name := FilterName(old(fields.name)))
    {
      var clean := FilterName(fields.name);
      if fields.name != clean {
        fields := fields.(name := clean);
      }
    }

    /** Name `blur`: trim, collapse whitespace, capitalise every word. */
    method NameBlur()
      modifies this`fields
      ensures fields == old(fields).(name := BlurName(old(fields.name)))
    {
      fields := fields.(name := BlurName(fields.name));
    }

    /** E-mail `blur`: no hint for a blank value, otherwise a valid or invalid hint. */
    method EmailBlur()
      modifies this`emailMark
      ensures var v := Trim(fields.email, IsJsSpace);
        emailMark == if v == "" then Unmarked else if IsValidEmail(v) then MarkedValid else MarkedInvalid
    {
      var v := Trim(fields.email, IsJsSpace);
      if v == "" {
        emailMark := Unmarked;
        return;
      }
      emailMark := if IsValidEmail(v) then MarkedValid else MarkedInvalid;
    }

    /** E-mail `focus`: the hint and the border colour are cleared. */
    method EmailFocus()
      modifies this`emailMark
      ensures emailMark == Unmarked
    {
      emailMark := Unmarked;
    }

    /** Message `input`: the counter shows the field's length and warns near the cap. */
    method MessageInput()
      modifies this`counter
      ensures counter.len == Utf16Length(fields.message)
      ensures counter.warn <==> counter.len > 850
    {
      counter := CounterFor(fields.message);
    }
  }
}
