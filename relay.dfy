/** The contact relay (php/contact.php): a request goes through the method and
    header gates, its fields are sanitised and validated, the honeypot is
    checked, and the send outcome picks the status. `strip_tags` and
    `filter_var(…, FILTER_VALIDATE_EMAIL)` are PHP library routines that are
    not part of this model; they are passed in as functions. `mail()` is
    external: its result for the notification is the `sent` parameter, and the
    response lists the mails that were attempted. */
module ContactRelay {
  import opened Wrappers
  import opened Text

  const RecipientEmail: string := "biuro@kancelariaprestige.pl"
  const NotGiven: string := "Nie podano"
  const XhrToken: string := "xmlhttprequest"

  /** The four validation rules, in the order the script checks them. */
  datatype Rule = NameRule | EmailRule | MessageRule | ConsentRule

  /** The replies of the script, by kind; `ReplyText` gives the JSON `message`. */
  datatype Reply = MethodNotAllowed | Forbidden | HoneypotAccepted | Rejected(errors: seq<Rule>) | Thanks | ServerError

  /** The parts of the request the script reads: `REQUEST_METHOD`, the
      `X-Requested-With` header, and the POST fields. */
  datatype Request = Request(verb: string, requestedWith: Option<string>, post: map<string, string>)

  /** A mail the script hands to `mail()`: the notification, with the values
      it shows, or the auto-reply to the sender. */
  datatype Mail =
    | Notification(to: string, name: string, email: string, phoneShown: string, serviceLabel: string, message: string)
    | AutoReply(to: string)

  /** Status code, the JSON body's two members, and the mails attempted. */
  datatype Response = Response(status: int, success: bool, message: Reply, mails: seq<Mail>)

  // ---------------------------------------------------------------------------
  // Texts

  function RuleText(r: Rule): string {
    match r
    case NameRule => "Imię i nazwisko jest wymagane (min. 2 znaki)."
    case EmailRule => "Podaj prawidłowy adres e-mail."
    case MessageRule => "Wiadomość jest wymagana (min. 10 znaków)."
    case ConsentRule => "Wymagana jest zgoda na przetwarzanie danych osobowych."
  }

  function RuleTexts(rs: seq<Rule>): (ts: seq<string>)
    ensures |ts| == |rs| && forall k :: 0 <= k < |rs| ==> ts[k] == RuleText(rs[k])
  {
    if rs == [] then [] else [RuleText(rs[0])] + RuleTexts(rs[1..])
  }

  /** `implode(' ', $parts)`. */
  function Join(parts: seq<string>): string {
    if parts == [] then ""
    else if |parts| == 1 then parts[0]
    else parts[0] + " " + Join(parts[1..])
  }

  function ReplyText(m: Reply): string {
    match m
    case MethodNotAllowed => "Metoda niedozwolona."
    case Forbidden => "Niedozwolone żądanie."
    case HoneypotAccepted => "Wiadomość wysłana."
    case Rejected(errors) => Join(RuleTexts(errors))
    case Thanks => "Dziękujemy! Wiadomość została wysłana. Odpowiemy najszybciej jak to możliwe."
    case ServerError => "Wystąpił błąd serwera. Prosimy o kontakt telefoniczny: +48 600 000 000."
  }

  /** Where part i starts in the joined text. */
  function PartOffset(parts: seq<string>, i: nat): nat
    requires i <= |parts|
  {
    if i == 0 then 0 else |parts[0]| + 1 + PartOffset(parts[1..], i - 1)
  }

  /** Each part appears whole in the joined text, at its offset. */
  lemma {:induction false} JoinContainsPart(parts: seq<string>, i: nat)
    requires i < |parts|
    ensures PartOffset(parts, i) + |parts[i]| <= |Join(parts)|
    ensures Join(parts)[PartOffset(parts, i)..PartOffset(parts, i) + |parts[i]|] == parts[i]
  {
    if i > 0 {
      JoinContainsPart(parts[1..], i - 1);
      var rest := Join(parts[1..]);
      var o := PartOffset(parts[1..], i - 1);
      assert Join(parts) == parts[0] + " " + rest;
      assert Join(parts)[|parts[0]| + 1 + o..|parts[0]| + 1 + o + |parts[i]|] == rest[o..o + |parts[i]|];
    } else if |parts| > 1 {
      assert Join(parts) == parts[0] + (" " + Join(parts[1..]));
    }
  }

  // ---------------------------------------------------------------------------
  // PHP value semantics and the header gate

  /** `empty($x)` on a string that may be unset: unset, "" and "0". */
  predicate PhpEmpty(v: Option<string>) {
    v.None? || v.value == "" || v.value == "0"
  }

  /** `$_POST[key] ?? ''`. */
  function Field(post: map<string, string>, key: string): string {
    if key in post then post[key] else ""
  }

  function Lookup(post: map<string, string>, key: string): Option<string> {
    if key in post then Some(post[key]) else None
  }

  function LowerChar(c: char): char {
    if 'A' <= c <= 'Z' then (c as int + 32) as char else c
  }

  /** `strtolower` on ASCII letters. */
  function AsciiLower(s: string): (r: string)
    ensures |r| == |s|
  {
    seq(|s|, k requires 0 <= k < |s| => LowerChar(s[k]))
  }

  /** The AJAX marker: a non-empty `X-Requested-With` equal, ignoring ASCII
      case, to "xmlhttprequest". */
  predicate XhrMarked(h: Option<string>) {
    !PhpEmpty(h) && AsciiLower(h.value) == XhrToken
  }

  /** The gate accepts a header exactly when each of its characters lowers to the token's. */
  lemma XhrMarkedChars(h: string)
    ensures XhrMarked(Some(h)) <==> |h| == |XhrToken| && forall k :: 0 <= k < |h| ==> LowerChar(h[k]) == XhrToken[k]
  {
    if |h| == |XhrToken| && forall k :: 0 <= k < |h| ==> LowerChar(h[k]) == XhrToken[k] {
      assert AsciiLower(h) == XhrToken;
      assert h != "" && h != "0";
    }
  }

  // ---------------------------------------------------------------------------
  // htmlspecialchars($s, ENT_QUOTES, 'UTF-8')

  function EscapeChar(c: char): (e: string)
    ensures |e| >= 1
  {
    if c == '&' then "&amp;"
    else if c == '"' then "&quot;"
    else if c == '\'' then "&#039;"
    else if c == '<' then "&lt;"
    else if c == '>' then "&gt;"
    else [c]
  }

  function HtmlEscape(s: string): (r: string)
    ensures |r| >= |s|
  {
    if s == [] then [] else EscapeChar(s[0]) + HtmlEscape(s[1..])
  }

  predicate StartsWith(s: string, p: string) {
    |p| <= |s| && forall i :: 0 <= i < |p| ==> s[i] == p[i]
  }

  /** One of the five entities the escape produces begins at position k. */
  predicate EntityAt(r: string, k: nat)
    requires k <= |r|
  {
    var t := r[k..];
    StartsWith(t, "&amp;") || StartsWith(t, "&quot;") || StartsWith(t, "&#039;")
    || StartsWith(t, "&lt;") || StartsWith(t, "&gt;")
  }

  /** No markup-significant character, and every ampersand opens an entity. */
  predicate MarkupSafe(r: string) {
    (forall k :: 0 <= k < |r| ==> r[k] != '<' && r[k] != '>' && r[k] != '"' && r[k] != '\'')
    && (forall k :: 0 <= k < |r| && r[k] == '&' ==> EntityAt(r, k))
  }

  lemma EscapeCharSafe(c: char)
    ensures MarkupSafe(EscapeChar(c))
  {
    if c == '&' { EntitySafe("&amp;"); }
    else if c == '"' { EntitySafe("&quot;"); }
    else if c == '\'' { EntitySafe("&#039;"); }
    else if c == '<' { EntitySafe("&lt;"); }
    else if c == '>' { EntitySafe("&gt;"); }
  }

  /** An entity the escape writes is itself safe: its one ampersand opens it. */
  lemma EntitySafe(e: string)
    requires |e| >= 1 && e[0] == '&' && EntityAt(e, 0)
    requires forall k :: 1 <= k < |e| ==> e[k] in "ampquot#039ltg;"
    ensures MarkupSafe(e)
  {
    assert e[0..] == e;
  }

  lemma {:induction false} MarkupSafeAppend(a: string, b: string)
    requires MarkupSafe(a) && MarkupSafe(b)
    ensures MarkupSafe(a + b)
  {
    var r := a + b;
    forall k | 0 <= k < |r| && r[k] == '&' ensures EntityAt(r, k) {
      if k < |a| {
        assert EntityAt(a, k);
        assert r[k..] == a[k..] + b;
      } else {
        assert EntityAt(b, k - |a|);
        assert r[k..] == b[k - |a|..];
      }
    }
  }

  /** The escaped text is safe to place in markup. */
  lemma {:induction false} HtmlEscapeSafe(s: string)
    ensures MarkupSafe(HtmlEscape(s))
  {
    if s != [] {
      EscapeCharSafe(s[0]);
      HtmlEscapeSafe(s[1..]);
      MarkupSafeAppend(EscapeChar(s[0]), HtmlEscape(s[1..]));
    }
  }

  /** Decoding of the five entities, left to right: the reference the escape is checked against. */
  function HtmlUnescape(r: string): (s: string)
    decreases |r|
  {
    if r == [] then []
    else if StartsWith(r, "&amp;") then "&" + HtmlUnescape(r[5..])
    else if StartsWith(r, "&quot;") then "\"" + HtmlUnescape(r[6..])
    else if StartsWith(r, "&#039;") then "'" + HtmlUnescape(r[6..])
    else if StartsWith(r, "&lt;") then "<" + HtmlUnescape(r[4..])
    else if StartsWith(r, "&gt;") then ">" + HtmlUnescape(r[4..])
    else [r[0]] + HtmlUnescape(r[1..])
  }

  lemma UnescapePlain(c: char, rest: string)
    requires c != '&'
    ensures HtmlUnescape([c] + rest) == [c] + HtmlUnescape(rest)
  {
    var r := [c] + rest;
    assert r[0] == c && r[1..] == rest;
  }

  lemma UnescapeAmp(rest: string)
    ensures HtmlUnescape("&amp;" + rest) == "&" + HtmlUnescape(rest)
  {
    var r := "&amp;" + rest;
    assert r[..5] == "&amp;" && r[5..] == rest;
  }

  lemma UnescapeQuot(rest: string)
    ensures HtmlUnescape("&quot;" + rest) == "\"" + HtmlUnescape(rest)
  {
    var r := "&quot;" + rest;
    assert r[1] == 'q' && r[..6] == "&quot;" && r[6..] == rest;
  }

  lemma UnescapeApos(rest: string)
    ensures HtmlUnescape("&#039;" + rest) == "'" + HtmlUnescape(rest)
  {
    var r := "&#039;" + rest;
    assert r[1] == '#' && r[..6] == "&#039;" && r[6..] == rest;
  }

  lemma UnescapeLt(rest: string)
    ensures HtmlUnescape("&lt;" + rest) == "<" + HtmlUnescape(rest)
  {
    var r := "&lt;" + rest;
    assert r[1] == 'l' && r[..4] == "&lt;" && r[4..] == rest;
  }

  lemma UnescapeGt(rest: string)
    ensures HtmlUnescape("&gt;" + rest) == ">" + HtmlUnescape(rest)
  {
    var r := "&gt;" + rest;
    assert r[1] == 'g' && r[..4] == "&gt;" && r[4..] == rest;
  }

  lemma UnescapeStep(c: char, rest: string)
    ensures HtmlUnescape(EscapeChar(c) + rest) == [c] + HtmlUnescape(rest)
  {
    if c == '&' { UnescapeAmp(rest); }
    else if c == '"' { UnescapeQuot(rest); }
    else if c == '\'' { UnescapeApos(rest); }
    else if c == '<' { UnescapeLt(rest); }
    else if c == '>' { UnescapeGt(rest); }
    else { UnescapePlain(c, rest); }
  }

  /** Escaping loses nothing: decoding gives the text back. */
  lemma {:induction false} UnescapeEscape(s: string)
    ensures HtmlUnescape(HtmlEscape(s)) == s
  {
    if s != [] {
      UnescapeEscape(s[1..]);
      UnescapeStep(s[0], HtmlEscape(s[1..]));
      assert [s[0]] + s[1..] == s;
    }
  }

  /** `sanitize`: trim, strip tags, escape. */
  function Sanitize(input: string, stripTags: string -> string): string {
    HtmlEscape(stripTags(Trim(input, IsPhpTrimmed)))
  }

  /** A sanitised value is safe in markup and decodes to the trimmed, stripped input. */
  lemma SanitizeSafe(input: string, stripTags: string -> string)
    ensures MarkupSafe(Sanitize(input, stripTags))
    ensures HtmlUnescape(Sanitize(input, stripTags)) == stripTags(Trim(input, IsPhpTrimmed))
  {
    HtmlEscapeSafe(stripTags(Trim(input, IsPhpTrimmed)));
    UnescapeEscape(stripTags(Trim(input, IsPhpTrimmed)));
  }

  // ---------------------------------------------------------------------------
  // Validation

  /** The sanitised submission and the consent flag. */
  datatype Submission = Submission(name: string, email: string, phone: string, service: string, message: string, rodo: bool)

  function Sanitized(post: map<string, string>, stripTags: string -> string): (sub: Submission)
    ensures sub.rodo <==> "rodo" in post
  {
    Submission(
      Sanitize(Field(post, "name"), stripTags),
      Sanitize(Field(post, "email"), stripTags),
      Sanitize(Field(post, "phone"), stripTags),
      Sanitize(Field(post, "service"), stripTags),
      Sanitize(Field(post, "message"), stripTags),
      "rodo" in post)
  }

  /** Whether a rule is broken, on the sanitised values; lengths are in
      characters (`mb_strlen`) of the escaped text. */
  predicate Breaks(sub: Submission, isEmail: string -> bool, r: Rule) {
    match r
    case NameRule => PhpEmpty(Some(sub.name)) || |sub.name| < 2
    case EmailRule => PhpEmpty(Some(sub.email)) || !isEmail(sub.email)
    case MessageRule => PhpEmpty(Some(sub.message)) || |sub.message| < 10
    case ConsentRule => !sub.rodo
  }

  /** The errors the script collects: each rule checked in turn, none skipped. */
  function ExpectedErrors(sub: Submission, isEmail: string -> bool): seq<Rule> {
    (if Breaks(sub, isEmail, NameRule) then [NameRule] else [])
    + (if Breaks(sub, isEmail, EmailRule) then [EmailRule] else [])
    + (if Breaks(sub, isEmail, MessageRule) then [MessageRule] else [])
    + (if Breaks(sub, isEmail, ConsentRule) then [ConsentRule] else [])
  }

  predicate RuleBefore(a: Rule, b: Rule) {
    match a
    case NameRule => !b.NameRule?
    case EmailRule => b.MessageRule? || b.ConsentRule?
    case MessageRule => b.ConsentRule?
    case ConsentRule => false
  }

  /** Every broken rule is reported and only those, each once, in the order
      the script checks them. */
  lemma ErrorsAreViolations(sub: Submission, isEmail: string -> bool)
    ensures var errs := ExpectedErrors(sub, isEmail);
      (forall r :: r in errs <==> Breaks(sub, isEmail, r))
      && (forall i, j :: 0 <= i < j < |errs| ==> RuleBefore(errs[i], errs[j]))
      && (errs == [] <==> forall r :: !Breaks(sub, isEmail, r))
  {
    var errs := ExpectedErrors(sub, isEmail);
    forall r ensures r in errs <==> Breaks(sub, isEmail, r) {
      match r
      case NameRule =>
      case EmailRule =>
      case MessageRule =>
      case ConsentRule =>
    }
    if errs == [] {
      forall r ensures !Breaks(sub, isEmail, r) {
        assert r !in errs;
      }
    }
  }

  // ---------------------------------------------------------------------------
  // The mail and the response

  /** `$serviceLabels[$service] ?? 'Nie podano'`. */
  function ServiceLabel(service: string): (shown: string)
    ensures shown == NotGiven <==> service !in {"pelna-ksiegowosc", "kpir", "kadry-place", "doradztwo", "inne"}
  {
    if service == "pelna-ksiegowosc" then "Pełna Księgowość"
    else if service == "kpir" then "KPiR / Ryczałt"
    else if service == "kadry-place" then "Kadry i Płace"
    else if service == "doradztwo" then "Doradztwo Podatkowe"
    else if service == "inne" then "Inne"
    else NotGiven
  }

  /** `$phone ?: 'Nie podano'`: the phone unless it is falsy ("" or "0"). */
  function PhoneShown(phone: string): (shown: string)
    ensures shown == NotGiven || shown == phone
    ensures shown == phone <==> phone != "" && phone != "0"
  {
    if phone == "" || phone == "0" then NotGiven else phone
  }

  /** What the script does once a request is past both gates: the honeypot,
      then the collected errors, then the send. */
  function Decide(sub: Submission, honeypot: bool, isEmail: string -> bool, sent: bool): Response {
    if honeypot then Response(200, true, HoneypotAccepted, [])
    else
      var errors := ExpectedErrors(sub, isEmail);
      if errors != [] then Response(422, false, Rejected(errors), [])
      else
        var note := Notification(RecipientEmail, sub.name, sub.email, PhoneShown(sub.phone),
                                 ServiceLabel(sub.service), sub.message);
        if sent then Response(200, true, Thanks, [note, AutoReply(sub.email)])
        else Response(500, false, ServerError, [note])
  }

  /** The response of the script, as a function of the request, the two library
      routines and whether `mail()` accepted the notification. */
  function Respond(req: Request, stripTags: string -> string, isEmail: string -> bool, sent: bool): Response {
    if req.verb != "POST" then Response(405, false, MethodNotAllowed, [])
    else if !XhrMarked(req.requestedWith) then Response(403, false, Forbidden, [])
    else Decide(Sanitized(req.post, stripTags), !PhpEmpty(Lookup(req.post, "website")), isEmail, sent)
  }

  /** The script: the two gates, then the sanitised fields go to `DecideSubmission`. */
  method HandleContact(req: Request, stripTags: string -> string, isEmail: string -> bool, sent: bool)
    returns (resp: Response)
    ensures resp == Respond(req, stripTags, isEmail, sent)
  {
    if req.verb != "POST" {
      return Response(405, false, MethodNotAllowed, []);
    }
    if PhpEmpty(req.requestedWith) || AsciiLower(req.requestedWith.value) != XhrToken {
      return Response(403, false, Forbidden, []);
    }
    var sub := Sanitized(req.post, stripTags);
    resp := DecideSubmission(sub, !PhpEmpty(Lookup(req.post, "website")), isEmail, sent);
  }

  /** The error list built one rule at a time, the honeypot, the report, and the send. */
  method DecideSubmission(sub: Submission, honeypot: bool, isEmail: string -> bool, sent: bool)
    returns (resp: Response)
    ensures resp == Decide(sub, honeypot, isEmail, sent)
  {
    var errors: seq<Rule> := [];
    if PhpEmpty(Some(sub.name)) || |sub.name| < 2 {
      errors := errors + [NameRule];
    }
    if PhpEmpty(Some(sub.email)) || !isEmail(sub.email) {
      errors := errors + [EmailRule];
    }
    if PhpEmpty(Some(sub.message)) || |sub.message| < 10 {
      errors := errors + [MessageRule];
    }
    if !sub.rodo {
      errors := errors + [ConsentRule];
    }
    assert errors == ExpectedErrors(sub, isEmail);

    if honeypot {
      return Response(200, true, HoneypotAccepted, []);
    }
    if errors != [] {
      return Response(422, false, Rejected(errors), []);
    }
    var note := Notification(RecipientEmail, sub.name, sub.email, PhoneShown(sub.phone), ServiceLabel(sub.service), sub.message);
    if sent {
      resp := Response(200, true, Thanks, [note, AutoReply(sub.email)]);
    } else {
      resp := Response(500, false, ServerError, [note]);
    }
  }

  // ---------------------------------------------------------------------------
  // Properties of the response

  /** The gates come first: 405 exactly for a method other than POST, 403
      exactly for a POST without the marker, and neither sends mail. */
  lemma GatesComeFirst(req: Request, stripTags: string -> string, isEmail: string -> bool, sent: bool)
    ensures var resp := Respond(req, stripTags, isEmail, sent);
      (resp.status == 405 <==> req.verb != "POST")
      && (resp.status == 403 <==> req.verb == "POST" && !XhrMarked(req.requestedWith))
      && (resp.status == 405 || resp.status == 403 ==> !resp.success && resp.mails == [])
  {
    if req.verb == "POST" && XhrMarked(req.requestedWith) {
      DecideStatus(Sanitized(req.post, stripTags), !PhpEmpty(Lookup(req.post, "website")), isEmail, sent);
    }
  }

  /** Past the gates the status is 200, 422 or 500. */
  lemma DecideStatus(sub: Submission, honeypot: bool, isEmail: string -> bool, sent: bool)
    ensures Decide(sub, honeypot, isEmail, sent).status in {200, 422, 500}
  {
  }

  /** The response depends on the request only through what the script reads:
      whether the method is POST, whether the marker header is accepted, the
      five text fields, the presence of `rodo` and whether the honeypot is
      empty. Two requests that agree on these get the same response, whatever
      other fields they carry. */
  lemma ResponseReadsOnlyItsFields(r1: Request, r2: Request, stripTags: string -> string, isEmail: string -> bool, sent: bool)
    requires (r1.verb == "POST") == (r2.verb == "POST")
    requires XhrMarked(r1.requestedWith) == XhrMarked(r2.requestedWith)
    requires Field(r1.post, "name") == Field(r2.post, "name") && Field(r1.post, "email") == Field(r2.post, "email")
    requires Field(r1.post, "phone") == Field(r2.post, "phone") && Field(r1.post, "service") == Field(r2.post, "service")
    requires Field(r1.post, "message") == Field(r2.post, "message")
    requires ("rodo" in r1.post) == ("rodo" in r2.post)
    requires PhpEmpty(Lookup(r1.post, "website")) == PhpEmpty(Lookup(r2.post, "website"))
    ensures Respond(r1, stripTags, isEmail, sent) == Respond(r2, stripTags, isEmail, sent)
  {
    var s1, s2 := Sanitized(r1.post, stripTags), Sanitized(r2.post, stripTags);
    assert s1 == s2;
  }

  /** A filled honeypot gets a 200 success without any mail, whatever the
      validation found. */
  lemma HoneypotWins(sub: Submission, isEmail: string -> bool, sent: bool)
    ensures Decide(sub, true, isEmail, sent) == Response(200, true, HoneypotAccepted, [])
  {
  }

  /** The text of a rejection holds the text of each reported rule whole, at
      the offset of its position in the list. */
  lemma RejectionTextNamesRule(errs: seq<Rule>, j: nat)
    requires j < |errs|
    ensures var ts := RuleTexts(errs);
      ReplyText(Rejected(errs)) == Join(ts) && ts[j] == RuleText(errs[j])
      && PartOffset(ts, j) + |ts[j]| <= |Join(ts)|
      && Join(ts)[PartOffset(ts, j)..PartOffset(ts, j) + |ts[j]|] == ts[j]
  {
    RejectionIsJoin(errs);
    JoinContainsPart(RuleTexts(errs), j);
  }

  lemma RejectionIsJoin(errs: seq<Rule>)
    ensures ReplyText(Rejected(errs)) == Join(RuleTexts(errs))
  {
  }

  /** Past the honeypot, a broken rule gives 422, no mail, and a rejection
      that reports it. */
  lemma UnprocessableNamesEveryBrokenRule(sub: Submission, isEmail: string -> bool, sent: bool, r: Rule)
    requires Breaks(sub, isEmail, r)
    ensures var resp := Decide(sub, false, isEmail, sent);
      resp == Response(422, false, Rejected(ExpectedErrors(sub, isEmail)), []) && r in resp.message.errors
  {
    ErrorsAreViolations(sub, isEmail);
  }

  /** A submission that passes everything sends the notification to the office
      first; the status follows its result alone, and the auto-reply to the
      sanitised sender address is attempted only after it succeeded. */
  lemma SendOutcomeDecides(sub: Submission, isEmail: string -> bool, sent: bool)
    requires forall r :: !Breaks(sub, isEmail, r)
    ensures var resp := Decide(sub, false, isEmail, sent);
      (resp.status == 200 <==> sent) && (resp.status == 500 <==> !sent) && resp.success == sent
      && |resp.mails| >= 1 && resp.mails[0].Notification? && resp.mails[0].to == RecipientEmail
      && resp.mails[0].serviceLabel == ServiceLabel(sub.service)
      && resp.mails[0].phoneShown == PhoneShown(sub.phone)
      && (AutoReply(sub.email) in resp.mails <==> sent)
  {
    ErrorsAreViolations(sub, isEmail);
  }

  /** Consent is the presence of the `rodo` key, whatever its value, even "" or "0". */
  lemma ConsentIsPresence(post: map<string, string>, stripTags: string -> string, isEmail: string -> bool)
    ensures ConsentRule in ExpectedErrors(Sanitized(post, stripTags), isEmail) <==> "rodo" !in post
  {
    ErrorsAreViolations(Sanitized(post, stripTags), isEmail);
  }

  /** The length rules see the escaped text: a one-character name "'" becomes
      "&#039;" and passes the two-character minimum. */
  lemma LengthCountsEscapedText(sub: Submission, stripTags: string -> string, isEmail: string -> bool)
    requires stripTags("'") == "'"
    requires sub.name == Sanitize("'", stripTags)
    ensures |sub.name| == 6
    ensures NameRule !in ExpectedErrors(sub, isEmail)
  {
    assert !IsPhpTrimmed('\'');
    TrimUntouched("'", IsPhpTrimmed);
    assert HtmlEscape("'") == "&#039;";
    ErrorsAreViolations(sub, isEmail);
  }

  /** A submission that breaks all four rules gets all four reasons, in order. */
  lemma AllFourRulesBroken(sub: Submission, isEmail: string -> bool, sent: bool)
    requires |sub.name| < 2 && !isEmail(sub.email) && |sub.message| < 10 && !sub.rodo
    ensures Decide(sub, false, isEmail, sent)
      == Response(422, false, Rejected([NameRule, EmailRule, MessageRule, ConsentRule]), [])
  {
    assert Breaks(sub, isEmail, NameRule) && Breaks(sub, isEmail, EmailRule);
    assert Breaks(sub, isEmail, MessageRule) && Breaks(sub, isEmail, ConsentRule);
    assert ExpectedErrors(sub, isEmail) == [NameRule] + [EmailRule] + [MessageRule] + [ConsentRule];
    assert [NameRule] + [EmailRule] + [MessageRule] + [ConsentRule] == [NameRule, EmailRule, MessageRule, ConsentRule];
  }
}
