# Prestige accounting office site: contact pipeline and page chrome in Dafny

This project models the behaviour of the brochure site of an accounting office:
- the browser script `js/main.js`, which drives the page chrome, the input masks and the contact form;
- the PHP relay `php/contact.php`, which validates a submission and mails it.

The pieces of the script are modelled as follows:
- **Page chrome** is a class, `PageChrome.Chrome`:
  - the sticky header and back-to-top thresholds (50 and 400 px);
  - the active-link scan at `scrollY + 120`;
  - the mobile navigation;
  - the privacy modal.

  The navigation and the modal share one `document.body.style.overflow`. `NavCloseUnlocksUnderOpenModal` shows the consequence: closing the navigation unlocks scrolling while the modal is still open.
- **Reveal-on-scroll** is a class over sets, `Reveal.Tracker`. Each element is revealed at most once.
- **Input masks** are pure functions, each with a reference definition and lemmas:
  - the phone mask `+48 XXX XXX XXX`, with its focus, blur and keypress rules;
  - the name filter and the name's blur normalisation;
  - the e-mail pattern;
  - the message counter.
- **The contact form** is a class, `ContactFormUi.ContactForm`:
  - the submit handler, split at its `await` into `BeginSubmit` and `FinishSubmit`;
  - the shared message region with its 8-second auto-hide timers;
  - the per-field handlers.
- **The relay** is a specification function, `ContactRelay.Respond`, and a method that is proved equal to it, `ContactRelay.HandleContact`. The properties are proved about the function:
  - the gate order;
  - the honeypot taking precedence;
  - every broken rule reported;
  - the status following the send result.

The following become parameters:
- the two PHP library routines the relay relies on, `strip_tags` and `filter_var(…, FILTER_VALIDATE_EMAIL)`, passed as functions;
- the result of `mail()`, passed as `sent`;
- the scroll position and the section geometry;
- whether the page has the optional elements;
- the outcome of the network call.

Points where the code behaves in a way worth knowing, as modelled:
- **Capitalisation on blur.** The comment at js/main.js:436 announces that the first letter of every word is capitalised. The replacement at js/main.js:441 upper-cases a letter that follows an ASCII `\b` boundary, which does not see Polish letters as word characters. The model's blur uses the announced rule; see "## Findings" and "## Left out".
- **Email pattern.** The test at js/main.js:302 requires three non-empty runs free of whitespace and `@`, joined by `@` and a dot. The part after the dot excludes `@` as well as whitespace.
- **Consent.** php/contact.php:55 checks only that the `rodo` key is present (`isset`), whatever its value.
- **Auto-reply.** php/contact.php:132-157 sends the auto-reply inside `if ($sent)`, so only after the notification was accepted.
- **Active links.** js/main.js:77-83 marks every link whose `href` is "#" followed by the current id, so several links sharing that `href` are all active.

## Model

| member | source | states |
|---|---|---|
| Text.Slice | js/main.js:375-383 | `String.prototype.slice` with non-negative bounds clamps `to` at the length and yields the empty string when `from` is past it; otherwise it is exactly `s[from..min(to,len)]` |
| Text.Keep | js/main.js:371 | global character removal keeps only accepted characters, never grows the text, and leaves a text unchanged exactly when every character is accepted |
| Text.KeepAppend | js/main.js:432 | removing characters distributes over concatenation |
| Text.KeepSingle | js/main.js:432 | one character is kept exactly when it is accepted; with `KeepAppend` this determines the filter on every input |
| Text.KeepCountsAccepted | js/main.js:432 | every accepted character occurs in the result exactly as often as in the input |
| Text.Digits | js/main.js:371 | `replace(/\D/g, "")` yields only decimal digits and is no longer than its input |
| Text.DigitsKeepsEveryDigit | js/main.js:371 | every digit of the input occurs in the result exactly as often as in the input |
| Text.TrimStart | js/main.js:439 | removes exactly a whitespace prefix; the rest is a suffix of the input that does not start with whitespace |
| Text.TrimEnd | js/main.js:439 | removes exactly a whitespace suffix; the rest is a prefix of the input that does not end with whitespace |
| Text.Trim | js/main.js:214-216 | `trim()` returns the slice of its input that starts after the leading whitespace, and the result is empty or has non-whitespace ends |
| Text.TrimIsInnerSlice | js/main.js:214-216 | every character `trim()` cuts away, on either side, is whitespace |
| Text.TrimUntouched | php/contact.php:47 | a text whose ends are not trimmable comes back from `trim` unchanged |
| Text.TrimIdempotent | js/main.js:453 | trimming twice equals trimming once |
| Text.Utf16Length | js/main.js:488 | `value.length` counts UTF-16 units: between one and two per character |
| Text.Utf16LengthAscii | js/main.js:488 | on ASCII text `value.length` is the character count |
| PhoneMask.DropCountryCode | js/main.js:374-376 | a leading "48" is removed, and only then |
| PhoneMask.KeptDigits | js/main.js:371-378 | the digits the mask keeps are at most nine decimal digits |
| PhoneMask.KeptDigitsArePrefix | js/main.js:371-378 | the kept digits are exactly the first min(9, n) of the n digits left after dropping the country code |
| PhoneMask.GuardedGroups | js/main.js:380-384 | the three guarded appends add at most three characters; `FormatPhoneIsGrouped` proves them equal to the reference grouping |
| PhoneMask.FormatPhone | js/main.js:369-385 | every masked value starts with "+48" and has at most 15 characters |
| PhoneMask.FormatPhoneIsGrouped | js/main.js:380-384 | the three guarded appends equal "+48" followed by the kept digits in space-led groups of three (reference definition `Grouped`) |
| PhoneMask.GroupedShape | js/main.js:380-384 | the grouping adds one space per group, loses no digit, is empty only for no digits, starts with a space and ends with a digit |
| PhoneMask.FormatPhoneDigits | js/main.js:369-385 | the digits of the masked value are "48" followed by exactly the kept digits |
| PhoneMask.KeptDigitsStable | js/main.js:369-385 | masking a masked value keeps the same national digits |
| PhoneMask.FormatPhoneIdempotent | js/main.js:387-394 | re-masking an already masked value leaves it unchanged |
| PhoneMask.PrefixedGroupsShape | js/main.js:380-384 | "+48" followed by the grouped digits has length 3 + digits + groups, is the bare prefix only for no digits, and otherwise has a space after the prefix and a digit at the end |
| PhoneMask.FormatPhoneShape | js/main.js:380-384 | the masked length is 3 + digits + groups; the value is the bare "+48" iff no digit is kept; otherwise a space follows the prefix and a digit ends it |
| PhoneMask.LongNumberTruncated | js/main.js:374-383 | a digit string of length at least 11 starting with "48" becomes "+48 " and three groups of its digits 3-11; the rest is dropped |
| PhoneMask.BlurValue | js/main.js:405-408 | blur clears the value exactly when its trimmed form is "+48", and otherwise leaves it as it is |
| PhoneMask.TrimmedNeverSeed | js/main.js:406 | a trimmed value never equals "+48 ", so the second comparison in the blur test never holds |
| PhoneMask.SeedClearedOnBlur | js/main.js:397-408 | the seeded "+48 " and the bare "+48" are both cleared on blur |
| PhoneMask.TooShortOfMasked | js/main.js:410-416 | for a masked value, the too-short warning is on exactly when between one and eight national digits are kept |
| PhoneMask.SingleKeyFilter | js/main.js:420-424 | without Ctrl or Meta, a one-character key is blocked exactly when it is not a digit, `+` or whitespace |
| PhoneMask.TooShort | js/main.js:410 | no contract of its own; `TooShortOfMasked` states when it holds |
| PhoneMask.KeypressBlocked | js/main.js:420-424 | no contract of its own; `SingleKeyFilter` states which keys it blocks |
| EmailPattern.IndexOfAt | js/main.js:302 | finds the first `@`, or the length when there is none |
| EmailPattern.IsValidEmail | js/main.js:301-303 | no contract of its own; `ValidEmailFromParts` and `PartsOfValidEmail` characterise it in both directions |
| EmailPattern.ValidEmailFromParts | js/main.js:301-303 | any three non-empty runs free of whitespace and `@`, joined as a@b.c, pass the pattern |
| EmailPattern.PartsOfValidEmail | js/main.js:301-303 | every value that passes the pattern splits as a@b.c into three such runs |
| EmailPattern.EmailExamples | js/main.js:301-303 | "a@b.co" passes and "not-an-email" does not |
| NameInput.FilterName | js/main.js:430-434 | the filtered name holds only letters of the allowed alphabet, whitespace, `-` and `'`, and equals the input exactly when the input is already clean |
| NameInput.FilterNameIdempotent | js/main.js:433 | filtering a filtered name changes nothing, so the handler's write-back is skipped the second time |
| NameInput.FilterNameKeepsAllowed | js/main.js:432 | every allowed character of the input survives the filter, exactly as often as it occurs |
| NameInput.CollapseSpaces | js/main.js:440 | `replace(/\s+/g, " ")` never grows the text, is empty only for empty input, and keeps whether the text starts with whitespace |
| NameInput.CollapseSpacesIsScan | js/main.js:440 | the collapse equals the reference scan that writes exactly one space for each maximal whitespace run and copies every other character |
| NameInput.CollapseSpacesSingle | js/main.js:440 | after collapsing, all whitespace is a single space and no two are adjacent |
| NameInput.CollapseSpacesKeeps | js/main.js:440 | collapsing keeps every non-whitespace character in order |
| NameInput.CollapseSpacesLast | js/main.js:440 | collapsing keeps whether the text ends with whitespace |
| NameInput.TrimKeepsNonSpace | js/main.js:439 | trimming keeps every non-whitespace character in order |
| NameInput.NormaliseNameShape | js/main.js:438-440 | after trim and collapse the name has no whitespace at either end, is single-spaced, and keeps every other character in order |
| NameInput.NormaliseName | js/main.js:438-440 | no contract of its own; `NormaliseNameShape` and `CollapseSpacesIsScan` state its result |
| NameInput.ToUpper | js/main.js:441 | letters of the name alphabet map to capitals: an ASCII lower-case letter to the one 32 code points below, a capital to itself; every other character is unchanged |
| NameInput.ToUpperPairs | js/main.js:441 | each Polish lower-case letter upper-cases to the capital at the same position of the alphabet |
| NameInput.CapitaliseAsWritten | js/main.js:441 | the as-written capitalisation keeps the length |
| NameInput.CapitaliseAsWrittenMissesPolish | js/main.js:441 | as written, "łukasz" becomes "łUkasz" and "ał" becomes "AŁ" |
| NameInput.CapitaliseWords | js/main.js:441 | every letter that starts a word becomes its capital, every other character is unchanged |
| NameInput.CapitaliseAgreesWithoutPolish | js/main.js:441 | on names without Polish letters the corrected capitalisation equals the code as written |
| NameInput.CapitaliseWordsPolish | js/main.js:441 | corrected, "łukasz" becomes "Łukasz" and "ał" becomes "Ał" |
| NameInput.BlurName | js/main.js:437-442 | the name after blur, with the capitalisation announced at js/main.js:436, is no longer than before |
| NameInput.BlurNameAsWritten | js/main.js:437-442 | the blur as the code computes it keeps the normalised length and never grows the name |
| NameInput.BlurNameAgreesWithoutPolish | js/main.js:437-442 | on names without Polish letters the modelled blur equals what the code writes |
| CharCounter.NearLimit | js/main.js:490 | the warning is on exactly when the length exceeds 850 (85 % of 1000) |
| CharCounter.Decimal | js/main.js:489 | the printed count is a non-empty digit string without a leading zero |
| CharCounter.DecimalRoundTrip | js/main.js:489 | reading the printed count back gives the count |
| CharCounter.CounterText | js/main.js:484-489 | the counter text is the printed length followed by " / 1000" |
| CharCounter.CounterFor | js/main.js:487-491 | the counter shows at least the character count and warns exactly past 850 |
| CharCounter.CounterTextShowsLength | js/main.js:489 | the length can be read back from the counter text |
| ContactFormUi.ClientCheckOrder | js/main.js:214-238 | no failure exactly when the trimmed name, e-mail and message are non-empty, the e-mail passes the pattern and consent is given; otherwise the first failing check in the order required fields, pattern, consent names the message |
| ContactFormUi.ClientCheck | js/main.js:213-238 | no contract of its own; `ClientCheckOrder` states which failure it reports |
| ContactFormUi.OrElse | js/main.js:261-269 | `data.message \|\| fallback`: the server's text unless it is missing or empty |
| ContactFormUi.React | js/main.js:258-278 | the form is reset exactly on a success tone; success is shown exactly for an accepted response or a thrown call; the text is never empty, is the server's when it sent a non-empty one, otherwise the default success or error text by the outcome, and is the offline notice for a thrown call |
| ContactFormUi.ContactForm.constructor | js/main.js:206-211 | a fresh form: empty fields, enabled button, hidden region, no timers, nothing sent |
| ContactFormUi.ContactForm.ShowFormMessage | js/main.js:286-299 | with a region, shows the tone and text and schedules one more hide timer for a success; without one, changes nothing |
| ContactFormUi.ContactForm.AutoHideFires | js/main.js:294-297 | a firing timer hides the region, whatever it shows by then |
| ContactFormUi.ContactForm.BeginSubmit | js/main.js:207-243 | returns the client check's failure and the button's label; sends exactly when the check passes, then disables the button with the busy label and appends the fields to what was sent; otherwise shows the failure and sends nothing |
| ContactFormUi.ContactForm.FinishSubmit | js/main.js:256-282 | shows the reaction, resets the fields exactly when it says so, and in every case re-enables the button with its original label |
| ContactFormUi.ContactForm.Submit | js/main.js:207-283 | a whole submission: a failing check leaves fields, button and outbox as they were; a passing one sends the old fields once, reacts to the outcome and restores the button |
| ContactFormUi.ContactForm.PhoneInput | js/main.js:387-394 | the value is re-masked and the caret moves by the change in UTF-16 length |
| ContactFormUi.ContactForm.PhoneFocus | js/main.js:397-402 | an empty field gets "+48 " with the caret after it; a non-empty one is untouched |
| ContactFormUi.ContactForm.PhoneBlur | js/main.js:405-417 | a bare prefix is cleared, then the warning reflects the too-short rule on the new value |
| ContactFormUi.ContactForm.NameInput | js/main.js:430-434 | the name is replaced by its filtered form and nothing else changes |
| ContactFormUi.ContactForm.NameBlur | js/main.js:437-442 | the name is trimmed, collapsed and capitalised |
| ContactFormUi.ContactForm.EmailBlur | js/main.js:452-468 | no hint for a blank trimmed value, otherwise a valid or invalid hint by the pattern |
| ContactFormUi.ContactForm.EmailFocus | js/main.js:470-473 | focus clears the hint |
| ContactFormUi.ContactForm.MessageInput | js/main.js:487-491 | the counter shows the field's UTF-16 length and warns past 850 |
| PageChrome.LastCovering | js/main.js:69-75 | the index of the last section in document order whose range holds the probe, or none when no range holds it |
| PageChrome.CurrentSection | js/main.js:63-75 | no contract of its own; `FindCurrentSection` proves the scan computes it |
| PageChrome.LinkActive | js/main.js:77-83 | no contract of its own; `ActiveLinksAgree` and `BareHashMarkedWhenNoSection` state its consequences |
| PageChrome.FindCurrentSection | js/main.js:63-75 | the scan leaves the id of the last section holding `scrollY + 120`, or "" when none does |
| PageChrome.ActiveLinksAgree | js/main.js:77-83 | any two active links have the same `href`, "#" followed by the current id |
| PageChrome.BareHashMarkedWhenNoSection | js/main.js:67-83 | with no section under the probe the current id is "" and a link to a bare "#" is marked active |
| PageChrome.Chrome.constructor | js/main.js:12-21 | the page as the script finds it, before the load-time `handleScroll()` of js/main.js:497: closed, unlocked and unscrolled, with no link active |
| PageChrome.Chrome.OpenNav | js/main.js:89-95 | panel open, overlay and hamburger active, `aria-expanded` "true", body locked; the invariant holds |
| PageChrome.Chrome.CloseNav | js/main.js:97-103 | the reverse of opening, the body unlocked even under an open modal; the invariant holds |
| PageChrome.Chrome.HamburgerClick | js/main.js:105-110 | a click toggles the navigation and the body lock follows it |
| PageChrome.Chrome.NavLinkClick | js/main.js:122-128 | a link click closes an open navigation and changes nothing otherwise |
| PageChrome.Chrome.OpenModal | js/main.js:325-329 | opens the modal and locks the body, or does nothing when the page has no modal |
| PageChrome.Chrome.CloseModal | js/main.js:331-335 | closes the modal and unlocks the body, or does nothing when the page has no modal |
| PageChrome.Chrome.KeyDown | js/main.js:131-135 | Escape closes whichever of navigation and modal is open, in listener order, and other keys change nothing |
| PageChrome.Chrome.HandleScroll | js/main.js:41-56 | header "scrolled" past 50, back-to-top visible past 400, and every link active exactly when it points at the current section |
| PageChrome.Chrome.UpdateActiveNavLink | js/main.js:63-84 | every link is marked active exactly when its non-empty `href` is "#" followed by the current id |
| PageChrome.NavCloseUnlocksUnderOpenModal | js/main.js:94-102 | with the modal open, opening and closing the navigation leaves the modal open but the body unlocked |
| Reveal.Hits | js/main.js:178-188 | a batch reveals exactly the observed elements that some entry of the batch reports intersecting |
| Reveal.Tracker.constructor | js/main.js:173-201 | with elements and IntersectionObserver all are observed and none revealed; otherwise all are revealed at once |
| Reveal.Tracker.OnEntries | js/main.js:177-189 | the batch moves exactly its hits from observed to revealed, keeping the two disjoint and covering all elements |
| Reveal.RevealIsOneShot | js/main.js:187 | a revealed element is never reported again and stays revealed |
| ContactRelay.RuleTexts | php/contact.php:59-73 | each reported rule is rendered by its own message, in order |
| ContactRelay.JoinContainsPart | php/contact.php:84 | `implode(' ', …)` holds each part whole at its offset |
| ContactRelay.Join | php/contact.php:84 | no contract of its own; `JoinContainsPart` states that each part appears whole |
| ContactRelay.ReplyText | php/contact.php:30-170 | no contract of its own; `RejectionTextNamesRule` states the text of a rejection |
| ContactRelay.XhrMarkedChars | php/contact.php:36 | the header gate accepts a value exactly when it lower-cases character by character to "xmlhttprequest" |
| ContactRelay.XhrMarked | php/contact.php:36 | no contract of its own; `XhrMarkedChars` states which headers it accepts |
| ContactRelay.HtmlEscape | php/contact.php:47 | escaping never shortens the text |
| ContactRelay.HtmlEscapeSafe | php/contact.php:47 | escaped text has no `<`, `>`, `"` or `'`, and every `&` in it opens an entity |
| ContactRelay.UnescapeEscape | php/contact.php:47 | decoding the five entities gives the original text back |
| ContactRelay.SanitizeSafe | php/contact.php:45-48 | a sanitised value is markup-safe and decodes to the trimmed, tag-stripped input |
| ContactRelay.Sanitize | php/contact.php:45-48 | no contract of its own; `SanitizeSafe` states its result |
| ContactRelay.Sanitized | php/contact.php:50-55 | consent is the presence of the `rodo` key |
| ContactRelay.ErrorsAreViolations | php/contact.php:57-73 | every broken rule is reported and only those, in the checking order, and the list is empty exactly when no rule is broken |
| ContactRelay.Breaks | php/contact.php:59-73 | no contract of its own; the four conditions of the script, used by `ErrorsAreViolations` |
| ContactRelay.ExpectedErrors | php/contact.php:57-73 | no contract of its own; `ErrorsAreViolations` states its content and order |
| ContactRelay.ServiceLabel | php/contact.php:91-99 | "Nie podano" exactly for a code outside the five known ones |
| ContactRelay.PhoneShown | php/contact.php:109 | the phone is shown unless it is "" or "0", in which case "Nie podano" is |
| ContactRelay.HandleContact | php/contact.php:30-170 | the script's response equals the specification function `Respond` |
| ContactRelay.Respond | php/contact.php:30-170 | no contract of its own; `GatesComeFirst`, `ResponseReadsOnlyItsFields` and the lemmas on `Decide` state its properties |
| ContactRelay.Decide | php/contact.php:75-170 | no contract of its own; `DecideStatus`, `HoneypotWins`, `UnprocessableNamesEveryBrokenRule` and `SendOutcomeDecides` state its properties |
| ContactRelay.DecideSubmission | php/contact.php:57-170 | the error list built rule by rule, then the honeypot, rejection and send, equal `Decide` |
| ContactRelay.DecideStatus | php/contact.php:75-170 | past the gates the status is 200, 422 or 500, never a gate's |
| ContactRelay.GatesComeFirst | php/contact.php:30-40 | 405 exactly for a method other than POST, 403 exactly for a POST without the marker, and neither sends mail |
| ContactRelay.ResponseReadsOnlyItsFields | php/contact.php:30-86 | two requests that agree on whether the method is POST, whether the marker header passes, the five text fields, the presence of `rodo` and whether the honeypot is empty get the same response, whatever other fields they carry |
| ContactRelay.HoneypotWins | php/contact.php:75-80 | a filled honeypot gets a 200 success and no mail, even when rules are broken |
| ContactRelay.RejectionTextNamesRule | php/contact.php:82-85 | the 422 message holds the text of every reported rule whole |
| ContactRelay.UnprocessableNamesEveryBrokenRule | php/contact.php:57-86 | a broken rule gives 422, no mail, and a rejection that reports that rule |
| ContactRelay.SendOutcomeDecides | php/contact.php:130-170 | after validation, the notification goes to the office first; status 200 iff `mail()` accepted it, 500 otherwise; the auto-reply is attempted iff it was accepted |
| ContactRelay.ConsentIsPresence | php/contact.php:55 | the consent error is reported exactly when the `rodo` key is absent, whatever its value |
| ContactRelay.LengthCountsEscapedText | php/contact.php:47-59 | the length rules see escaped text: a name "'" becomes six characters and passes the two-character minimum |
| ContactRelay.AllFourRulesBroken | php/contact.php:57-86 | a submission breaking all four rules gets 422 with all four reasons, in order, and no mail |

## Left out

- DOM effects outside the modelled state are not modelled: `scrollIntoView`, class names, inline colours, tooltip text and the feedback element's class. The same goes for the "focused" class on form groups (js/main.js:308-315), the current year and the hero's "loaded" class.
- Smooth scrolling to anchors (js/main.js:140-159) and the back-to-top click (js/main.js:164-168) are not modelled. They animate the scroll position from layout values the model does not have.
- Reveal geometry is not modelled: the 10 % threshold, the -50 px root margin and the per-element `data-delay`. Delay parsing and the timer are not modelled either. An element counts as revealed when its reveal is scheduled.
- Timing and concurrency are not modelled: the 8-second auto-hide is a count of pending timers with no clock, and the `await` is a split between `BeginSubmit` and `FinishSubmit`.
- Several routines are parameters rather than part of the model:
  - `fetch` and `response.json()` become a `NetOutcome` value;
  - `strip_tags` and `filter_var(…, FILTER_VALIDATE_EMAIL)` become function parameters;
  - `mail()` becomes the `sent` flag.
- `date()`, `$_SERVER['REMOTE_ADDR']`, `HTTP_HOST`, the mail subjects, bodies and headers, the CORS and content-type headers and `json_encode` are not modelled. The notification keeps the field values it shows.
- Invalid UTF-8 input to `htmlspecialchars`, which returns "" for it, is not modelled. Strings are sequences of characters.
- The auto-reply's own `mail()` result is not modelled. The script does not read it.
- ContactFormUi.ContactForm.PhoneInput: the caret is not clamped to the field and a missing `selectionStart` is not modelled. The caret is an unbounded integer.
- PageChrome.Chrome.HandleScroll: `scrollY`, `offsetTop` and `offsetHeight` are integers. Fractional scroll positions are not modelled.
- NameInput.ToUpper: only the letters of the name filter's alphabet are upper-cased. The name handlers only ever see that alphabet after input filtering, but a value set without an input event could hold other letters.
- ContactRelay.XhrMarkedChars: PHP `strtolower` is taken as ASCII-only, as in PHP 8.2 and later, where it no longer depends on the locale.
- ContactRelay.AllFourRulesBroken: stated on the sanitised submission rather than the literal request (name "J", e-mail "bad", message "short", no `rodo`). Sanitising those values changes nothing when `strip_tags` leaves them alone.
- NameInput.BlurName: uses the capitalisation the comment at js/main.js:436 announces (`CapitaliseWords`), not the `\b`-based rule of js/main.js:441. The code's result is `BlurNameAsWritten`; `BlurNameAgreesWithoutPolish` proves the two equal for names without Polish letters. They differ for names with them, as "## Findings" shows.
- ContactFormUi.ContactForm.NameBlur: writes `BlurName`, so for a name with Polish letters the new value differs from what the code writes, as under NameInput.BlurName.
- POST values are modelled as strings only. PHP also accepts array values: an array value for any of the five sanitised fields (name, email, phone, service, message) makes the call to `sanitize`, whose parameter is declared `string` (php/contact.php:45), throw a TypeError, and the script ends with a 500. A `website[]=x` value counts as a filled honeypot. Neither is modelled.
- ContactFormUi.Fields has no `website` field. `new FormData(contactForm)` at js/main.js:246 sends the hidden honeypot input too, but it is empty for a human sender and the client code never reads it.
- ContactFormUi.ContactForm.MessageInput: the `maxlength` of 1000 that js/main.js:480 sets on the textarea is not modelled. The message may have any length, so the counter may show more than "1000 / 1000".
- ContactFormUi.ContactForm.FinishSubmit: `form.reset()` restores the markup's defaults, which are taken to be empty fields and an unchecked consent box. The character counter is not reset, as in the source.
- The page is assumed to have the navigation, hamburger and overlay whenever the navigation handlers run. The script dereferences them without a check.

## Findings

| source | as written | input that shows it | evidently intended | confidence | as-written member | corrected member |
|---|---|---|---|---|---|---|
| js/main.js:441 | `/\b\p{L}/gu` capitalises a letter after an ASCII word boundary; `\b` ignores Polish letters even with the `u` flag | "łukasz" becomes "łUkasz"; "ał" becomes "AŁ" | capitalise the first letter of each word, Polish letters included: "Łukasz", "Ał" | high, not executed | NameInput.CapitaliseAsWrittenMissesPolish | NameInput.CapitaliseWordsPolish |
