# Contact form handler of the LUMIA TECHNOLOGIE site, in Dafny

`contact.php` answers the site's contact form. It lets a CORS preflight
through and refuses every method except POST. It reads the submitted
fields from the decoded JSON body, or from the form data when the decoded
body is empty or falsy (an empty object `{}` included). Then:

- it validates the five fields (name, email, phone, service, message);
- an invalid submission gets a JSON answer listing one message per
  failing field;
- a valid submission is trimmed and HTML-escaped;
- the escaped data is mailed as a plain-text message and logged as a
  JSON line;
- the answer reports whether the mail went out.

The model covers that path:

- `php_strings.dfy` (module `PhpStrings`): the PHP string built-ins the
  script relies on:
  - `strlen` as a UTF-8 byte count, `trim`, `empty`;
  - `htmlspecialchars` with `ENT_QUOTES`, with an unescaping partner;
  - `FILTER_SANITIZE_EMAIL`.
- `validation.dfy` (module `ContactValidation`): the two regular
  expressions, the message each field earns, an independent "what is
  acceptable" predicate per field, and `validateContactData`. The
  validator is an imperative method that fills the error map block by
  block, proved to report exactly the message each field earns.
- `validation_facts.dfy` (module `ContactValidationFacts`): consequences
  of the rules:
  - `"0"` counts as missing;
  - lengths count bytes;
  - the format of an email is tested before its length;
  - an exact description of the accepted phone numbers;
  - how the service is matched.
- `sanitizer.dfy` (module `ContactSanitizer`): `sanitizeContactData` as a
  pure function, with what it guarantees and the fact that it is not
  idempotent.
- `mailer.dfy` (module `ContactMail`): the body built by `.=` appends, as
  a method proved equal to the template joined line by line; the headers;
  and lemmas on what the body and headers contain.
- `json.dfy` (module `JsonResponses`): the payload `jsonResponse` encodes.
- `handler.dfy` (module `ContactHandler`): the request flow. It returns
  the answer and the trace of outside effects (the `mail()` call, then
  the appended log line).
- `wrappers.dfy` (module `Wrappers`): `Option`.

Inputs that come from outside the script are parameters:

- the request method and `$_SERVER` entries;
- the decoded JSON body and `$_POST`;
- the clock readings;
- `phpversion()`;
- the result of `mail()`;
- the verdict of `FILTER_VALIDATE_EMAIL`, as a predicate `emailOk`.

Strings are sequences of Unicode code points. `strlen` is modelled as the
length of their UTF-8 encoding.

Four behaviours of the code a reader may not expect:

- A phone made only of white space is not treated as absent. PHP's
  `empty` is false for it and the pattern counts white space as a phone
  character. So 8 to 20 spaces pass, and 1 to 7 spaces are refused
  (`BlankPhone`).
- Sanitizing is not idempotent. A second pass escapes again the `&` of
  the entities the first pass produced (`CleanTextNotIdempotent`,
  `CleanTextIdempotentIff`).
- A service with surrounding white space is accepted, because it is
  trimmed before it is compared (`ServiceToleratesPadding`).
- Only the four escaped fields lose their markup. The email is filtered
  (not escaped) and the IP and user agent are copied unchanged.

## Model

| member | source | states |
|---|---|---|
| `JsonResponses.JsonResponse` | contact.php:14-22 | The payload has exactly the keys `success`, `message`, `timestamp`, plus `data` exactly when data is given, each holding the given value. |
| `PhpStrings.Utf8Len` | contact.php:39-41 | `strlen` counts between one and four bytes per character. |
| `PhpStrings.Utf8LenAscii` | contact.php:39-41 | The byte count equals the character count exactly when every character is ASCII. |
| `PhpStrings.Empty` | contact.php:37 | PHP `empty($data[key])`: true for an absent key, '' and "0" (also used at lines 48, 57 and 73). |
| `PhpStrings.Trim` | contact.php:65 | `trim` returns a text no longer than its input, with no trim character at either end. |
| `PhpStrings.TrimStripsEnds` | contact.php:65 | `trim` keeps an infix and removes only trim characters (space, tab, LF, CR, NUL, VT) around it. |
| `PhpStrings.TrimFixesTrimmed` | contact.php:65 | A text with no trim character at its ends is left unchanged. |
| `PhpStrings.TrimIdempotent` | contact.php:87-91 | Trimming twice equals trimming once. |
| `PhpStrings.TrimBlank` | contact.php:65-66 | A text made only of trim characters trims to ''. |
| `PhpStrings.TrimPadded` | contact.php:65 | Padding a trimmed non-empty text with trim characters does not change its trim. |
| `PhpStrings.HtmlEscape` | contact.php:87 | `htmlspecialchars(…, ENT_QUOTES)` leaves no `<`, `>`, `"` or `'` and never shortens the text. |
| `PhpStrings.EscapeAppend` | contact.php:87 | Escaping works character by character: escaping a concatenation concatenates the escapes. |
| `PhpStrings.EscapeEnds` | contact.php:87 | The escaped text starts with the first character or `&`, and ends with the last character or `;`. |
| `PhpStrings.EscapeKeepsTrimmed` | contact.php:87 | Escaping a trimmed text gives a trimmed text. |
| `PhpStrings.UnescapeEscape` | contact.php:87 | Unescaping the escaped text gives the original back, so escaping loses nothing. |
| `PhpStrings.EscapeFixedIff` | contact.php:87 | Escaping leaves a text unchanged if and only if it has none of `&`, `"`, `'`, `<`, `>`. |
| `PhpStrings.EscapeKeepsAmpersand` | contact.php:87 | A text with a special character escapes to a text containing `&`. |
| `PhpStrings.EscapeIdempotentIff` | contact.php:87 | Escaping twice equals escaping once if and only if the text has no special character. |
| `PhpStrings.SanitizeEmail` | contact.php:88 | FILTER_SANITIZE_EMAIL keeps only allowed address characters, taken in order from its input. |
| `PhpStrings.SanitizeEmailFixedIff` | contact.php:88 | The filter leaves a text unchanged if and only if all its characters are allowed. |
| `PhpStrings.SubsequenceShorter` | contact.php:88 | What the filter keeps is never longer than its input. |
| `PhpStrings.SanitizeEmailIdempotent` | contact.php:88 | Filtering twice equals filtering once. |
| `ContactValidation.NameMatches` | contact.php:43 | The name pattern under /u: a non-empty text of ASCII letters, U+00C0 to U+00FF, Unicode white space, `-` or `'`. |
| `ContactValidation.FieldErrorNoneIff` | contact.php:36-79 | Each field earns no message exactly when it meets all of its rules, stated as one conjunction per field. |
| `ContactValidation.Recorded` | contact.php:34-79 | Recording a field's message sets only that field's entry, and only when there is a message. |
| `ContactValidation.CheckName` | contact.php:36-45 | The name block records the first failed rule: missing (`empty`), under 2 bytes, over 255 bytes, then the character class. |
| `ContactValidation.CheckEmail` | contact.php:47-54 | The email block records missing, then format (FILTER_VALIDATE_EMAIL), then over 255 bytes. |
| `ContactValidation.CheckPhone` | contact.php:56-61 | The phone block records an error only for a non-empty phone that does not match the pattern. |
| `ContactValidation.CheckService` | contact.php:63-70 | The service block trims the value, then records "not selected" for '' and "invalid" for anything outside the seven services. |
| `ContactValidation.CheckMessage` | contact.php:72-79 | The message block records missing, under 10 bytes, then over 2000 bytes, with no trim. |
| `ContactValidation.Assembled` | contact.php:34-81 | The error map holds each field's message under that field, and is empty exactly when no field has a message. |
| `ContactValidation.ValidateContactData` | contact.php:33-82 | All five fields are checked. Each key holds exactly the message of its field's first failing rule. The map is empty exactly for a valid submission. |
| `ContactValidationFacts.ZeroIsMissing` | contact.php:37-38 | `"0"` is reported as a missing name, email and message, and makes the phone unchecked, like an absent or empty phone. |
| `ContactValidationFacts.NameLengthCountsBytes` | contact.php:39-43 | "A" is too short, but the one-letter name "É" (two bytes) is accepted. |
| `ContactValidationFacts.EmailFormatBeforeLength` | contact.php:48-53 | A non-empty malformed address is reported as malformed, whatever its length. |
| `ContactValidationFacts.PhoneMatchesIff` | contact.php:58 | The phone pattern accepts exactly an optional `+`, 8 to 20 digits, white space, `-`, `(` or `)`, then possibly one final newline. |
| `ContactValidationFacts.MatchHasShape` | contact.php:58 | Every matching phone splits into sign, run and optional final newline. |
| `ContactValidationFacts.ShapeMatches` | contact.php:58 | Every sign, run and optional final newline put together match. |
| `ContactValidationFacts.PhoneNewlineAllowance` | contact.php:58 | Because `$` matches before a final newline, a run followed by a newline passes, with or without `+` (up to 22 characters). |
| `ContactValidationFacts.PhoneLengthBound` | contact.php:58 | No phone of more than 22 characters matches. |
| `ContactValidationFacts.BlankPhone` | contact.php:57-58 | A phone of 8 to 20 spaces passes, and one of 1 to 7 spaces is refused. |
| `ContactValidationFacts.ServiceToleratesPadding` | contact.php:64-68 | A listed service surrounded by trim characters is accepted. |
| `ContactValidationFacts.BlankServiceIsMissing` | contact.php:65-67 | An absent service, or one that trims to '', is reported as not selected. |
| `ContactValidationFacts.ServiceIsCaseSensitive` | contact.php:68 | "formation" is refused as invalid, while "Formation" is accepted. |
| `ContactValidationFacts.FieldErrorIsLocal` | contact.php:36-79 | A field's message depends only on that field's own entry. |
| `ContactSanitizer.CleanText` | contact.php:87 | The cleaned text has no markup, unescapes to the trimmed input, and is empty exactly when the trimmed input is. |
| `ContactSanitizer.CleanEmail` | contact.php:88 | The cleaned email has only allowed characters, taken in order from the trimmed input, and is the trimmed input itself when that has only allowed characters. |
| `ContactSanitizer.SanitizeContactData` | contact.php:85-95 | Name, phone, service and message are each `CleanText` of their entry, so they have no markup and unescape to the trimmed input. The email is `CleanEmail` of its entry. The email is filtered from the trimmed input. A missing phone becomes ''. A missing IP or user agent becomes "unknown". |
| `ContactSanitizer.CleanTextIdempotentIff` | contact.php:87-91 | Cleaning twice equals cleaning once if and only if the trimmed text has no special character. |
| `ContactSanitizer.CleanTextNotIdempotent` | contact.php:87-91 | Cleaning "&" twice differs from cleaning it once. |
| `ContactSanitizer.BlankPassesAndCleansToEmpty` | contact.php:37-45 | A name of 2 to 255 spaces and a message of 10 to 2000 spaces pass validation (the name rules here, the message rules at lines 73-79), yet sanitize to '' (lines 87 and 91). |
| `ContactSanitizer.AcceptedServiceIsListed` | contact.php:68 | For a valid submission, the sanitized service unescapes to one of the seven listed services. |
| `ContactMail.Repeat` | contact.php:137-139 | `str_repeat(c, n)` has length n and holds only c. |
| `ContactMail.Rule` | contact.php:137-139 | The ruler is 50 dashes. |
| `ContactMail.PhoneShown` | contact.php:133 | `?:` shows "Non renseigné" for '' and "0", and the phone otherwise, so the phone line never shows '' or "0". |
| `ContactMail.JoinLinesAppend` | contact.php:126-141 | Joining lines is compositional over concatenation. |
| `ContactMail.ComposeBody` | contact.php:126-141 | The body built by the successive `.=` appends is the template lines, each followed by a newline. |
| `ContactMail.JoinLinesContainsRun` | contact.php:126-141 | Any run of consecutive lines appears, joined, in the joined text. |
| `ContactMail.ContainsLine` | contact.php:126-141 | Every line appears in the joined text followed by a newline. |
| `ContactMail.BodyFramesMessage` | contact.php:137-139 | The body contains the sanitized message on its own line between two 50-dash rulers. |
| `ContactMail.BodyShowsPhone` | contact.php:133 | The body has the line "Téléphone: Non renseigné" when the sanitized phone is '' or "0", and "Téléphone: " followed by the phone otherwise. |
| `ContactMail.PhoneLine` | contact.php:133 | The eighth body line is the phone line. |
| `ContactMail.ReplyToStaysOneLine` | contact.php:144-152 | The imploded headers contain `Reply-To: ` followed by the sanitized email, between two CRLFs. That email has no CR or LF, so it cannot add a header line. |
| `ContactMail.ImplodeSecond` | contact.php:155 | In a `"\r\n"`-imploded list of three or more lines, the second line sits between two separators. |
| `ContactMail.Implode` | contact.php:155 | `implode("\r\n", …)`: '' for no lines; the first line opens the text, followed by CRLF when more lines come. |
| `ContactMail.ComposeContactEmail` | contact.php:119-155 | The mail goes to contact@lumiatechnologie.com with the fixed subject. Its body is the template over the sanitized data. Its headers are the seven lines, with `Reply-To` set to the sanitized email. |
| `ContactHandler.ReceivedPayload` | contact.php:170-175 | The decoded body is used unless it is absent or empty, in which case `$_POST` is; the result is empty exactly when both are. |
| `ContactHandler.ErrorsObject` | contact.php:185 | `data.errors` has exactly the keys of the fields with an error, and holds each field's message under its key. |
| `ContactHandler.KeyInjective` | contact.php:37-79 | The five fields use five distinct keys. |
| `ContactHandler.ReportsErrorsObject` | contact.php:183-185 | The converted error map holds only field keys and reports, under each field's key, exactly the message that field earns. |
| `ContactHandler.HandleRequest` | contact.php:9-30 | OPTIONS gets an empty answer. Any other non-POST method gets `success=false` with `allowed_methods = ["POST"]`. The payload is the decoded JSON body, or `$_POST` when that is falsy, and an empty payload gets "Aucune donnée reçue" (lines 170-180). None of these mails or logs. Any other POST is answered as `HandleSubmission` states. |
| `ContactHandler.HandleSubmission` | contact.php:183-204 | An invalid submission gets `success=false` and `data.errors` with each failing field's message, with no mail and no log. A valid one is sanitized, mailed once, then logged once, and the answer succeeds exactly when the mail went out. |
| `ContactHandler.SendAndLog` | contact.php:189-204 | Exactly one mail attempt and then one log line, whose success flag and message follow the mail's outcome, and the answer's `success` equals that outcome. |

## Left out

- The CORS and content-type headers, `http_response_code`, `echo` and
  `exit()` (contact.php:3-6, 10-11, 23-24). An exit is a `return`, and the
  answer is the payload before `json_encode`. JSON key order and encoding
  are not modelled.
- `json_decode` and `file_get_contents('php://input')`. The decoded body is
  given as `None` or a map of strings. A body that decodes to a
  non-object, or to fields that are not strings, is not modelled.
- The `catch (Exception)` path (contact.php:206-211). The foreign calls
  that could throw are not part of this model.
- The `mail()` transport and `error_log` (contact.php:155-162). The mail's
  outcome is a boolean input. `phpversion()` is a parameter.
- Log file mechanics (contact.php:107-115): the directory check, `mkdir`,
  and the locked append. The log line is an event with its path and
  record.
- `date()` is a parameter. One reading of the clock serves every `date('c')`
  call of a request.
- The base64 encoding of the subject (contact.php:123). The subject is kept
  as its plain text.
- The internals of `FILTER_VALIDATE_EMAIL`, an uninterpreted predicate.
  `FILTER_SANITIZE_EMAIL` is modelled by its allowed-character set only.
- Invalid UTF-8 input. Strings are sequences of code points.
- `JS/script.js`, the page's DOM and UI code. It is not part of this model.
- `ContactMail.ReplyToStaysOneLine` does not count the header lines, so
  it does not prove that exactly seven header lines are sent.
- `ContactValidation.ValidateContactData` runs each field's
  `if … elseif` block as its own method (`CheckName`, …). This keeps the
  order of the five blocks and every branch of each.
