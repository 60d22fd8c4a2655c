/** `validateContactData`: five independent field checks, each reporting
    the message of the first rule its field fails.

    For every field, `…Error` gives the message the field earns (its rules
    in the order they are tested) and `…Ok` says directly, as one
    conjunction, what an acceptable value is; lemmas tie the two together
    and pin down the order of the rules. The validator itself is the
    sequence of `if … elseif …` assignments into an error map, proved to
    report exactly the message each field earns. */
module ContactValidation {
  import opened Wrappers
  import opened PhpStrings

  /** The decoded request payload: field name to submitted text. */
  type Payload = map<string, string>

  /** The five submitted fields the validator checks, in the order it
      checks them. */
  datatype Field = Name | Email | Phone | Service | Message {
    /** The payload key and error-map key of the field. */
    function Key(): string {
      match this
      case Name => "name"
      case Email => "email"
      case Phone => "phone"
      case Service => "service"
      case Message => "message"
    }
  }

  /** The services a visitor may choose, compared case-sensitively. */
  const AllowedServices: seq<string> := [
    "UX/UI Design", "Développement Web", "Applications Mobiles", "E-commerce",
    "Conseil & Stratégie", "Formation", "Autre"
  ]

  // The messages, in the source's wording.
  const NameMissing := "Le nom est obligatoire"
  const NameTooShort := "Le nom doit contenir au moins 2 caractères"
  const NameTooLong := "Le nom ne peut pas dépasser 255 caractères"
  const NameInvalid := "Le nom contient des caractères invalides"
  const EmailMissing := "L'email est obligatoire"
  const EmailInvalid := "Format d'email invalide"
  const EmailTooLong := "L'email ne peut pas dépasser 255 caractères"
  const PhoneInvalid := "Format de téléphone invalide"
  const ServiceMissing := "Veuillez sélectionner un service"
  const ServiceInvalid := "Service invalide"
  const MessageMissing := "Le message est obligatoire"
  const MessageTooShort := "Le message doit contenir au moins 10 caractères"
  const MessageTooLong := "Le message ne peut pas dépasser 2000 caractères"

  /** `$data[key]`, absent when the key is missing. */
  function Lookup(data: Payload, key: string): Option<string> {
    if key in data then Some(data[key]) else None
  }

  // ---------------------------------------------------------------------
  // Character classes of the two regular expressions
  // ---------------------------------------------------------------------

  /** PCRE `\s` without the /u modifier: ASCII whitespace. */
  predicate IsAsciiSpace(c: char) {
    c == ' ' || c == '\t' || c == '\n' || c == '\U{000B}' || c == '\U{000C}' || c == '\r'
  }

  /** PCRE `\s` under /u, where PHP turns on Unicode properties: the
      separators (`\p{Z}`) together with horizontal (`\h`) and vertical
      (`\v`) whitespace. */
  predicate IsUnicodeSpace(c: char) {
    IsAsciiSpace(c) || c == '\U{0085}' || c == '\U{00A0}' || c == '\U{1680}' || c == '\U{180E}'
    || ('\U{2000}' <= c <= '\U{200A}') || c == '\U{2028}' || c == '\U{2029}'
    || c == '\U{202F}' || c == '\U{205F}' || c == '\U{3000}'
  }

  /** One character of `[a-zA-ZÀ-ÿ\s\-']` under /u. */
  predicate IsNameChar(c: char) {
    ('a' <= c <= 'z') || ('A' <= c <= 'Z') || ('\U{00C0}' <= c <= '\U{00FF}')
    || IsUnicodeSpace(c) || c == '-' || c == '\''
  }

  /** `preg_match("/^[a-zA-ZÀ-ÿ\s\-']+$/u", $s)`. The `$` may also match
      before a final newline, which adds nothing here: a newline is itself
      in the class. */
  predicate NameMatches(s: string) {
    |s| > 0 && forall i :: 0 <= i < |s| ==> IsNameChar(s[i])
  }

  /** One character of `[\d\s\-()]` (byte mode: ASCII only). */
  predicate IsPhoneChar(c: char) {
    ('0' <= c <= '9') || IsAsciiSpace(c) || c == '-' || c == '(' || c == ')'
  }

  predicate PhoneRun(b: string) {
    8 <= |b| <= 20 && forall i :: 0 <= i < |b| ==> IsPhoneChar(b[i])
  }

  /** `s` without its leading `+`, if it has one. */
  function Unsigned(s: string): (b: string)
    ensures |b| <= |s|
  {
    if |s| > 0 && s[0] == '+' then s[1..] else s
  }

  /** `preg_match("/^[+]?[\d\s\-()]{8,20}$/", $s)`: an optional `+`, then
      8 to 20 class characters, then the end of the subject or a final
      newline (PCRE's `$` without the D modifier). */
  predicate PhoneMatches(s: string) {
    var b := Unsigned(s);
    PhoneRun(b) || (|b| > 0 && b[|b| - 1] == '\n' && PhoneRun(b[..|b| - 1]))
  }

  // ---------------------------------------------------------------------
  // The message each field earns: its rules, tested in order
  // ---------------------------------------------------------------------

  function NameError(v: Option<string>): Option<string> {
    if Empty(v) then Some(NameMissing)
    else if Utf8Len(v.value) < 2 then Some(NameTooShort)
    else if Utf8Len(v.value) > 255 then Some(NameTooLong)
    else if !NameMatches(v.value) then Some(NameInvalid)
    else None
  }

  /** `emailOk` stands for FILTER_VALIDATE_EMAIL, which is not modelled. */
  function EmailError(v: Option<string>, emailOk: string -> bool): Option<string> {
    if Empty(v) then Some(EmailMissing)
    else if !emailOk(v.value) then Some(EmailInvalid)
    else if Utf8Len(v.value) > 255 then Some(EmailTooLong)
    else None
  }

  function PhoneError(v: Option<string>): Option<string> {
    if !Empty(v) && !PhoneMatches(v.value) then Some(PhoneInvalid) else None
  }

  /** The service is trimmed (an absent one counting as '') before it is
      tested. */
  function ServiceError(v: Option<string>): Option<string> {
    var service := Trim(v.GetOr(""));
    if service == "" then Some(ServiceMissing)
    else if service !in AllowedServices then Some(ServiceInvalid)
    else None
  }

  function MessageError(v: Option<string>): Option<string> {
    if Empty(v) then Some(MessageMissing)
    else if Utf8Len(v.value) < 10 then Some(MessageTooShort)
    else if Utf8Len(v.value) > 2000 then Some(MessageTooLong)
    else None
  }

  /** The message field `f` of the payload earns, if any: it depends on
      that field's value alone. */
  function FieldError(data: Payload, f: Field, emailOk: string -> bool): Option<string> {
    var v := Lookup(data, f.Key());
    match f
    case Name => NameError(v)
    case Email => EmailError(v, emailOk)
    case Phone => PhoneError(v)
    case Service => ServiceError(v)
    case Message => MessageError(v)
  }

  /** `$errors[$f] ?? null`. */
  function Get(errors: map<Field, string>, f: Field): Option<string> {
    if f in errors then Some(errors[f]) else None
  }

  // ---------------------------------------------------------------------
  // What an acceptable value is, field by field
  // ---------------------------------------------------------------------

  predicate NameOk(v: Option<string>) {
    !Empty(v) && 2 <= Utf8Len(v.value) <= 255 && NameMatches(v.value)
  }

  predicate EmailOk(v: Option<string>, emailOk: string -> bool) {
    !Empty(v) && emailOk(v.value) && Utf8Len(v.value) <= 255
  }

  predicate PhoneOk(v: Option<string>) {
    Empty(v) || PhoneMatches(v.value)
  }

  predicate ServiceOk(v: Option<string>) {
    Trim(v.GetOr("")) in AllowedServices
  }

  predicate MessageOk(v: Option<string>) {
    !Empty(v) && 10 <= Utf8Len(v.value) <= 2000
  }

  predicate ValidSubmission(data: Payload, emailOk: string -> bool) {
    && NameOk(Lookup(data, "name"))
    && EmailOk(Lookup(data, "email"), emailOk)
    && PhoneOk(Lookup(data, "phone"))
    && ServiceOk(Lookup(data, "service"))
    && MessageOk(Lookup(data, "message"))
  }

  /** Each field earns no message exactly when its value is acceptable. */
  lemma FieldErrorNoneIff(data: Payload, emailOk: string -> bool)
    ensures FieldError(data, Name, emailOk).None? <==> NameOk(Lookup(data, "name"))
    ensures FieldError(data, Email, emailOk).None? <==> EmailOk(Lookup(data, "email"), emailOk)
    ensures FieldError(data, Phone, emailOk).None? <==> PhoneOk(Lookup(data, "phone"))
    ensures FieldError(data, Service, emailOk).None? <==> ServiceOk(Lookup(data, "service"))
    ensures FieldError(data, Message, emailOk).None? <==> MessageOk(Lookup(data, "message"))
  {
    assert "" !in AllowedServices;
  }

  // ---------------------------------------------------------------------
  // The validator
  // ---------------------------------------------------------------------

  /** `errors` after a field's block has run: the field's message stored
      under the field when it earned one, nothing else touched. */
  function Recorded(errors: map<Field, string>, f: Field, e: Option<string>): (r: map<Field, string>)
    ensures Get(r, f) == (if e.Some? then e else Get(errors, f))
    ensures forall g :: g != f ==> Get(r, g) == Get(errors, g)
  {
    if e.Some? then errors[f := e.value] else errors
  }

  /** The name block of `validateContactData`. */
  method CheckName(data: Payload, errors: map<Field, string>) returns (errors': map<Field, string>)
    ensures errors' == Recorded(errors, Name, NameError(Lookup(data, "name")))
  {
    errors' := errors;
    var name := Lookup(data, "name");
    if Empty(name) {
      errors' := errors'[Name := NameMissing];
    } else if Utf8Len(name.value) < 2 {
      errors' := errors'[Name := NameTooShort];
    } else if Utf8Len(name.value) > 255 {
      errors' := errors'[Name := NameTooLong];
    } else if !NameMatches(name.value) {
      errors' := errors'[Name := NameInvalid];
    }
  }

  /** The email block of `validateContactData`. */
  method CheckEmail(data: Payload, emailOk: string -> bool, errors: map<Field, string>)
    returns (errors': map<Field, string>)
    ensures errors' == Recorded(errors, Email, EmailError(Lookup(data, "email"), emailOk))
  {
    errors' := errors;
    var email := Lookup(data, "email");
    if Empty(email) {
      errors' := errors'[Email := EmailMissing];
    } else if !emailOk(email.value) {
      errors' := errors'[Email := EmailInvalid];
    } else if Utf8Len(email.value) > 255 {
      errors' := errors'[Email := EmailTooLong];
    }
  }

  /** The phone block of `validateContactData`: only a present, non-empty
      phone is tested. */
  method CheckPhone(data: Payload, errors: map<Field, string>) returns (errors': map<Field, string>)
    ensures errors' == Recorded(errors, Phone, PhoneError(Lookup(data, "phone")))
  {
    errors' := errors;
    var phone := Lookup(data, "phone");
    if !Empty(phone) {
      if !PhoneMatches(phone.value) {
        errors' := errors'[Phone := PhoneInvalid];
      }
    }
  }

  /** The service block of `validateContactData`. */
  method CheckService(data: Payload, errors: map<Field, string>) returns (errors': map<Field, string>)
    ensures errors' == Recorded(errors, Service, ServiceError(Lookup(data, "service")))
  {
    errors' := errors;
    var service := if "service" in data then Trim(data["service"]) else "";
    if service == "" {
      errors' := errors'[Service := ServiceMissing];
    } else if service !in AllowedServices {
      errors' := errors'[Service := ServiceInvalid];
    }
  }

  /** The message block of `validateContactData`. */
  method CheckMessage(data: Payload, errors: map<Field, string>) returns (errors': map<Field, string>)
    ensures errors' == Recorded(errors, Message, MessageError(Lookup(data, "message")))
  {
    errors' := errors;
    var message := Lookup(data, "message");
    if Empty(message) {
      errors' := errors'[Message := MessageMissing];
    } else if Utf8Len(message.value) < 10 {
      errors' := errors'[Message := MessageTooShort];
    } else if Utf8Len(message.value) > 2000 {
      errors' := errors'[Message := MessageTooLong];
    }
  }

  /** The error map built from the messages the five fields earned, in
      the order the blocks run. */
  function Assembled(name: Option<string>, email: Option<string>, phone: Option<string>,
                     service: Option<string>, message: Option<string>): (r: map<Field, string>)
    ensures Get(r, Name) == name && Get(r, Email) == email && Get(r, Phone) == phone
    ensures Get(r, Service) == service && Get(r, Message) == message
    ensures r == map[] <==> name.None? && email.None? && phone.None? && service.None? && message.None?
  {
    Recorded(Recorded(Recorded(Recorded(Recorded(map[], Name, name), Email, email), Phone, phone),
                      Service, service), Message, message)
  }

  /** `validateContactData($data)`: every field is checked, none stops the
      others, and each failing field gets exactly one message, that of its
      first failing rule; the map is empty exactly for an acceptable
      submission. */
  method ValidateContactData(data: Payload, emailOk: string -> bool)
    returns (errors: map<Field, string>)
    ensures forall f :: Get(errors, f) == FieldError(data, f, emailOk)
    ensures errors == map[] <==> ValidSubmission(data, emailOk)
  {
    errors := CheckName(data, map[]);
    errors := CheckEmail(data, emailOk, errors);
    errors := CheckPhone(data, errors);
    errors := CheckService(data, errors);
    errors := CheckMessage(data, errors);
    assert errors == Assembled(FieldError(data, Name, emailOk), FieldError(data, Email, emailOk),
      FieldError(data, Phone, emailOk), FieldError(data, Service, emailOk), FieldError(data, Message, emailOk));
    forall f ensures Get(errors, f) == FieldError(data, f, emailOk) {
      match f
      case Name =>
      case Email =>
      case Phone =>
      case Service =>
      case Message =>
    }
    FieldErrorNoneIff(data, emailOk);
  }
}
