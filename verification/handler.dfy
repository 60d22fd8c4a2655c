/** The request flow of contact.php (lines 9-30 and 168-211): an OPTIONS
    preflight ends at once, any other method but POST is refused, then
    the payload must be non-empty and valid before it is sanitized, mailed
    and logged.

    Each `jsonResponse(…)` ends the script, so it is a `return` here.
    What the script does to the outside world is returned as a trace of
    events, in order: the `mail()` call and the log line appended. The
    outcome of `mail()`, the clock and the server variables are inputs. */
module ContactHandler {
  import opened Wrappers
  import opened PhpStrings
  import opened JsonResponses
  import opened ContactValidation
  import opened ContactSanitizer
  import opened ContactMail

  /** The `$_SERVER` entries the script reads. */
  datatype Server = Server(requestMethod: string, remoteAddr: Option<string>, userAgent: Option<string>)

  /** `date('c')`, `date('Y-m-d')` and `date('d/m/Y H:i:s')` at the time
      of the request. */
  datatype Clock = Clock(iso: string, day: string, display: string)

  /** The JSON line `logContact` appends. */
  datatype LogEntry = LogEntry(timestamp: string, ip: string, email: string, success: bool, message: string)

  datatype Event =
    | MailAttempt(mail: Mail)
    | LogAppend(path: string, entry: LogEntry)

  /** An empty 200 answer to a preflight, or a JSON object. */
  datatype Response = Preflight | Reply(payload: map<string, Json>)

  const MethodNotAllowed := "Méthode non autorisée"
  const NoDataReceived := "Aucune donnée reçue"
  const InvalidData := "Données invalides"
  const LogSent := "Message envoyé avec succès"
  const LogFailed := "Échec d'envoi de l'email"
  const ReplySent := "✅ Votre message a été envoyé avec succès ! Nous vous recontacterons dans les plus brefs délais."
  const ReplyFailed := "❌ Une erreur s'est produite lors de l'envoi. Veuillez réessayer ou nous contacter directement par email."

  /** The `data` of the answer to a method other than POST. */
  function AllowedMethods(): Json {
    JObject(map["allowed_methods" := JArray([JString("POST")])])
  }

  /** `'logs/contacts_' . date('Y-m-d') . '.log'`. */
  function LogPath(day: string): string {
    "logs/contacts_" + day + ".log"
  }

  /** The payload the script validates: the decoded JSON body, or `$_POST`
      when decoding gave nothing or an empty array. */
  function ReceivedPayload(json: Option<Payload>, post: Payload): (r: Payload)
    ensures r == map[] <==> (json.None? || json.value == map[]) && post == map[]
    ensures (json.Some? && r == json.value) || r == post
    ensures json.Some? && json.value != map[] ==> r == json.value
  {
    if json.Some? && json.value != map[] then json.value else post
  }

  /** The error map as the JSON object `data.errors`. */
  function ErrorsObject(errors: map<Field, string>): (o: map<string, Json>)
    ensures forall f: Field :: f.Key() in o <==> f in errors
    ensures forall f :: f in errors ==> o[f.Key()] == JString(errors[f])
    ensures o.Keys == set f | f in errors :: f.Key()
  {
    KeyInjective();
    map f | f in errors :: f.Key() := JString(errors[f])
  }

  /** Distinct fields have distinct keys. */
  lemma KeyInjective()
    ensures forall f: Field, g: Field :: f.Key() == g.Key() ==> f == g
  {
    forall f: Field, g: Field | f.Key() == g.Key() ensures f == g {
      match f
      case Name => {} case Email => {} case Phone => {} case Service => {} case Message => {}
    }
  }

  /** `o` holds only field keys, and reports under each field's key
      exactly the message that field earns. */
  predicate ReportsFieldErrors(o: map<string, Json>, data: Payload, emailOk: string -> bool) {
    && (forall k :: k in o ==> exists f: Field :: f.Key() == k)
    && forall f: Field ::
      && (f.Key() in o <==> FieldError(data, f, emailOk).Some?)
      && (f.Key() in o ==> o[f.Key()] == JString(FieldError(data, f, emailOk).value))
  }

  /** The answer to a submission that fails validation. */
  predicate RejectsInvalid(payload: map<string, Json>, data: Payload, emailOk: string -> bool, clock: Clock) {
    && payload.Keys == {"success", "message", "timestamp", "data"}
    && payload["success"] == JBool(false) && payload["message"] == JString(InvalidData)
    && payload["timestamp"] == JString(clock.iso)
    && payload["data"].JObject? && payload["data"].fields.Keys == {"errors"}
    && payload["data"].fields["errors"].JObject?
    && ReportsFieldErrors(payload["data"].fields["errors"].fields, data, emailOk)
  }

  /** The two events of an accepted submission: the mail built from the
      sanitized data, then the log line recording whether it went out. */
  function Delivery(c: CleanData, clock: Clock, phpVersion: string, delivered: bool): seq<Event> {
    [ MailAttempt(Mail(Recipient, SubjectText, JoinLines(BodyLines(c, clock.display)),
                       Implode(MailHeaders(c.email, phpVersion)))),
      LogAppend(LogPath(clock.day),
                LogEntry(clock.iso, c.ip, c.email, delivered, if delivered then LogSent else LogFailed)) ]
  }

  /** One request, from `$_SERVER["REQUEST_METHOD"]` to the JSON answer.
      `json` is what `json_decode` made of the body (None when it gave no
      array), `emailOk` stands for FILTER_VALIDATE_EMAIL and `delivered`
      is what `mail()` returns. */
  method HandleRequest(server: Server, clock: Clock, json: Option<Payload>, post: Payload,
                       emailOk: string -> bool, phpVersion: string, delivered: bool)
    returns (resp: Response, events: seq<Event>)
    // Preflight: an empty answer, nothing else.
    ensures server.requestMethod == "OPTIONS" ==> resp == Preflight && events == []
    // Any other method but POST.
    ensures server.requestMethod != "OPTIONS" && server.requestMethod != "POST" ==>
      resp == Reply(JsonResponse(false, MethodNotAllowed, clock.iso, Some(AllowedMethods()))) && events == []
    // POST without data.
    ensures server.requestMethod == "POST" && ReceivedPayload(json, post) == map[] ==>
      resp == Reply(JsonResponse(false, NoDataReceived, clock.iso, None)) && events == []
    // POST with data: see HandleSubmission.
    ensures server.requestMethod == "POST" && ReceivedPayload(json, post) != map[] ==>
      Answers(resp, events, ReceivedPayload(json, post), server, clock, emailOk, phpVersion, delivered)
  {
    events := [];
    if server.requestMethod == "OPTIONS" {
      return Preflight, events;
    }
    if server.requestMethod != "POST" {
      return Reply(JsonResponse(false, MethodNotAllowed, clock.iso, Some(AllowedMethods()))), events;
    }

    var rawData := if json.Some? then json.value else map[];
    if rawData == map[] {
      rawData := post;
    }
    if rawData == map[] {
      return Reply(JsonResponse(false, NoDataReceived, clock.iso, None)), events;
    }
    resp, events := HandleSubmission(rawData, server, clock, emailOk, phpVersion, delivered);
  }

  /** What the script answers and does for a non-empty POST payload: a
      submission that fails validation gets its errors back and causes
      nothing else; an accepted one is mailed once, then logged once, and
      the answer succeeds exactly when the mail went out. */
  ghost predicate Answers(resp: Response, events: seq<Event>, data: Payload, server: Server, clock: Clock,
                          emailOk: string -> bool, phpVersion: string, delivered: bool)
  {
    if !ValidSubmission(data, emailOk) then
      resp.Reply? && RejectsInvalid(resp.payload, data, emailOk, clock) && events == []
    else
      && events == Delivery(SanitizeContactData(data, server.remoteAddr, server.userAgent), clock, phpVersion, delivered)
      && resp == Reply(JsonResponse(delivered, if delivered then ReplySent else ReplyFailed, clock.iso, None))
  }

  /** The part of the request flow after the payload is known to be
      non-empty: validation, then sanitizing, mailing and logging. */
  method HandleSubmission(rawData: Payload, server: Server, clock: Clock,
                          emailOk: string -> bool, phpVersion: string, delivered: bool)
    returns (resp: Response, events: seq<Event>)
    ensures Answers(resp, events, rawData, server, clock, emailOk, phpVersion, delivered)
  {
    events := [];
    var errors := ValidateContactData(rawData, emailOk);
    if errors != map[] {
      var payload := JsonResponse(false, InvalidData, clock.iso, Some(JObject(map["errors" := JObject(ErrorsObject(errors))])));
      ReportsErrorsObject(errors, rawData, emailOk);
      return Reply(payload), events;
    }

    var cleanData := SanitizeContactData(rawData, server.remoteAddr, server.userAgent);
    resp, events := SendAndLog(cleanData, clock, phpVersion, delivered);
  }

  /** Mailing the sanitized data and logging the outcome. */
  method SendAndLog(cleanData: CleanData, clock: Clock, phpVersion: string, delivered: bool)
    returns (resp: Response, events: seq<Event>)
    ensures events == Delivery(cleanData, clock, phpVersion, delivered)
    ensures resp == Reply(JsonResponse(delivered, if delivered then ReplySent else ReplyFailed, clock.iso, None))
  {
    events := [];
    var mail := ComposeContactEmail(cleanData, clock.display, phpVersion);
    events := events + [MailAttempt(mail)];
    var emailSent := delivered;

    if emailSent {
      events := events + [LogAppend(LogPath(clock.day), LogEntry(clock.iso, cleanData.ip, cleanData.email, true, LogSent))];
      resp := Reply(JsonResponse(true, ReplySent, clock.iso, None));
    } else {
      events := events + [LogAppend(LogPath(clock.day), LogEntry(clock.iso, cleanData.ip, cleanData.email, false, LogFailed))];
      resp := Reply(JsonResponse(false, ReplyFailed, clock.iso, None));
    }
  }

  /** The converted error map reports each field's message under its key. */
  lemma ReportsErrorsObject(errors: map<Field, string>, data: Payload, emailOk: string -> bool)
    requires forall f :: Get(errors, f) == FieldError(data, f, emailOk)
    ensures ReportsFieldErrors(ErrorsObject(errors), data, emailOk)
  {
    var o := ErrorsObject(errors);
    forall f: Field
      ensures f.Key() in o <==> FieldError(data, f, emailOk).Some?
      ensures f.Key() in o ==> o[f.Key()] == JString(FieldError(data, f, emailOk).value)
    {
      assert Get(errors, f) == FieldError(data, f, emailOk);
    }
  }
}
