/** `sanitizeContactData` (contact.php:85-95): one record built from the
    payload and the two server variables, every text field trimmed first,
    the free-text fields HTML-escaped and the email filtered. */
module ContactSanitizer {
  import opened Wrappers
  import opened PhpStrings
  import opened ContactValidation

  /** The sanitized array; its seven fields are the seven keys `name`,
      `email`, `phone`, `service`, `message`, `ip` and `user_agent`. */
  datatype CleanData = CleanData(
    name: string,
    email: string,
    phone: string,
    service: string,
    message: string,
    ip: string,
    userAgent: string)

  /** `$data[key]` passed to `trim`: a missing key reads as null, which
      `trim` turns into ''. */
  function Text(data: Payload, key: string): string {
    Lookup(data, key).GetOr("")
  }

  /** `htmlspecialchars(trim($s), ENT_QUOTES, 'UTF-8')`: no quote or angle
      bracket survives, and unescaping gives back the trimmed text. */
  function CleanText(s: string): (r: string)
    ensures NoMarkup(r)
    ensures HtmlUnescape(r) == Trim(s)
    ensures r == [] <==> Trim(s) == []
  {
    UnescapeEscape(Trim(s));
    HtmlEscape(Trim(s))
  }

  /** `filter_var(trim($s), FILTER_SANITIZE_EMAIL)`: only allowed
      characters, all taken in order from the trimmed text, and a trimmed
      text made of allowed characters is kept whole. */
  function CleanEmail(s: string): (r: string)
    ensures AllEmailChars(r)
    ensures IsSubsequence(r, Trim(s))
    ensures AllEmailChars(Trim(s)) ==> r == Trim(s)
  {
    SanitizeEmailFixedIff(Trim(s));
    SanitizeEmail(Trim(s))
  }

  /** `sanitizeContactData($data)`, with `$_SERVER['REMOTE_ADDR']` and
      `$_SERVER['HTTP_USER_AGENT']` passed in. */
  function SanitizeContactData(data: Payload, remoteAddr: Option<string>, userAgent: Option<string>)
    : (c: CleanData)
    ensures NoMarkup(c.name) && NoMarkup(c.phone) && NoMarkup(c.service) && NoMarkup(c.message)
    ensures HtmlUnescape(c.name) == Trim(Text(data, "name"))
    ensures HtmlUnescape(c.phone) == Trim(Text(data, "phone"))
    ensures HtmlUnescape(c.service) == Trim(Text(data, "service"))
    ensures HtmlUnescape(c.message) == Trim(Text(data, "message"))
    ensures AllEmailChars(c.email) && IsSubsequence(c.email, Trim(Text(data, "email")))
    ensures "phone" !in data ==> c.phone == ""
    ensures c.name == CleanText(Text(data, "name")) && c.email == CleanEmail(Text(data, "email"))
    ensures c.phone == CleanText(Text(data, "phone")) && c.service == CleanText(Text(data, "service"))
    ensures c.message == CleanText(Text(data, "message"))
    ensures c.ip == (if remoteAddr.Some? then remoteAddr.value else "unknown")
    ensures c.userAgent == (if userAgent.Some? then userAgent.value else "unknown")
  {
    // An absent key reads as '', which trims to ''.
    TrimBlank("");
    CleanData(
      name := CleanText(Text(data, "name")),
      email := CleanEmail(Text(data, "email")),
      phone := CleanText(Text(data, "phone")),
      service := CleanText(Text(data, "service")),
      message := CleanText(Text(data, "message")),
      ip := remoteAddr.GetOr("unknown"),
      userAgent := userAgent.GetOr("unknown"))
  }

  /** Sanitizing twice changes a field exactly when its trimmed text holds
      a character `htmlspecialchars` replaces: the second pass re-escapes
      the `&` of the entities the first one produced. */
  lemma CleanTextIdempotentIff(s: string)
    ensures CleanText(CleanText(s)) == CleanText(s)
            <==> forall i :: 0 <= i < |Trim(s)| ==> !IsSpecial(Trim(s)[i])
  {
    EscapeKeepsTrimmed(Trim(s));
    EscapeIdempotentIff(Trim(s));
  }

  /** The smallest witness: `&` is escaped again on a second pass. */
  lemma CleanTextNotIdempotent()
    ensures CleanText(CleanText("&")) != CleanText("&")
  {
    TrimFixesTrimmed("&");
    CleanTextIdempotentIff("&");
    assert IsSpecial(Trim("&")[0]);
  }

  /** A name of only spaces is not trimmed before validation, so one of two
      to 255 spaces passes every name rule, and the sanitized name it
      leaves is empty. The same holds for a message of 10 to 2000
      spaces. */
  lemma {:induction false} BlankPassesAndCleansToEmpty(s: string)
    requires forall i :: 0 <= i < |s| ==> s[i] == ' '
    ensures 2 <= |s| <= 255 ==> NameOk(Some(s))
    ensures 10 <= |s| <= 2000 ==> MessageOk(Some(s))
    ensures CleanText(s) == []
  {
    Utf8LenAscii(s);
    assert IsAscii(s) by {
      forall i | 0 <= i < |s| ensures s[i] as int < 0x80 {
        assert s[i] == ' ';
      }
    }
    if |s| >= 2 {
      assert s[0] == ' ' && s[1] == ' ';
      assert !Falsy(s);
    }
    TrimStripsEnds(s);
  }

  /** For an accepted submission, unescaping the sanitized service gives
      back one of the listed services exactly. */
  lemma AcceptedServiceIsListed(data: Payload, emailOk: string -> bool,
                                remoteAddr: Option<string>, userAgent: Option<string>)
    requires ValidSubmission(data, emailOk)
    ensures HtmlUnescape(SanitizeContactData(data, remoteAddr, userAgent).service) in AllowedServices
  {
  }
}
