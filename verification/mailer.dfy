/** The message `sendContactEmail` hands to `mail()` (contact.php:119-155):
    fixed recipient and subject, a plain-text body filled in from the
    sanitized data, and seven header lines joined by CRLF. */
module ContactMail {
  import opened Wrappers
  import opened PhpStrings
  import opened ContactValidation
  import opened ContactSanitizer

  const Recipient := "contact@lumiatechnologie.com"

  /** The subject text; `mail()` receives it as a base64 encoded word. */
  const SubjectText := "Nouvelle demande de contact – LUMIA TECHNOLOGIE"

  /** The arguments of one `mail()` call. */
  datatype Mail = Mail(to: string, subject: string, body: string, headers: string)

  /** `str_repeat(c, n)`. */
  function Repeat(c: char, n: nat): (r: string)
    ensures |r| == n
    ensures forall i :: 0 <= i < n ==> r[i] == c
  {
    if n == 0 then [] else [c] + Repeat(c, n - 1)
  }

  /** The ruler drawn above and below the message. */
  function Rule(): (r: string)
    ensures |r| == 50 && forall i :: 0 <= i < 50 ==> r[i] == '-'
  {
    Repeat('-', 50)
  }

  /** `$data['phone'] ?: 'Non renseigné'`: PHP's `?:` treats both '' and
      '0' as false. */
  function PhoneShown(phone: string): (r: string)
    ensures Falsy(phone) ==> r == "Non renseigné"
    ensures !Falsy(phone) ==> r == phone
    // The phone line never shows '' or "0".
    ensures !Falsy(r)
  {
    if Falsy(phone) then "Non renseigné" else phone
  }

  /** The body, line by line (`date` is `date('d/m/Y H:i:s')`), one
      segment per `.=` of the source: a segment of two lines is an append
      ending in a blank line. */
  function BodyLines(c: CleanData, date: string): seq<string> {
    ["=== NOUVEAU CONTACT DEPUIS LE SITE WEB ==="]
    + ["Date: " + date]
    + ["IP: " + c.ip, ""]
    + ["INFORMATIONS DU CONTACT:"]
    + ["Nom: " + c.name]
    + ["Email: " + c.email]
    + ["Téléphone: " + PhoneShown(c.phone)]
    + ["Service souhaité: " + c.service, ""]
    + ["MESSAGE:"]
    + [Rule()]
    + [c.message]
    + [Rule(), ""]
    + ["=== FIN DU MESSAGE ==="]
  }

  /** Every line followed by a newline. */
  function JoinLines(lines: seq<string>): string {
    if lines == [] then [] else JoinLines(lines[..|lines| - 1]) + lines[|lines| - 1] + "\n"
  }

  lemma JoinLinesSnoc(lines: seq<string>, line: string)
    ensures JoinLines(lines + [line]) == JoinLines(lines) + line + "\n"
  {
    assert (lines + [line])[..|lines|] == lines;
  }

  /** Joining is compositional: the text of `a + b` is the text of `a`
      followed by the text of `b`. */
  lemma {:induction false} JoinLinesAppend(a: seq<string>, b: seq<string>)
    ensures JoinLines(a + b) == JoinLines(a) + JoinLines(b)
    decreases |b|
  {
    if b == [] {
      assert a + b == a;
    } else {
      var n := |b| - 1;
      assert a + b == (a + b[..n]) + [b[n]];
      assert b == b[..n] + [b[n]];
      JoinLinesAppend(a, b[..n]);
      JoinLinesSnoc(a + b[..n], b[n]);
      JoinLinesSnoc(b[..n], b[n]);
    }
  }

  /** `t` occurs in `s`. */
  ghost predicate Contains(s: string, t: string) {
    exists pre, post :: s == pre + t + post
  }

  /** The body built by the successive `.=` appends of
      `sendContactEmail` is the template, one line after the other. */
  method ComposeBody(c: CleanData, date: string) returns (body: string)
    ensures body == JoinLines(BodyLines(c, date))
  {
    // `done` holds the template lines appended so far.
    FixedLinesEndInNewline();
    body := "=== NOUVEAU CONTACT DEPUIS LE SITE WEB ===\n";
    FirstLine(body, "=== NOUVEAU CONTACT DEPUIS LE SITE WEB ===");
    ghost var done: seq<string> := ["=== NOUVEAU CONTACT DEPUIS LE SITE WEB ==="];

    AppendLine(body, done, "Date: ", date);
    body := body + "Date: " + date + "\n";
    done := done + ["Date: " + date];

    AppendLineAndBlank(body, done, "IP: ", c.ip);
    body := body + "IP: " + c.ip + "\n\n";
    done := done + ["IP: " + c.ip, ""];

    AppendText(body, done, "INFORMATIONS DU CONTACT:", "INFORMATIONS DU CONTACT:\n");
    body := body + "INFORMATIONS DU CONTACT:\n";
    done := done + ["INFORMATIONS DU CONTACT:"];

    AppendLine(body, done, "Nom: ", c.name);
    body := body + "Nom: " + c.name + "\n";
    done := done + ["Nom: " + c.name];

    AppendLine(body, done, "Email: ", c.email);
    body := body + "Email: " + c.email + "\n";
    done := done + ["Email: " + c.email];

    AppendLine(body, done, "Téléphone: ", PhoneShown(c.phone));
    body := body + "Téléphone: " + PhoneShown(c.phone) + "\n";
    done := done + ["Téléphone: " + PhoneShown(c.phone)];

    AppendLineAndBlank(body, done, "Service souhaité: ", c.service);
    body := body + "Service souhaité: " + c.service + "\n\n";
    done := done + ["Service souhaité: " + c.service, ""];

    AppendText(body, done, "MESSAGE:", "MESSAGE:\n");
    body := body + "MESSAGE:\n";
    done := done + ["MESSAGE:"];

    AppendText(body, done, Repeat('-', 50), Repeat('-', 50) + "\n");
    body := body + Repeat('-', 50) + "\n";
    done := done + [Repeat('-', 50)];

    AppendText(body, done, c.message, c.message + "\n");
    body := body + c.message + "\n";
    done := done + [c.message];

    AppendTextAndBlank(body, done, Repeat('-', 50));
    body := body + Repeat('-', 50) + "\n\n";
    done := done + [Repeat('-', 50), ""];

    AppendText(body, done, "=== FIN DU MESSAGE ===", "=== FIN DU MESSAGE ===\n");
    body := body + "=== FIN DU MESSAGE ===\n";
    done := done + ["=== FIN DU MESSAGE ==="];
  }

  // One lemma per shape of append in `ComposeBody`: the text grows by the
  // lines it adds to `done`.

  // A literal fact stated on its own so that the proofs using it stay cheap.
  lemma FixedLinesEndInNewline()
    ensures "=== NOUVEAU CONTACT DEPUIS LE SITE WEB ===\n" == "=== NOUVEAU CONTACT DEPUIS LE SITE WEB ===" + "\n"
    ensures "INFORMATIONS DU CONTACT:\n" == "INFORMATIONS DU CONTACT:" + "\n"
    ensures "MESSAGE:\n" == "MESSAGE:" + "\n"
    ensures "=== FIN DU MESSAGE ===\n" == "=== FIN DU MESSAGE ===" + "\n"
  {
  }

  lemma FirstLine(text: string, line: string)
    requires text == line + "\n"
    ensures text == JoinLines([line])
  {
    assert [line][..0] == [];
  }

  lemma AppendText(body: string, done: seq<string>, line: string, text: string)
    requires body == JoinLines(done) && text == line + "\n"
    ensures body + text == JoinLines(done + [line])
  {
    JoinLinesSnoc(done, line);
  }

  lemma AppendLine(body: string, done: seq<string>, tag: string, value: string)
    requires body == JoinLines(done)
    ensures body + tag + value + "\n" == JoinLines(done + [tag + value])
  {
    JoinLinesSnoc(done, tag + value);
  }

  lemma AppendLineAndBlank(body: string, done: seq<string>, tag: string, value: string)
    requires body == JoinLines(done)
    ensures body + tag + value + "\n\n" == JoinLines(done + [tag + value, ""])
  {
    JoinLinesSnoc(done, tag + value);
    JoinLinesSnoc(done + [tag + value], "");
    assert done + [tag + value] + [""] == done + [tag + value, ""];
  }

  lemma AppendTextAndBlank(body: string, done: seq<string>, line: string)
    requires body == JoinLines(done)
    ensures body + line + "\n\n" == JoinLines(done + [line, ""])
  {
    JoinLinesSnoc(done, line);
    JoinLinesSnoc(done + [line], "");
    assert done + [line] + [""] == done + [line, ""];
  }

  /** A run of consecutive lines appears, as joined, in the joined text. */
  lemma JoinLinesContainsRun(lines: seq<string>, i: nat, j: nat)
    requires i <= j <= |lines|
    ensures Contains(JoinLines(lines), JoinLines(lines[i..j]))
  {
    var pre, run, post := lines[..i], lines[i..j], lines[j..];
    SplitThree(lines, i, j);
    JoinedMiddle(pre, run, post);
    ContainsMiddle(JoinLines(pre), JoinLines(run), JoinLines(post));
  }

  // Slicing stated on its own so that the proofs using it stay cheap.
  lemma SplitThree(lines: seq<string>, i: nat, j: nat)
    requires i <= j <= |lines|
    ensures lines == lines[..i] + lines[i..j] + lines[j..]
  {
  }

  lemma JoinedMiddle(pre: seq<string>, run: seq<string>, post: seq<string>)
    ensures JoinLines(pre + run + post) == JoinLines(pre) + JoinLines(run) + JoinLines(post)
  {
    JoinLinesAppend(pre + run, post);
    JoinLinesAppend(pre, run);
  }

  // The witness for `Contains`, stated on its own so that the proofs using it stay cheap.
  lemma ContainsMiddle(pre: string, t: string, post: string)
    ensures Contains(pre + t + post, t)
  {
  }

  lemma JoinThree(a: string, b: string, c: string)
    ensures JoinLines([a, b, c]) == a + "\n" + b + "\n" + c + "\n"
  {
    JoinLinesSnoc([], a);
    assert [] + [a] == [a];
    JoinLinesSnoc([a], b);
    assert [a] + [b] == [a, b];
    JoinLinesSnoc([a, b], c);
    assert [a, b] + [c] == [a, b, c];
  }

  /** The sanitized message sits in the body between two rulers of 50
      dashes, each on a line of its own. */
  lemma BodyFramesMessage(c: CleanData, date: string)
    ensures Contains(JoinLines(BodyLines(c, date)), Rule() + "\n" + c.message + "\n" + Rule() + "\n")
  {
    var lines := BodyLines(c, date);
    assert lines[11..14] == [Rule(), c.message, Rule()];
    JoinThree(Rule(), c.message, Rule());
    JoinLinesContainsRun(lines, 11, 14);
  }

  /** The phone line shows "Non renseigné" for an empty (or "0") sanitized
      phone and the sanitized phone otherwise. */
  lemma BodyShowsPhone(c: CleanData, date: string)
    ensures Falsy(c.phone) ==> Contains(JoinLines(BodyLines(c, date)), "Téléphone: Non renseigné\n")
    ensures !Falsy(c.phone) ==> Contains(JoinLines(BodyLines(c, date)), "Téléphone: " + c.phone + "\n")
  {
    PhoneLine(c, date);
    ContainsLine(BodyLines(c, date), 7);
    if Falsy(c.phone) {
      NotGivenLine();
    }
  }

  /** The eighth line of the body is the phone line. */
  lemma PhoneLine(c: CleanData, date: string)
    ensures |BodyLines(c, date)| > 7 && BodyLines(c, date)[7] == "Téléphone: " + PhoneShown(c.phone)
  {
  }

  // A literal fact stated on its own so that the proofs using it stay cheap.
  lemma NotGivenLine()
    ensures "Téléphone: " + "Non renseigné" + "\n" == "Téléphone: Non renseigné\n"
  {
  }

  /** Each line appears, followed by its newline, in the joined text. */
  lemma ContainsLine(lines: seq<string>, k: nat)
    requires k < |lines|
    ensures Contains(JoinLines(lines), lines[k] + "\n")
  {
    assert lines[k..k + 1] == [lines[k]];
    assert JoinLines([lines[k]]) == lines[k] + "\n" by {
      assert [lines[k]][..0] == [];
    }
    JoinLinesContainsRun(lines, k, k + 1);
  }

  /** The seven header lines, `Reply-To` being the sanitized email and
      `phpVersion` standing for `phpversion()`. */
  function MailHeaders(replyTo: string, phpVersion: string): seq<string> {
    [ "From: LUMIA TECH Contact <noreply@lumiatechnologie.com>",
      "Reply-To: " + replyTo,
      "X-Mailer: PHP/" + phpVersion,
      "X-Priority: 2",
      "MIME-Version: 1.0",
      "Content-Type: text/plain; charset=UTF-8",
      "Content-Transfer-Encoding: 8bit" ]
  }

  /** `implode("\r\n", $lines)`: the first line opens the text, and a
      separator follows it when more lines come. */
  function Implode(lines: seq<string>): (r: string)
    ensures lines == [] ==> r == []
    ensures lines != [] ==> |lines[0]| <= |r| && r[..|lines[0]|] == lines[0]
    ensures |lines| >= 2 ==> |lines[0]| + 2 <= |r| && r[|lines[0]|..|lines[0]| + 2] == "\r\n"
  {
    if lines == [] then []
    else if |lines| == 1 then lines[0]
    else lines[0] + "\r\n" + Implode(lines[1..])
  }

  /** `Reply-To` carries the sanitized email on a header line of its own,
      and that email holds only FILTER_SANITIZE_EMAIL characters: it has
      no carriage return and no line feed, so whatever the visitor typed
      it cannot end the header line and start another. */
  lemma ReplyToStaysOneLine(email: string, phpVersion: string)
    requires AllEmailChars(email)
    ensures Contains(Implode(MailHeaders(email, phpVersion)), "\r\n" + ("Reply-To: " + email) + "\r\n")
    ensures '\r' !in email && '\n' !in email
  {
    var h := MailHeaders(email, phpVersion);
    ImplodeSecond(h);
    assert h[1] == "Reply-To: " + email;
  }

  /** The second of three or more imploded lines stands between two
      separators. */
  lemma ImplodeSecond(h: seq<string>)
    requires |h| >= 3
    ensures Contains(Implode(h), "\r\n" + h[1] + "\r\n")
  {
    assert h[1..][0] == h[1] && h[1..][1..] == h[2..];
    assert Implode(h) == h[0] + "\r\n" + (h[1] + "\r\n" + Implode(h[2..]));
    Regroup(h[0], "\r\n", h[1], "\r\n", Implode(h[2..]));
    ContainsMiddle(h[0], "\r\n" + h[1] + "\r\n", Implode(h[2..]));
  }

  // Associativity stated on its own so that the proofs using it stay cheap.
  lemma Regroup(a: string, b: string, c: string, d: string, e: string)
    ensures a + b + (c + d + e) == a + (b + c + d) + e
  {
  }

  /** The `mail()` call `sendContactEmail` makes for the sanitized data. */
  method ComposeContactEmail(c: CleanData, date: string, phpVersion: string) returns (m: Mail)
    ensures m.to == Recipient && m.subject == SubjectText
    ensures m.body == JoinLines(BodyLines(c, date))
    ensures m.headers == Implode(MailHeaders(c.email, phpVersion))
  {
    var body := ComposeBody(c, date);
    m := Mail(Recipient, SubjectText, body, Implode(MailHeaders(c.email, phpVersion)));
  }
}
