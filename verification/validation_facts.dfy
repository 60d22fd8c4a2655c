/** What the rules of `validateContactData` accept and refuse, stated
    on the field messages of ContactValidation: PHP's `empty`, lengths
    in bytes, the phone pattern, and how the service is matched. */
module ContactValidationFacts {
  import opened Wrappers
  import opened PhpStrings
  import opened ContactValidation

  /** `empty` takes the string "0" for a missing value: the three required
      text fields report it as missing, and the optional phone is then
      not checked at all, like an absent or empty one. */
  lemma ZeroIsMissing(emailOk: string -> bool)
    ensures NameError(Some("0")) == Some(NameMissing)
    ensures EmailError(Some("0"), emailOk) == Some(EmailMissing)
    ensures MessageError(Some("0")) == Some(MessageMissing)
    ensures PhoneError(None) == None && PhoneError(Some("")) == None && PhoneError(Some("0")) == None
  {
  }

  /** The length limits count UTF-8 bytes, not characters: one accented
      letter is long enough for a name, one plain letter is not. */
  lemma NameLengthCountsBytes()
    ensures NameError(Some("A")) == Some(NameTooShort)
    ensures NameError(Some("É")) == None
  {
    assert Utf8Len("É") == 2;
  }

  /** The format of an address is tested before its length, so an address
      that is both malformed and too long is reported as malformed. */
  lemma EmailFormatBeforeLength(s: string, emailOk: string -> bool)
    requires !Falsy(s) && !emailOk(s)
    ensures EmailError(Some(s), emailOk) == Some(EmailInvalid)
  {
  }

  /** The phone pattern read directly: an optional `+`, a run of 8 to 20
      digits, white space, `-`, `(` or `)`, and possibly one final newline
      that `$` lets through. */
  ghost predicate PhoneShape(s: string) {
    exists sign: string, run: string, tail: string ::
      && (sign == "" || sign == "+")
      && (tail == "" || tail == "\n")
      && PhoneRun(run)
      && s == sign + run + tail
  }

  /** The phone test accepts exactly the values of that shape. */
  lemma PhoneMatchesIff(s: string)
    ensures PhoneMatches(s) <==> PhoneShape(s)
  {
    if PhoneMatches(s) {
      MatchHasShape(s);
    }
    if PhoneShape(s) {
      var sign, run, tail :| && (sign == "" || sign == "+") && (tail == "" || tail == "\n")
                             && PhoneRun(run) && s == sign + run + tail;
      ShapeMatches(sign, run, tail);
    }
  }

  /** A matching phone splits into its sign, its run and its newline. */
  lemma MatchHasShape(s: string)
    requires PhoneMatches(s)
    ensures PhoneShape(s)
  {
    var b := Unsigned(s);
    var sign := if |s| > 0 && s[0] == '+' then "+" else "";
    assert s == sign + b;
    if PhoneRun(b) {
      assert s == sign + b + "";
    } else {
      var run := b[..|b| - 1];
      assert b == run + "\n";
      assert s == sign + run + "\n";
    }
  }

  /** Any sign, run and newline put together make a matching phone. */
  lemma ShapeMatches(sign: string, run: string, tail: string)
    requires sign == "" || sign == "+"
    requires tail == "" || tail == "\n"
    requires PhoneRun(run)
    ensures PhoneMatches(sign + run + tail)
  {
    var s := sign + run + tail;
    // The run cannot start with `+`, so the sign is the one `Unsigned`
    // removes.
    assert IsPhoneChar(run[0]);
    if sign == "" {
      assert s == run + tail && s[0] == run[0];
    } else {
      assert s[1..] == run + tail;
    }
    var b := Unsigned(s);
    assert b == run + tail;
    if tail == "\n" {
      assert b[..|b| - 1] == run;
    }
  }

  /** Because of the final newline `$` allows, a phone of 21 characters
      with no `+` passes when the last one is a newline, and one of 22
      passes when it also starts with `+`. */
  lemma PhoneNewlineAllowance(run: string)
    requires PhoneRun(run)
    ensures PhoneError(Some(run + "\n")) == None
    ensures PhoneError(Some("+" + run + "\n")) == None
  {
    ShapeMatches("", run, "\n");
    assert "" + run + "\n" == run + "\n";
    ShapeMatches("+", run, "\n");
    assert (run + "\n")[0] == run[0];
  }

  /** Longer values never pass: at most one `+`, twenty class characters
      and one newline. */
  lemma PhoneLengthBound(s: string)
    requires PhoneMatches(s)
    ensures |s| <= 22
  {
  }

  /** The phone is not trimmed and white space is in its class, so a
      phone of blanks is checked, not ignored: eight to twenty of them
      pass, fewer fail. */
  lemma BlankPhone(s: string)
    requires forall i :: 0 <= i < |s| ==> s[i] == ' '
    ensures 8 <= |s| <= 20 ==> PhoneError(Some(s)) == None
    ensures 1 <= |s| < 8 ==> PhoneError(Some(s)) == Some(PhoneInvalid)
  {
    if 1 <= |s| {
      assert s[0] == ' ' && s != "0";
      assert Unsigned(s) == s;
      assert s[|s| - 1] != '\n';
    }
  }

  /** The service is trimmed before it is compared, so white space around
      a listed service is accepted. */
  lemma ServiceToleratesPadding(pre: string, service: string, post: string)
    requires forall k :: 0 <= k < |pre| ==> IsTrimSpace(pre[k])
    requires forall k :: 0 <= k < |post| ==> IsTrimSpace(post[k])
    requires service in AllowedServices
    ensures ServiceError(Some(pre + service + post)) == None
  {
    assert service != [] && !IsTrimSpace(service[0]) && !IsTrimSpace(service[|service| - 1]);
    TrimPadded(pre, service, post);
  }

  /** An absent service, or one that trims to nothing, is reported as not
      selected. */
  lemma BlankServiceIsMissing(s: string)
    requires forall k :: 0 <= k < |s| ==> IsTrimSpace(s[k])
    ensures ServiceError(Some(s)) == Some(ServiceMissing)
    ensures ServiceError(None) == Some(ServiceMissing)
  {
    TrimBlank(s);
    TrimBlank("");
  }

  /** The comparison is exact and case-sensitive. */
  lemma ServiceIsCaseSensitive()
    ensures ServiceError(Some("formation")) == Some(ServiceInvalid)
    ensures ServiceError(Some("Formation")) == None
  {
    TrimFixesTrimmed("formation");
    TrimFixesTrimmed("Formation");
    assert "formation" !in AllowedServices;
  }

  /** Each field's message depends on that field's value alone: changing
      any other entry of the payload leaves it as it was. */
  lemma FieldErrorIsLocal(data: Payload, data': Payload, f: Field, emailOk: string -> bool)
    requires Lookup(data, f.Key()) == Lookup(data', f.Key())
    ensures FieldError(data, f, emailOk) == FieldError(data', f, emailOk)
  {
  }
}
