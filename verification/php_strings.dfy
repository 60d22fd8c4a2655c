/** Models of the PHP string built-ins the contact handler relies on:
    `strlen`, `trim`, `empty()`, the `?:` truthiness of a string,
    `htmlspecialchars(…, ENT_QUOTES, 'UTF-8')` and the
    `FILTER_SANITIZE_EMAIL` filter.

    Strings are sequences of Unicode code points; `strlen` counts the bytes
    of their UTF-8 encoding. */
module PhpStrings {
  import opened Wrappers

  // ---------------------------------------------------------------------
  // strlen: UTF-8 byte length
  // ---------------------------------------------------------------------

  /** Number of bytes UTF-8 uses to encode one code point. */
  function CodePointBytes(c: char): (n: nat)
    ensures 1 <= n <= 4
    ensures n == 1 <==> c as int < 0x80
  {
    if c as int < 0x80 then 1
    else if c as int < 0x800 then 2
    else if c as int < 0x10000 then 3
    else 4
  }

  /** PHP `strlen`: the length of the UTF-8 encoding of `s`, in bytes. */
  function Utf8Len(s: string): (n: nat)
    ensures |s| <= n <= 4 * |s|
  {
    if s == [] then 0 else CodePointBytes(s[0]) + Utf8Len(s[1..])
  }

  predicate IsAscii(s: string) {
    forall i :: 0 <= i < |s| ==> s[i] as int < 0x80
  }

  /** On ASCII text a byte count is a character count, and only there. */
  lemma {:induction false} Utf8LenAscii(s: string)
    ensures Utf8Len(s) == |s| <==> IsAscii(s)
  {
    if s != [] {
      Utf8LenAscii(s[1..]);
      if IsAscii(s) {
        assert IsAscii(s[1..]) by {
          forall i | 0 <= i < |s[1..]| ensures s[1..][i] as int < 0x80 {
            assert s[1..][i] == s[i + 1];
          }
        }
      } else if s[0] as int < 0x80 {
        assert !IsAscii(s[1..]) by {
          var i :| 0 <= i < |s| && s[i] as int >= 0x80;
          assert s[1..][i - 1] == s[i];
        }
      }
    }
  }

  // ---------------------------------------------------------------------
  // empty() and ?: on strings
  // ---------------------------------------------------------------------

  /** PHP's truthiness of a string: only "" and "0" are false. */
  predicate Falsy(s: string) {
    s == "" || s == "0"
  }

  /** PHP `empty($data[key])` for a key that is absent or holds a string. */
  predicate Empty(v: Option<string>) {
    v.None? || Falsy(v.value)
  }

  // ---------------------------------------------------------------------
  // trim
  // ---------------------------------------------------------------------

  /** The characters PHP's `trim` strips by default: " \t\n\r\0\x0B". */
  predicate IsTrimSpace(c: char) {
    c == ' ' || c == '\t' || c == '\n' || c == '\r' || c == '\0' || c == '\U{000B}'
  }

  /** Number of trim characters at the start of `s`. */
  function LeadingSpaces(s: string): (k: nat)
    ensures k <= |s|
    ensures forall i :: 0 <= i < k ==> IsTrimSpace(s[i])
    ensures k < |s| ==> !IsTrimSpace(s[k])
  {
    if s == [] || !IsTrimSpace(s[0]) then 0 else 1 + LeadingSpaces(s[1..])
  }

  /** Number of trim characters at the end of `s`. */
  function TrailingSpaces(s: string): (k: nat)
    ensures k <= |s|
    ensures forall i :: |s| - k <= i < |s| ==> IsTrimSpace(s[i])
    ensures k < |s| ==> !IsTrimSpace(s[|s| - 1 - k])
  {
    if s == [] || !IsTrimSpace(s[|s| - 1]) then 0
    else 1 + TrailingSpaces(s[..|s| - 1])
  }

  /** PHP `trim($s)`. */
  function Trim(s: string): (r: string)
    ensures |r| <= |s|
    ensures r == [] || (!IsTrimSpace(r[0]) && !IsTrimSpace(r[|r| - 1]))
  {
    var rest := s[LeadingSpaces(s)..];
    rest[..|rest| - TrailingSpaces(rest)]
  }

  /** `trim` removes exactly a run of trim characters from each end: the
      result is the infix `s[i..j]`, everything outside it is a trim
      character, and nothing at its edges is. */
  lemma TrimStripsEnds(s: string)
    ensures exists i, j ::
      0 <= i <= j <= |s| && Trim(s) == s[i..j]
      && (forall k :: 0 <= k < i ==> IsTrimSpace(s[k]))
      && (forall k :: j <= k < |s| ==> IsTrimSpace(s[k]))
  {
    var i := LeadingSpaces(s);
    var rest := s[i..];
    var j := i + |rest| - TrailingSpaces(rest);
    assert Trim(s) == s[i..j];
    forall k | j <= k < |s| ensures IsTrimSpace(s[k]) {
      assert s[k] == rest[k - i];
    }
  }

  /** A string without trim characters at its ends is left unchanged, and
      `trim` is therefore idempotent. */
  lemma {:induction false} TrimFixesTrimmed(s: string)
    requires s == [] || (!IsTrimSpace(s[0]) && !IsTrimSpace(s[|s| - 1]))
    ensures Trim(s) == s
  {
    if s != [] {
      assert LeadingSpaces(s) == 0;
      assert TrailingSpaces(s) == 0;
    }
  }

  lemma TrimIdempotent(s: string)
    ensures Trim(Trim(s)) == Trim(s)
  {
    TrimFixesTrimmed(Trim(s));
  }

  /** A string of trim characters only trims to ''. */
  lemma TrimBlank(s: string)
    requires forall k :: 0 <= k < |s| ==> IsTrimSpace(s[k])
    ensures Trim(s) == []
  {
    TrimStripsEnds(s);
  }

  /** Padding a trimmed, non-empty text with trim characters on both
      sides does not change what `trim` gives back. */
  lemma TrimPadded(pre: string, s: string, post: string)
    requires forall k :: 0 <= k < |pre| ==> IsTrimSpace(pre[k])
    requires forall k :: 0 <= k < |post| ==> IsTrimSpace(post[k])
    requires s != [] && !IsTrimSpace(s[0]) && !IsTrimSpace(s[|s| - 1])
    ensures Trim(pre + s + post) == s
  {
    var x := pre + s + post;
    TrimStripsEnds(x);
    var i, j :| 0 <= i <= j <= |x| && Trim(x) == x[i..j]
      && (forall k :: 0 <= k < i ==> IsTrimSpace(x[k]))
      && (forall k :: j <= k < |x| ==> IsTrimSpace(x[k]));
    var a, b := |pre|, |pre| + |s|;
    assert x[a] == s[0] && x[b - 1] == s[|s| - 1];
    // `s` lies inside the kept infix, because its edges are not trim
    // characters; the infix starts and ends inside `s`, because the
    // padding is made of them.
    assert i <= a && b <= j;
    assert i == a && j == b;
    assert x[a..b] == s;
  }

  // ---------------------------------------------------------------------
  // htmlspecialchars(…, ENT_QUOTES, 'UTF-8') and its inverse
  // ---------------------------------------------------------------------

  /** The characters `htmlspecialchars` with ENT_QUOTES replaces. */
  predicate IsSpecial(c: char) {
    c == '&' || c == '"' || c == '\'' || c == '<' || c == '>'
  }

  /** Markup-significant characters: every special character but `&`. */
  predicate IsMarkup(c: char) {
    c == '"' || c == '\'' || c == '<' || c == '>'
  }

  predicate NoMarkup(s: string) {
    forall i :: 0 <= i < |s| ==> !IsMarkup(s[i])
  }

  /** The replacement of one character. */
  function Entity(c: char): (e: string)
    ensures IsSpecial(c) ==> |e| > 1 && e[0] == '&' && e[|e| - 1] == ';'
    ensures !IsSpecial(c) ==> e == [c]
    ensures NoMarkup(e)
  {
    match c
    case '&' => "&amp;"
    case '"' => "&quot;"
    case '\'' => "&#039;"
    case '<' => "&lt;"
    case '>' => "&gt;"
    case _ => [c]
  }

  /** `htmlspecialchars($s, ENT_QUOTES, 'UTF-8')`, with the default
      double_encode: every special character is replaced, including the
      `&` of an entity already present. */
  function HtmlEscape(s: string): (r: string)
    ensures |s| <= |r|
    ensures NoMarkup(r)
  {
    if s == [] then [] else Entity(s[0]) + HtmlEscape(s[1..])
  }

  /** Escaping works character by character, so it distributes over
      concatenation. */
  lemma {:induction false} EscapeAppend(s: string, t: string)
    ensures HtmlEscape(s + t) == HtmlEscape(s) + HtmlEscape(t)
  {
    if s == [] {
      assert s + t == t;
    } else {
      assert (s + t)[0] == s[0] && (s + t)[1..] == s[1..] + t;
      EscapeAppend(s[1..], t);
      calc {
        HtmlEscape(s + t);
        Entity(s[0]) + HtmlEscape(s[1..] + t);
        Entity(s[0]) + (HtmlEscape(s[1..]) + HtmlEscape(t));
        (Entity(s[0]) + HtmlEscape(s[1..])) + HtmlEscape(t);
      }
    }
  }

  /** The escaped string begins and ends with the input's first and last
      characters, or with the `&` and `;` of their entities. */
  lemma {:induction false} EscapeEnds(s: string)
    requires s != []
    ensures HtmlEscape(s)[0] in {s[0], '&'}
    ensures HtmlEscape(s)[|HtmlEscape(s)| - 1] in {s[|s| - 1], ';'}
  {
    var n := |s| - 1;
    var e := Entity(s[n]);
    var last := s[n..];
    assert s[..n] + last == s;
    EscapeAppend(s[..n], last);
    assert last[0] == s[n] && last[1..] == [];
    assert HtmlEscape(last) == e + HtmlEscape([]);
  }

  /** Escaping a string that `trim` leaves alone gives a string `trim`
      leaves alone. */
  lemma {:induction false} EscapeKeepsTrimmed(s: string)
    requires s == [] || (!IsTrimSpace(s[0]) && !IsTrimSpace(s[|s| - 1]))
    ensures Trim(HtmlEscape(s)) == HtmlEscape(s)
  {
    var r := HtmlEscape(s);
    if s != [] {
      EscapeEnds(s);
      assert r != [] && !IsTrimSpace(r[0]) && !IsTrimSpace(r[|r| - 1]);
    }
    TrimFixesTrimmed(r);
  }

  /** Decodes the five entities `HtmlEscape` produces; any other text,
      including a stray `&`, is kept as it is. */
  function HtmlUnescape(s: string): string
    decreases |s|
  {
    if s == [] then []
    else if "&amp;" <= s then ['&'] + HtmlUnescape(s[5..])
    else if "&quot;" <= s then ['"'] + HtmlUnescape(s[6..])
    else if "&#039;" <= s then ['\''] + HtmlUnescape(s[6..])
    else if "&lt;" <= s then ['<'] + HtmlUnescape(s[4..])
    else if "&gt;" <= s then ['>'] + HtmlUnescape(s[4..])
    else [s[0]] + HtmlUnescape(s[1..])
  }

  lemma UnescapeEntity(c: char, t: string)
    ensures HtmlUnescape(Entity(c) + t) == [c] + HtmlUnescape(t)
  {
    var e := Entity(c) + t;
    if c == '&' {
      assert e[..5] == "&amp;" && e[5..] == t;
    } else if c == '"' {
      assert e[1] == 'q' && e[..6] == "&quot;" && e[6..] == t;
    } else if c == '\'' {
      assert e[1] == '#' && e[..6] == "&#039;" && e[6..] == t;
    } else if c == '<' {
      assert e[1] == 'l' && e[..4] == "&lt;" && e[4..] == t;
    } else if c == '>' {
      assert e[1] == 'g' && e[..4] == "&gt;" && e[4..] == t;
    } else {
      assert e[0] == c && e[1..] == t;
    }
  }

  /** Escaping loses nothing: unescaping gives back the input. */
  lemma {:induction false} UnescapeEscape(s: string)
    ensures HtmlUnescape(HtmlEscape(s)) == s
  {
    if s != [] {
      UnescapeEntity(s[0], HtmlEscape(s[1..]));
      UnescapeEscape(s[1..]);
    }
  }

  /** Escaping leaves a string unchanged exactly when it holds no special
      character. */
  lemma {:induction false} EscapeFixedIff(s: string)
    ensures HtmlEscape(s) == s <==> forall i :: 0 <= i < |s| ==> !IsSpecial(s[i])
  {
    if s != [] {
      EscapeFixedIff(s[1..]);
      if IsSpecial(s[0]) {
        assert |HtmlEscape(s)| > |s|;
      } else {
        assert HtmlEscape(s) == [s[0]] + HtmlEscape(s[1..]);
        if forall i :: 0 <= i < |s| ==> !IsSpecial(s[i]) {
          assert forall i :: 0 <= i < |s[1..]| ==> !IsSpecial(s[1..][i]) by {
            forall i | 0 <= i < |s[1..]| ensures !IsSpecial(s[1..][i]) {
              assert s[1..][i] == s[i + 1];
            }
          }
        } else {
          var i :| 0 <= i < |s| && IsSpecial(s[i]);
          assert s[1..][i - 1] == s[i];
          assert HtmlEscape(s)[1..] == HtmlEscape(s[1..]);
        }
      }
    }
  }

  /** A special character in the input leaves an `&` in the output. */
  lemma {:induction false} EscapeKeepsAmpersand(s: string, i: nat)
    requires i < |s| && IsSpecial(s[i])
    ensures exists k :: 0 <= k < |HtmlEscape(s)| && HtmlEscape(s)[k] == '&'
  {
    if i == 0 {
      assert HtmlEscape(s)[0] == '&';
    } else {
      EscapeKeepsAmpersand(s[1..], i - 1);
      var k :| 0 <= k < |HtmlEscape(s[1..])| && HtmlEscape(s[1..])[k] == '&';
      assert HtmlEscape(s)[|Entity(s[0])| + k] == '&';
    }
  }

  /** Escaping is idempotent exactly on strings without special characters;
      on any other string a second pass escapes the `&` of the entities the
      first pass produced. */
  lemma EscapeIdempotentIff(s: string)
    ensures HtmlEscape(HtmlEscape(s)) == HtmlEscape(s)
            <==> forall i :: 0 <= i < |s| ==> !IsSpecial(s[i])
  {
    var r := HtmlEscape(s);
    EscapeFixedIff(s);
    EscapeFixedIff(r);
    if !forall i :: 0 <= i < |s| ==> !IsSpecial(s[i]) {
      var i :| 0 <= i < |s| && IsSpecial(s[i]);
      EscapeKeepsAmpersand(s, i);
    }
  }

  // ---------------------------------------------------------------------
  // FILTER_SANITIZE_EMAIL
  // ---------------------------------------------------------------------

  /** The characters FILTER_SANITIZE_EMAIL keeps: ASCII letters, digits
      and !#$%&'*+-=?^_`{|}~@.[] */
  predicate IsEmailChar(c: char) {
    ('a' <= c <= 'z') || ('A' <= c <= 'Z') || ('0' <= c <= '9')
    || c in "!#$%&'*+-=?^_`{|}~@.[]"
  }

  predicate AllEmailChars(s: string) {
    forall i :: 0 <= i < |s| ==> IsEmailChar(s[i])
  }

  /** `r` is obtained from `s` by deleting characters. */
  predicate IsSubsequence(r: string, s: string)
    decreases |s|
  {
    r == []
    || (s != [] && ((r[0] == s[0] && IsSubsequence(r[1..], s[1..])) || IsSubsequence(r, s[1..])))
  }

  /** `filter_var($s, FILTER_SANITIZE_EMAIL)`: deletes every character
      outside the allowed set (a non-ASCII character is deleted whole, as
      each of its bytes is). */
  function SanitizeEmail(s: string): (r: string)
    ensures AllEmailChars(r)
    ensures IsSubsequence(r, s)
  {
    if s == [] then []
    else if IsEmailChar(s[0]) then [s[0]] + SanitizeEmail(s[1..])
    else SanitizeEmail(s[1..])
  }

  /** The filter changes a string exactly when it holds a disallowed
      character; in particular it is idempotent. */
  lemma {:induction false} SanitizeEmailFixedIff(s: string)
    ensures SanitizeEmail(s) == s <==> AllEmailChars(s)
  {
    if s != [] {
      SanitizeEmailFixedIff(s[1..]);
      if IsEmailChar(s[0]) {
        if AllEmailChars(s) {
          assert AllEmailChars(s[1..]) by {
            forall i | 0 <= i < |s[1..]| ensures IsEmailChar(s[1..][i]) {
              assert s[1..][i] == s[i + 1];
            }
          }
        } else {
          var i :| 0 <= i < |s| && !IsEmailChar(s[i]);
          assert s[1..][i - 1] == s[i];
          assert SanitizeEmail(s)[1..] == SanitizeEmail(s[1..]);
        }
      } else {
        assert |SanitizeEmail(s[1..])| <= |s[1..]| by { SubsequenceShorter(SanitizeEmail(s[1..]), s[1..]); }
      }
    }
  }

  lemma {:induction false} SubsequenceShorter(r: string, s: string)
    requires IsSubsequence(r, s)
    ensures |r| <= |s|
    decreases |s|
  {
    if r != [] {
      if r[0] == s[0] && IsSubsequence(r[1..], s[1..]) {
        SubsequenceShorter(r[1..], s[1..]);
      } else {
        SubsequenceShorter(r, s[1..]);
      }
    }
  }

  lemma SanitizeEmailIdempotent(s: string)
    ensures SanitizeEmail(SanitizeEmail(s)) == SanitizeEmail(s)
  {
    SanitizeEmailFixedIff(SanitizeEmail(s));
  }
}
