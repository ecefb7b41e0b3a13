/** The validators of `src/lib/EXAMPLE_CORE/validation.ts`. Each regular
    expression is written out as the language it accepts; the server-side
    branch of `sanitize_html` is a character-wise escaping. */
module CoreValidation {
  import opened Wrappers
  import opened Json
  import opened Text

  // ---------------------------------------------------------------- e-mail

  /** `[^\s@]+`: a non-empty run without white space and without `@`. */
  predicate EmailRun(s: string) {
    |s| > 0 && forall i :: 0 <= i < |s| ==> !IsWhitespace(s[i]) && s[i] != '@'
  }

  /** is_valid_email: `^[^\s@]+@[^\s@]+\.[^\s@]+$`, with `a` the position of
      the `@` and `d` that of the dot the middle run ends at. */
  predicate IsValidEmail(s: string) {
    exists a, d :: 0 < a < d < |s| && s[a] == '@' && s[d] == '.'
      && EmailRun(s[..a]) && EmailRun(s[a + 1..d]) && EmailRun(s[d + 1..])
  }

  lemma CountSplit(s: string, a: nat, c: char)
    requires a < |s|
    ensures Count(s, c) == Count(s[..a], c) + (if s[a] == c then 1 else 0) + Count(s[a + 1..], c)
  {
    assert s == s[..a] + [s[a]] + s[a + 1..];
    CountAppend(s[..a] + [s[a]], s[a + 1..], c);
    CountAppend(s[..a], [s[a]], c);
  }

  lemma CountZeroAbsent(s: string, c: char)
    requires Count(s, c) == 0
    ensures c !in s
  {
    if s != [] {
      assert s == [s[0]] + s[1..];
      CountZeroAbsent(s[1..], c);
    }
  }

  lemma EmailRunAt(s: string, lo: nat, hi: nat, i: nat)
    requires lo <= i < hi <= |s| && EmailRun(s[lo..hi])
    ensures !IsWhitespace(s[i]) && s[i] != '@'
  {
    assert s[i] == s[lo..hi][i - lo];
  }

  lemma EmailRunOfSlice(s: string, lo: nat, hi: nat)
    requires lo < hi <= |s|
    requires forall i :: lo <= i < hi ==> !IsWhitespace(s[i]) && s[i] != '@'
    ensures EmailRun(s[lo..hi])
  {
    var t := s[lo..hi];
    forall i | 0 <= i < |t| ensures !IsWhitespace(t[i]) && t[i] != '@' {
      assert t[i] == s[lo + i];
    }
  }

  /** An `@` with no other `@` before or after it is the only one. */
  lemma SingleOccurrence(s: string, a: nat, c: char)
    requires a < |s| && s[a] == c
    requires forall i :: 0 <= i < |s| && i != a ==> s[i] != c
    ensures Count(s, c) == 1
  {
    var pre, post := s[..a], s[a + 1..];
    forall i | 0 <= i < |pre| ensures pre[i] != c { assert pre[i] == s[i]; }
    forall i | 0 <= i < |post| ensures post[i] != c { assert post[i] == s[i + a + 1]; }
    CountAbsent(pre, c);
    CountAbsent(post, c);
    CountSplit(s, a, c);
  }

  lemma EmailShapeForwardAt(s: string, a: nat, d: nat)
    requires 0 < a < d < |s| && s[a] == '@' && s[d] == '.'
    requires EmailRun(s[..a]) && EmailRun(s[a + 1..d]) && EmailRun(s[d + 1..])
    ensures Count(s, '@') == 1
    ensures forall i :: 0 <= i < |s| ==> !IsWhitespace(s[i])
    ensures 0 < a && a + 1 < d < |s| - 1
  {
    assert s[..a] == s[0..a] && s[d + 1..] == s[d + 1..|s|];
    forall i | 0 <= i < |s| && i != a ensures !IsWhitespace(s[i]) && s[i] != '@' {
      if i < a { EmailRunAt(s, 0, a, i); }
      else if i < d { EmailRunAt(s, a + 1, d, i); }
      else if d < i { EmailRunAt(s, d + 1, |s|, i); }
    }
    SingleOccurrence(s, a, '@');
  }

  lemma EmailShapeForward(s: string)
    requires IsValidEmail(s)
    ensures Count(s, '@') == 1
    ensures forall i :: 0 <= i < |s| ==> !IsWhitespace(s[i])
    ensures exists a, d :: 0 < a && a + 1 < d < |s| - 1 && s[a] == '@' && s[d] == '.'
  {
    var a, d :| 0 < a < d < |s| && s[a] == '@' && s[d] == '.'
      && EmailRun(s[..a]) && EmailRun(s[a + 1..d]) && EmailRun(s[d + 1..]);
    EmailShapeForwardAt(s, a, d);
  }

  lemma EmailShapeBackward(s: string, a: nat, d: nat)
    requires Count(s, '@') == 1
    requires forall i :: 0 <= i < |s| ==> !IsWhitespace(s[i])
    requires 0 < a && a + 1 < d < |s| - 1 && s[a] == '@' && s[d] == '.'
    ensures IsValidEmail(s)
  {
    CountSplit(s, a, '@');
    CountZeroAbsent(s[..a], '@');
    CountZeroAbsent(s[a + 1..], '@');
    forall i | 0 <= i < |s| && i != a ensures s[i] != '@' {
      if i < a { assert s[i] == s[..a][i]; }
      else { assert s[i] == s[a + 1..][i - a - 1]; }
    }
    EmailRunOfSlice(s, 0, a);
    EmailRunOfSlice(s, a + 1, d);
    EmailRunOfSlice(s, d + 1, |s|);
    assert s[..a] == s[0..a] && s[d + 1..] == s[d + 1..|s|];
  }

  /** The e-mail pattern in plain words: exactly one `@`, no white space, a
      non-empty local part, and a dot in the domain that is neither its
      first nor its last character. */
  lemma EmailShape(s: string)
    ensures IsValidEmail(s) <==>
      Count(s, '@') == 1
      && (forall i :: 0 <= i < |s| ==> !IsWhitespace(s[i]))
      && (exists a, d :: 0 < a && a + 1 < d < |s| - 1 && s[a] == '@' && s[d] == '.')
  {
    if IsValidEmail(s) {
      EmailShapeForward(s);
    }
    if Count(s, '@') == 1
      && (forall i :: 0 <= i < |s| ==> !IsWhitespace(s[i]))
      && (exists a, d :: 0 < a && a + 1 < d < |s| - 1 && s[a] == '@' && s[d] == '.')
    {
      var a, d :| 0 < a && a + 1 < d < |s| - 1 && s[a] == '@' && s[d] == '.';
      EmailShapeBackward(s, a, d);
    }
  }

  // ------------------------------------------------------------------ UUID

  predicate IsHexDigit(c: char) {
    IsDigit(c) || ('a' <= c <= 'f') || ('A' <= c <= 'F')
  }

  predicate HexRun(s: string, n: nat) {
    |s| == n && forall i :: 0 <= i < |s| ==> IsHexDigit(s[i])
  }

  /** is_valid_uuid: `^[0-9a-f]{8}-[0-9a-f]{4}-[0-9a-f]{4}-[0-9a-f]{4}-[0-9a-f]{12}$`
      with the case-insensitive flag. */
  predicate IsValidUuid(s: string) {
    |s| == 36
    && HexRun(s[..8], 8) && s[8] == '-' && HexRun(s[9..13], 4) && s[13] == '-'
    && HexRun(s[14..18], 4) && s[18] == '-' && HexRun(s[19..23], 4) && s[23] == '-'
    && HexRun(s[24..], 12)
  }

  /** The UUID test does not depend on letter case. */
  lemma UuidCaseInsensitive(s: string)
    ensures IsValidUuid(s) <==> IsValidUuid(ToLower(s))
  {
    var t := ToLower(s);
    forall i | 0 <= i < |s| ensures IsHexDigit(s[i]) <==> IsHexDigit(t[i]) && (s[i] == '-' <==> t[i] == '-') {
    }
    if |s| == 36 {
      forall lo, hi | 0 <= lo <= hi <= 36
        ensures HexRun(s[lo..hi], hi - lo) <==> HexRun(t[lo..hi], hi - lo)
      {
        forall i | 0 <= i < hi - lo ensures s[lo..hi][i] == s[lo + i] && t[lo..hi][i] == t[lo + i] {}
      }
      assert s[..8] == s[0..8] && t[..8] == t[0..8];
      assert s[24..] == s[24..36] && t[24..] == t[24..36];
    }
  }

  lemma HexRunHasNoDash(s: string, n: nat)
    requires HexRun(s, n)
    ensures Count(s, '-') == 0
  {
    assert !IsHexDigit('-');
    CountAbsent(s, '-');
  }

  /** A valid UUID has exactly its four separating dashes. */
  lemma UuidHasFourDashes(s: string)
    requires IsValidUuid(s)
    ensures Count(s, '-') == 4
  {
    HexRunHasNoDash(s[..8], 8);
    HexRunHasNoDash(s[9..13], 4);
    HexRunHasNoDash(s[14..18], 4);
    HexRunHasNoDash(s[19..23], 4);
    HexRunHasNoDash(s[24..], 12);
    CountSplit(s, 8, '-');
    var r1 := s[9..];
    assert r1[..4] == s[9..13] && r1[4] == '-' && r1[5..] == s[14..];
    CountSplit(r1, 4, '-');
    var r2 := s[14..];
    assert r2[..4] == s[14..18] && r2[4] == '-' && r2[5..] == s[19..];
    CountSplit(r2, 4, '-');
    var r3 := s[19..];
    assert r3[..4] == s[19..23] && r3[4] == '-' && r3[5..] == s[24..];
    CountSplit(r3, 4, '-');
  }

  // ----------------------------------------------------------------- phone

  /** `[\d\s\-()]`. */
  predicate PhoneChar(c: char) {
    IsDigit(c) || IsWhitespace(c) || c == '-' || c == '(' || c == ')'
  }

  predicate PhoneRun(s: string) {
    |s| > 0 && forall i :: 0 <= i < |s| ==> PhoneChar(s[i])
  }

  /** `phone.replace(/\D/g, '').length`. */
  function DigitCount(s: string): (n: nat)
    ensures n <= |s|
  {
    if s == [] then 0 else (if IsDigit(s[0]) then 1 else 0) + DigitCount(s[1..])
  }

  /** is_valid_phone: `^\+?[\d\s\-()]+$` and at least ten digits. */
  predicate IsValidPhone(s: string) {
    (PhoneRun(s) || (|s| > 0 && s[0] == '+' && PhoneRun(s[1..]))) && DigitCount(s) >= 10
  }

  /** A valid phone number is at least ten characters long, and its only
      characters outside digits, white space, `-`, `(` and `)` is a leading `+`. */
  lemma PhoneShape(s: string)
    requires IsValidPhone(s)
    ensures |s| >= 10
    ensures forall i :: 0 <= i < |s| ==> PhoneChar(s[i]) || (i == 0 && s[i] == '+')
  {
    if !PhoneRun(s) {
      forall i | 1 <= i < |s| ensures PhoneChar(s[i]) {
        assert s[i] == s[1..][i - 1];
      }
    }
  }

  // ------------------------------------------------------------------ HTML

  /** The entity the server-side `sanitize_html` writes for a character. */
  function Entity(c: char): string {
    if c == '&' then "&amp;"
    else if c == '<' then "&lt;"
    else if c == '>' then "&gt;"
    else if c == '"' then "&quot;"
    else if c == '\'' then "&#39;"
    else [c]
  }

  predicate Unsafe(c: char) {
    c == '<' || c == '>' || c == '"' || c == '\''
  }

  /** sanitize_html when no DOM is available: every `& < > " '` becomes its
      entity, every other character is kept. */
  function SanitizeHtml(html: string): (r: string)
    ensures forall i :: 0 <= i < |r| ==> !Unsafe(r[i])
    ensures |r| >= |html|
  {
    if html == [] then [] else Entity(html[0]) + SanitizeHtml(html[1..])
  }

  /** Reads the five entities back; the inverse of `SanitizeHtml`. */
  function UnescapeHtml(s: string): string
    decreases |s|
  {
    if s == [] then []
    else if |s| >= 5 && s[..5] == "&amp;" then "&" + UnescapeHtml(s[5..])
    else if |s| >= 4 && s[..4] == "&lt;" then "<" + UnescapeHtml(s[4..])
    else if |s| >= 4 && s[..4] == "&gt;" then ">" + UnescapeHtml(s[4..])
    else if |s| >= 6 && s[..6] == "&quot;" then "\"" + UnescapeHtml(s[6..])
    else if |s| >= 5 && s[..5] == "&#39;" then "'" + UnescapeHtml(s[5..])
    else [s[0]] + UnescapeHtml(s[1..])
  }

  lemma UnescapeEntity(c: char, rest: string)
    ensures UnescapeHtml(Entity(c) + rest) == [c] + UnescapeHtml(rest)
  {
    var t := Entity(c) + rest;
    if c == '&' {
      assert t[..5] == "&amp;" && t[5..] == rest;
    } else if c == '<' {
      assert |t| < 5 || t[..5] != "&amp;" by { assert |t| < 5 || t[..5][1] == 'l'; }
      assert t[..4] == "&lt;" && t[4..] == rest;
    } else if c == '>' {
      assert |t| < 5 || t[..5] != "&amp;" by { assert |t| < 5 || t[..5][1] == 'g'; }
      assert t[..4] != "&lt;" by { assert t[..4][1] == 'g'; }
      assert t[..4] == "&gt;" && t[4..] == rest;
    } else if c == '"' {
      assert t[..5] != "&amp;" by { assert t[..5][1] == 'q'; }
      assert t[..4] != "&lt;" && t[..4] != "&gt;" by { assert t[..4][1] == 'q'; }
      assert t[..6] == "&quot;" && t[6..] == rest;
    } else if c == '\'' {
      assert t[..5] != "&amp;" by { assert t[..5][1] == '#'; }
      assert t[..4] != "&lt;" && t[..4] != "&gt;" by { assert t[..4][1] == '#'; }
      assert |t| < 6 || t[..6] != "&quot;" by { assert |t| < 6 || t[..6][1] == '#'; }
      assert t[..5] == "&#39;" && t[5..] == rest;
    } else {
      assert t[0] == c && t[1..] == rest;
      assert |t| < 4 || t[..4][0] == c;
      assert |t| < 5 || t[..5][0] == c;
      assert |t| < 6 || t[..6][0] == c;
    }
  }

  /** Escaping loses nothing: the original text is recovered from it. */
  lemma {:induction false} SanitizeRoundTrip(html: string)
    ensures UnescapeHtml(SanitizeHtml(html)) == html
  {
    if html != [] {
      UnescapeEntity(html[0], SanitizeHtml(html[1..]));
      SanitizeRoundTrip(html[1..]);
      assert html == [html[0]] + html[1..];
    }
  }

  // ------------------------------------------------------------ validators

  /** validate_required: a message exactly for `null`, `undefined` and `''`
      (`0` and `false` pass). */
  function ValidateRequired(value: Option<Value>, fieldName: string): (r: Option<string>)
    ensures r.Some? <==> value == None || value == Some(Null) || value == Some(Str(""))
    ensures r.Some? ==> r.value == fieldName + " is required"
  {
    match value
    case None => Some(fieldName + " is required")
    case Some(Null) => Some(fieldName + " is required")
    case Some(Str(s)) => if s == "" then Some(fieldName + " is required") else None
    case Some(_) => None
  }

  /** validate_min_length; `value.length` counts UTF-16 code units. */
  function ValidateMinLength(value: string, min: int, fieldName: string): (r: Option<string>)
    ensures r.None? <==> Utf16Length(value) >= min
    ensures r.Some? ==> r.value == fieldName + " must be at least " + IntToString(min) + " characters"
  {
    if Utf16Length(value) < min then Some(fieldName + " must be at least " + IntToString(min) + " characters") else None
  }

  /** validate_max_length; `value.length` counts UTF-16 code units. */
  function ValidateMaxLength(value: string, max: int, fieldName: string): (r: Option<string>)
    ensures r.None? <==> Utf16Length(value) <= max
    ensures r.Some? ==> r.value == fieldName + " must be no more than " + IntToString(max) + " characters"
  {
    if Utf16Length(value) > max then Some(fieldName + " must be no more than " + IntToString(max) + " characters") else None
  }

  /** A character outside the Basic Multilingual Plane counts twice
      against the length bounds, as `.length` counts it. */
  lemma LengthBoundsCountCodeUnits(c: char, fieldName: string)
    requires c as int >= 0x1_0000
    ensures ValidateMinLength([c], 2, fieldName).None?
    ensures ValidateMaxLength([c], 1, fieldName).Some?
  {
    AstralCharHasLengthTwo(c);
  }

  function ValidateRange(value: int, min: int, max: int, fieldName: string): (r: Option<string>)
    ensures r.None? <==> min <= value <= max
    ensures r.Some? ==> r.value == fieldName + " must be between " + IntToString(min) + " and " + IntToString(max)
  {
    if value < min || value > max then Some(fieldName + " must be between " + IntToString(min) + " and " + IntToString(max)) else None
  }

  /** collect_validation_errors: run every validator and keep the messages,
      in validator order. */
  function CollectValidationErrors(validators: seq<() -> Option<string>>): (errors: seq<string>)
    ensures |errors| <= |validators|
    ensures forall x :: x in errors ==> exists i :: 0 <= i < |validators| && validators[i]() == Some(x)
    ensures forall i :: 0 <= i < |validators| && validators[i]().Some? ==> validators[i]().value in errors
  {
    if validators == [] then []
    else
      var rest := CollectValidationErrors(validators[1..]);
      assert forall i :: 1 <= i < |validators| ==> validators[i] == validators[1..][i - 1];
      match validators[0]()
      case Some(message) => [message] + rest
      case None => rest
  }

  /** Messages come out in validator order: collecting over two lists of
      validators is collecting over each and concatenating. */
  lemma {:induction false} CollectPreservesOrder(first: seq<() -> Option<string>>, second: seq<() -> Option<string>>)
    ensures CollectValidationErrors(first + second) == CollectValidationErrors(first) + CollectValidationErrors(second)
  {
    if first == [] {
      assert first + second == second;
    } else {
      assert (first + second)[1..] == first[1..] + second;
      CollectPreservesOrder(first[1..], second);
    }
  }

  /** No message is collected exactly when every validator passes. */
  lemma CollectEmptyIff(validators: seq<() -> Option<string>>)
    ensures CollectValidationErrors(validators) == [] <==> forall i :: 0 <= i < |validators| ==> validators[i]() == None
  {
    var errors := CollectValidationErrors(validators);
    if errors != [] {
      assert errors[0] in errors;
    }
  }
}
