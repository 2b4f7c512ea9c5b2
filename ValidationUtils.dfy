/**
 * The generic field validators of the admin panel (admin/src/utils/validationUtils.js).
 * Each takes the field's value and its configuration and returns an error message, or
 * None (`null`) when the value is acceptable. Regular expressions are written out as
 * predicates over characters.
 */
module ValidationUtils {
  import opened Wrappers
  import opened Strings
  import opened Numbers
  import opened Sequences
  import opened MenuDataUtils

  /** A numeric bound of a configuration with the text `String(value)` renders it as. */
  datatype Bound = Bound(value: real, text: string)

  datatype Messages = Messages(required: string, minLength: string, maxLength: string, invalid: string,
    min: string, max: string)

  /** A field configuration; None is a setting left out of the object (`undefined`). */
  datatype FieldConfig = FieldConfig(required: bool, minLength: Option<nat>, maxLength: Option<nat>,
    min: Option<Bound>, max: Option<Bound>, errorMessages: Messages)

  /** `!value || value.trim().length === 0`, with None for null or undefined. */
  predicate Blank(value: Option<string>) {
    value.None? || |Trim(value.value)| == 0
  }

  /** The answer shared by every validator for a blank value. */
  function BlankResult(config: FieldConfig): (r: Option<string>)
    ensures r.Some? <==> config.required
    ensures r.Some? ==> r.value == config.errorMessages.required
  {
    if config.required then Some(config.errorMessages.required) else None
  }

  // ---------------------------------------------------------------------------
  // formatErrorMessage
  // ---------------------------------------------------------------------------

  /** `String(x)` of a length setting: "undefined" when it is absent. */
  function LengthText(x: Option<nat>): (r: string)
    ensures '{' !in r
  {
    match x
    case None => "undefined"
    case Some(n) =>
      var s := NatToString(n);
      assert forall i :: 0 <= i < |s| ==> IsDigit(s[i]);
      s
  }

  function BoundText(x: Option<Bound>): string {
    match x
    case None => "undefined"
    case Some(b) => b.text
  }

  /** `formatErrorMessage(message, config)`: each placeholder's first occurrence, in turn. */
  function FormatErrorMessage(message: string, config: FieldConfig): string {
    FormatBounds(ReplaceFirst(message, "{minLength}", LengthText(config.minLength)), config)
  }

  /** The replacements after the one of `{minLength}`. */
  function FormatBounds(s1: string, config: FieldConfig): string {
    var s2 := ReplaceFirst(s1, "{maxLength}", LengthText(config.maxLength));
    var s3 := ReplaceFirst(s2, "{min}", BoundText(config.min));
    ReplaceFirst(s3, "{max}", BoundText(config.max))
  }

  /** A message without any `{` comes back unchanged. */
  lemma FormatWithoutPlaceholders(message: string, config: FieldConfig)
    requires '{' !in message
    ensures FormatErrorMessage(message, config) == message
  {
    AbsentFirstChar(message, "{minLength}");
    FormatBoundsWithoutPlaceholders(message, config);
  }

  lemma FormatBoundsWithoutPlaceholders(message: string, config: FieldConfig)
    requires '{' !in message
    ensures FormatBounds(message, config) == message
  {
    AbsentFirstChar(message, "{maxLength}");
    AbsentFirstChar(message, "{min}");
    AbsentFirstChar(message, "{max}");
  }

  /** A message with one `{minLength}` and no other `{` gets the configured length in its place. */
  lemma FormatMinLength(pre: string, post: string, config: FieldConfig)
    requires '{' !in pre && '{' !in post
    ensures FormatErrorMessage(pre + "{minLength}" + post, config) == pre + LengthText(config.minLength) + post
  {
    var message := pre + "{minLength}" + post;
    var pat := "{minLength}";
    assert OccursAt(message, pat, |pre|);
    forall j: nat | j < |pre| ensures !OccursAt(message, pat, j) {
      assert message[j] == pre[j];
    }
    ReplaceFirstAt(message, pat, LengthText(config.minLength), |pre|);
    var s1 := pre + LengthText(config.minLength) + post;
    assert message[..|pre|] == pre && message[|pre| + |pat|..] == post;
    assert '{' !in s1;
    FormatBoundsWithoutPlaceholders(s1, config);
  }

  // ---------------------------------------------------------------------------
  // Text, price and URL fields
  // ---------------------------------------------------------------------------

  /** `validateTextField(value, fieldConfig)`: required, then minLength, then maxLength, on the trimmed value. */
  function ValidateTextField(value: Option<string>, config: FieldConfig): (r: Option<string>)
    ensures Blank(value) ==> r == BlankResult(config)
    ensures !Blank(value) ==>
      var n := |Trim(value.value)|;
      && (config.minLength.Some? && n < config.minLength.value
        ==> r == Some(FormatErrorMessage(config.errorMessages.minLength, config)))
      && ((config.minLength.None? || n >= config.minLength.value)
        && config.maxLength.Some? && config.maxLength.value > 0 && n > config.maxLength.value
        ==> r == Some(FormatErrorMessage(config.errorMessages.maxLength, config)))
      && (r.None? <==> ((config.minLength.None? || n >= config.minLength.value)
        && (config.maxLength.None? || config.maxLength.value == 0 || n <= config.maxLength.value)))
  {
    if Blank(value) then BlankResult(config)
    else
      var trimmedValue := Trim(value.value);
      if config.minLength.Some? && |trimmedValue| < config.minLength.value then
        Some(FormatErrorMessage(config.errorMessages.minLength, config))
      else if config.maxLength.Some? && config.maxLength.value != 0 && |trimmedValue| > config.maxLength.value then
        Some(FormatErrorMessage(config.errorMessages.maxLength, config))
      else None
  }

  /** `validatePriceField(value, fieldConfig)`: required, then NaN, then min, then max. */
  function ValidatePriceField(value: Value, config: FieldConfig): (r: Option<string>)
    ensures (value == Undefined || value == Null || value == Str("")) ==> r == BlankResult(config)
    ensures !(value == Undefined || value == Null || value == Str("")) ==>
      && (PriceOf(value).None? ==> r == Some(config.errorMessages.invalid))
      && (PriceOf(value).Some? && config.min.Some? && PriceOf(value).value < config.min.value.value
        ==> r == Some(FormatErrorMessage(config.errorMessages.min, config)))
      && (PriceOf(value).Some? && (config.min.None? || PriceOf(value).value >= config.min.value.value)
        && config.max.Some? && config.max.value.value != 0.0 && PriceOf(value).value > config.max.value.value
        ==> r == Some(FormatErrorMessage(config.errorMessages.max, config)))
      && (r.None? <==> (PriceOf(value).Some?
        && (config.min.None? || PriceOf(value).value >= config.min.value.value)
        && (config.max.None? || config.max.value.value == 0.0 || PriceOf(value).value <= config.max.value.value)))
  {
    if value == Undefined || value == Null || value == Str("") then BlankResult(config)
    else
      match PriceOf(value)
      case None => Some(config.errorMessages.invalid)
      case Some(priceNum) =>
        if config.min.Some? && priceNum < config.min.value.value then
          Some(FormatErrorMessage(config.errorMessages.min, config))
        else if config.max.Some? && config.max.value.value != 0.0 && priceNum > config.max.value.value then
          Some(FormatErrorMessage(config.errorMessages.max, config))
        else None
  }

  /** `validateUrlField(value, fieldConfig)`, given whether the URL constructor accepts the value. */
  function ValidateUrlField(value: Option<string>, config: FieldConfig, urlParses: bool): (r: Option<string>)
    ensures Blank(value) ==> r == BlankResult(config)
    ensures !Blank(value) ==> (r.None? <==> urlParses) && (r.Some? ==> r.value == config.errorMessages.invalid)
  {
    if Blank(value) then BlankResult(config)
    else if urlParses then None
    else Some(config.errorMessages.invalid)
  }

  // ---------------------------------------------------------------------------
  // Email: /^[^\s@]+@[^\s@]+\.[^\s@]+$/
  // ---------------------------------------------------------------------------

  predicate EmailChar(c: char) {
    !IsSpace(c) && c != '@'
  }

  predicate AllEmailChars(s: string) {
    forall i :: 0 <= i < |s| ==> EmailChar(s[i])
  }

  /** The pattern as written: three non-empty runs without spaces or '@', joined by '@' and '.'. */
  ghost predicate EmailPattern(s: string) {
    exists a, b, c :: s == a + "@" + b + "." + c && a != [] && b != [] && c != []
      && AllEmailChars(a) && AllEmailChars(b) && AllEmailChars(c)
  }

  /** The check without backtracking: one '@' after a non-empty name, and a '.' with text on both sides after it. */
  predicate IsEmail(s: string) {
    (forall i :: 0 <= i < |s| ==> !IsSpace(s[i]))
    && '@' in s
    && var at := IndexOfChar(s, '@');
    && at > 0
    && '@' !in s[at + 1..]
    && exists j :: at + 1 < j < |s| - 1 && s[j] == '.'
  }

  lemma IsEmailMatchesPattern(s: string)
    ensures IsEmail(s) <==> EmailPattern(s)
  {
    if IsEmail(s) {
      IsEmailToPattern(s);
    }
    if EmailPattern(s) {
      var a, b, c :| s == a + "@" + b + "." + c && a != [] && b != [] && c != []
        && AllEmailChars(a) && AllEmailChars(b) && AllEmailChars(c);
      PatternToIsEmail(s, a, b, c);
    }
  }

  lemma IsEmailToPattern(s: string)
    requires IsEmail(s)
    ensures EmailPattern(s)
  {
    var at := IndexOfChar(s, '@');
    var j :| at + 1 < j < |s| - 1 && s[j] == '.';
    var a, b, c := s[..at], s[at + 1..j], s[j + 1..];
    assert s == a + "@" + b + "." + c;
    assert AllEmailChars(a);
    assert AllEmailChars(b) by {
      forall i | 0 <= i < |b| ensures EmailChar(b[i]) {
        assert b[i] == s[at + 1..][i];
      }
    }
    assert AllEmailChars(c) by {
      forall i | 0 <= i < |c| ensures EmailChar(c[i]) {
        assert c[i] == s[j + 1 + i];
        assert s[j + 1 + i] == s[at + 1..][j - at + i];
      }
    }
  }

  lemma PatternToIsEmail(s: string, a: string, b: string, c: string)
    requires s == a + "@" + b + "." + c && a != [] && b != [] && c != []
    requires AllEmailChars(a) && AllEmailChars(b) && AllEmailChars(c)
    ensures IsEmail(s)
  {
    assert forall i :: 0 <= i < |s| ==> !IsSpace(s[i]) by {
      forall i | 0 <= i < |s| ensures !IsSpace(s[i]) {
        if i < |a| { assert s[i] == a[i]; }
        else if i == |a| { assert s[i] == '@'; }
        else if i < |a| + 1 + |b| { assert s[i] == b[i - |a| - 1]; }
        else if i == |a| + 1 + |b| { assert s[i] == '.'; }
        else { assert s[i] == c[i - |a| - 2 - |b|]; }
      }
    }
    assert s[|a|] == '@';
    assert forall i :: 0 <= i < |a| ==> s[i] == a[i];
    var at := IndexOfChar(s, '@');
    assert at == |a|;
    var rest := s[at + 1..];
    assert rest == b + "." + c;
    assert '@' !in rest by {
      forall i | 0 <= i < |rest| ensures rest[i] != '@' {
        if i < |b| { assert rest[i] == b[i]; }
        else if i > |b| { assert rest[i] == c[i - |b| - 1]; }
      }
    }
    var j := |a| + 1 + |b|;
    assert s[j] == '.';
  }

  /** `validateEmailField(value, fieldConfig)`. */
  function ValidateEmailField(value: Option<string>, config: FieldConfig): (r: Option<string>)
    ensures Blank(value) ==> r == BlankResult(config)
    ensures !Blank(value) ==> ((r.None? <==> EmailPattern(Trim(value.value)))
      && (r.Some? ==> r.value == config.errorMessages.invalid))
  {
    if Blank(value) then BlankResult(config)
    else
      IsEmailMatchesPattern(Trim(value.value));
      if !IsEmail(Trim(value.value)) then Some(config.errorMessages.invalid) else None
  }

  // ---------------------------------------------------------------------------
  // Phone: /^\+?[\d\s\-()]+$/ and the digit count
  // ---------------------------------------------------------------------------

  predicate PhoneChar(c: char) {
    IsDigit(c) || IsSpace(c) || c == '-' || c == '(' || c == ')'
  }

  /** An optional leading '+' followed by one or more digits, spaces, '-', '(' or ')'. */
  predicate IsPhone(s: string) {
    PhoneBody(if |s| > 0 && s[0] == '+' then s[1..] else s)
  }

  /** `[\d\s\-()]+`. */
  predicate PhoneBody(body: string) {
    |body| > 0 && forall i :: 0 <= i < |body| ==> PhoneChar(body[i])
  }

  /** `value.replace(/\D/g, '')`. */
  function DigitsOnly(s: string): (r: string)
    ensures AllDigits(r) && |r| <= |s|
    ensures forall c :: c in r <==> c in s && IsDigit(c)
  {
    Filter(s, IsDigit)
  }

  /** `validatePhoneField(value, fieldConfig)`: the shape of the trimmed value, then the number of digits. */
  function ValidatePhoneField(value: Option<string>, config: FieldConfig): (r: Option<string>)
    ensures Blank(value) ==> r == BlankResult(config)
    ensures !Blank(value) ==>
      && (r == Some(config.errorMessages.invalid) <== !IsPhone(Trim(value.value)))
      && (IsPhone(Trim(value.value)) && config.minLength.Some? && |DigitsOnly(value.value)| < config.minLength.value
        ==> r == Some(FormatErrorMessage(config.errorMessages.minLength, config)))
      && (r.None? <==> (IsPhone(Trim(value.value))
        && (config.minLength.None? || |DigitsOnly(value.value)| >= config.minLength.value)))
  {
    if Blank(value) then BlankResult(config)
    else if !IsPhone(Trim(value.value)) then Some(config.errorMessages.invalid)
    else if config.minLength.Some? && |DigitsOnly(value.value)| < config.minLength.value then
      Some(FormatErrorMessage(config.errorMessages.minLength, config))
    else None
  }

  /** A character outside the allowed set anywhere in the trimmed number is refused, '+' included after the start. */
  lemma PhoneRejectsOtherChars(s: string, i: nat)
    requires i < |s| && !PhoneChar(s[i]) && (i > 0 || s[i] != '+')
    ensures !IsPhone(s)
  {
    var body := if |s| > 0 && s[0] == '+' then s[1..] else s;
    var k := if |s| > 0 && s[0] == '+' then i - 1 else i;
    assert 0 <= k < |body| && body[k] == s[i];
  }

  // ---------------------------------------------------------------------------
  // Postal code: /^\d{5}$/
  // ---------------------------------------------------------------------------

  /** `validatePostalCodeField(value, fieldConfig)`: exactly five digits once trimmed. */
  function ValidatePostalCodeField(value: Option<string>, config: FieldConfig): (r: Option<string>)
    ensures Blank(value) ==> r == BlankResult(config)
    ensures !Blank(value) ==>
      (r.None? <==> |Trim(value.value)| == 5 && AllDigits(Trim(value.value)))
      && (r.Some? ==> r.value == config.errorMessages.invalid)
  {
    if Blank(value) then BlankResult(config)
    else
      var trimmedValue := Trim(value.value);
      if !(|trimmedValue| == 5 && AllDigits(trimmedValue)) then Some(config.errorMessages.invalid) else None
  }

  // ---------------------------------------------------------------------------
  // Time: /^([01]\d|2[0-3]):([0-5]\d)$/
  // ---------------------------------------------------------------------------

  /** The pattern, character by character. */
  predicate IsTime(s: string) {
    |s| == 5 && s[2] == ':'
    && ((s[0] in "01" && IsDigit(s[1])) || (s[0] == '2' && s[1] in "0123"))
    && s[3] in "012345" && IsDigit(s[4])
  }

  /** A number below 100 written with two digits. */
  function TwoDigits(n: nat): (r: string)
    requires n < 100
    ensures |r| == 2 && IsDigit(r[0]) && IsDigit(r[1])
  {
    [DigitChar(n / 10), DigitChar(n % 10)]
  }

  /** The pattern accepts exactly the times 00:00 to 23:59 written as HH:MM. */
  lemma IsTimeIff(s: string)
    ensures IsTime(s) <==> exists h: nat, m: nat :: h < 24 && m < 60 && s == TwoDigits(h) + ":" + TwoDigits(m)
  {
    if IsTime(s) {
      var h, m := TimeOfPattern(s);
    }
    if exists h: nat, m: nat :: h < 24 && m < 60 && s == TwoDigits(h) + ":" + TwoDigits(m) {
      var h: nat, m: nat :| h < 24 && m < 60 && s == TwoDigits(h) + ":" + TwoDigits(m);
      PatternOfTime(h, m);
    }
  }

  /** A string the pattern accepts is the hour and minute its digits spell. */
  lemma TimeOfPattern(s: string) returns (h: nat, m: nat)
    requires IsTime(s)
    ensures h < 24 && m < 60 && s == TwoDigits(h) + ":" + TwoDigits(m)
  {
    h := 10 * DigitValue(s[0]) + DigitValue(s[1]);
    m := 10 * DigitValue(s[3]) + DigitValue(s[4]);
    assert h / 10 == DigitValue(s[0]) && h % 10 == DigitValue(s[1]);
    assert m / 10 == DigitValue(s[3]) && m % 10 == DigitValue(s[4]);
  }

  /** Every time from 00:00 to 23:59 written as HH:MM is accepted. */
  lemma PatternOfTime(h: nat, m: nat)
    requires h < 24 && m < 60
    ensures IsTime(TwoDigits(h) + ":" + TwoDigits(m))
  {
    var s := TwoDigits(h) + ":" + TwoDigits(m);
    assert s[0] == DigitChar(h / 10) && s[1] == DigitChar(h % 10);
    assert s[3] == DigitChar(m / 10) && s[4] == DigitChar(m % 10);
    assert h / 10 <= 2 && m / 10 <= 5;
    if h / 10 == 2 {
      assert h % 10 <= 3;
    }
  }

  /** `validateTimeField(value, fieldConfig)`. */
  function ValidateTimeField(value: Option<string>, config: FieldConfig): (r: Option<string>)
    ensures Blank(value) ==> r == BlankResult(config)
    ensures !Blank(value) ==> ((r.None? <==> IsTime(Trim(value.value)))
      && (r.Some? ==> r.value == config.errorMessages.invalid))
  {
    if Blank(value) then BlankResult(config)
    else if !IsTime(Trim(value.value)) then Some(config.errorMessages.invalid)
    else None
  }
}
