/** The column transformers: the base pass-through transformer, the three
    built-in ones of the parser (upper case, lower case, strip) and the
    parametrised example transformers (title case, prefix, phone number,
    truncation, default value). A transformer object is modelled by the
    parameters it captured when it was built; `Apply` is its `transform`. */
module Transformers {
  import Text

  datatype Transformer =
    | Identity
    | UpperCase
    | LowerCase
    | Strip
    | TitleCase
    | Prefix(prefix: string)
    | PhoneFormat
    | Truncate(maxLength: int, suffix: string := "...")
    | DefaultValue(defaultValue: string := "N/A")

  /** The transformers that return an empty (falsy) value as it is. */
  predicate ShortCircuits(t: Transformer) {
    t.UpperCase? || t.LowerCase? || t.Strip? || t.TitleCase?
  }

  /** Python's `text[:k]`, where a negative bound counts back from the end and
      a bound past either end is clamped to it. */
  function SliceTo(text: string, k: int): (r: string)
    ensures r <= text
    ensures k >= 0 ==> |r| == (if k <= |text| then k else |text|)
    ensures k < 0 ==> |r| == (if |text| + k >= 0 then |text| + k else 0)
  {
    if k >= 0 then (if k <= |text| then text[..k] else text)
    else if |text| + k >= 0 then text[..|text| + k]
    else []
  }

  lemma PunctuationHasNoDigits()
    ensures Text.Digits("(") == [] && Text.Digits(") ") == [] && Text.Digits("-") == []
  {
  }

  /** The digits of `(abc) def-ghij` are `abcdefghij`, for digit strings
      `abc`, `def` and `ghij`. */
  lemma {:induction false} DigitsOfPhoneLayout(a: string, b: string, c: string)
    requires Text.Digits(a) == a && Text.Digits(b) == b && Text.Digits(c) == c
    ensures Text.Digits("(" + a + ") " + b + "-" + c) == a + b + c
  {
    PunctuationHasNoDigits();
    var s1 := "(" + a;
    Text.DigitsAppend("(", a);
    assert Text.Digits(s1) == a;
    var s2 := s1 + ") ";
    Text.DigitsAppend(s1, ") ");
    assert Text.Digits(s2) == a;
    var s3 := s2 + b;
    Text.DigitsAppend(s2, b);
    assert Text.Digits(s3) == a + b;
    var s4 := s3 + "-";
    Text.DigitsAppend(s3, "-");
    assert Text.Digits(s4) == a + b;
    Text.DigitsAppend(s4, c);
  }

  /** The digits of the phone layout built from ten digits are those digits. */
  lemma DigitsOfTenDigitLayout(d: string)
    requires |d| == 10 && forall i :: 0 <= i < |d| ==> Text.IsDigit(d[i])
    ensures Text.Digits("(" + d[..3] + ") " + d[3..6] + "-" + d[6..]) == d
  {
    assert d == d[..3] + d[3..6] + d[6..];
    Text.DigitsOfDigits(d[..3]);
    Text.DigitsOfDigits(d[3..6]);
    Text.DigitsOfDigits(d[6..]);
    DigitsOfPhoneLayout(d[..3], d[3..6], d[6..]);
  }

  /** `(XXX) XXX-XXXX` from the digits of a value that has exactly ten of
      them; any other value as it is. */
  function FormatPhone(value: string): string {
    var d := Text.Digits(value);
    if |d| == 10 then "(" + d[..3] + ") " + d[3..6] + "-" + d[6..] else value
  }

  /** `text` cut so that, with `suffix` appended, it fits `maxLength`, when it
      is longer than `maxLength`; otherwise `text` as it is. */
  function Truncated(text: string, maxLength: int, suffix: string): string {
    if |text| > maxLength then SliceTo(text, maxLength - |suffix|) + suffix else text
  }

  /** The default for an empty or whitespace-only value, the value otherwise. */
  function OrDefault(value: string, defaultValue: string): (r: string)
    ensures r == if Text.AllSpace(value) then defaultValue else value
  {
    Text.StripEmptyIff(value);
    if value == "" || Text.Strip(value) == "" then defaultValue else value
  }

  /** `transform(value)` of the transformer `t`. */
  function Apply(t: Transformer, value: string): string {
    match t
    case Identity => value
    case UpperCase => if value != "" then Text.ToUpper(value) else value
    case LowerCase => if value != "" then Text.ToLower(value) else value
    case Strip => if value != "" then Text.Strip(value) else value
    case TitleCase => if value != "" then Text.TitleCase(value) else value
    case Prefix(p) => p + value
    case PhoneFormat => FormatPhone(value)
    case Truncate(n, suffix) => Truncated(value, n, suffix)
    case DefaultValue(d) => OrDefault(value, d)
  }

  lemma IdentityKeepsValue(value: string)
    ensures Apply(Identity, value) == value
  {
  }

  /** Upper, lower, strip and title case give back an empty value unchanged. */
  lemma EmptyShortCircuit(t: Transformer)
    requires ShortCircuits(t)
    ensures Apply(t, "") == ""
  {
  }

  /** Upper and lower case change each letter and nothing else: the length is
      kept, the result has no letter of the other case, every letter stays
      the same letter up to case, and every other character stays where it
      was. */
  lemma CaseMapping(t: Transformer, value: string)
    requires t.UpperCase? || t.LowerCase?
    ensures |Apply(t, value)| == |value|
    ensures forall i :: 0 <= i < |value| ==>
      && Text.IsLetter(Apply(t, value)[i]) == Text.IsLetter(value[i])
      && (t.UpperCase? ==> !Text.IsLower(Apply(t, value)[i]))
      && (t.LowerCase? ==> !Text.IsUpper(Apply(t, value)[i]))
      && (!Text.IsLetter(value[i]) ==> Apply(t, value)[i] == value[i])
      && Text.LowerChar(Apply(t, value)[i]) == Text.LowerChar(value[i])
  {
  }

  /** Strip cuts off whitespace at both ends and only there: the result is the
      slice of the value after its `Leading` whitespace characters, with only
      whitespace after it, no whitespace at either of its ends, and it is
      empty exactly when the value is all whitespace. */
  lemma StripTrims(value: string)
    ensures var r := Apply(Strip, value); var k := Text.Leading(value);
      && (r == [] <==> Text.AllSpace(value))
      && (r == [] || (!Text.IsSpace(r[0]) && !Text.IsSpace(r[|r| - 1])))
      && k + |r| <= |value|
      && (forall i :: 0 <= i < |r| ==> r[i] == value[k + i])
      && (forall i :: 0 <= i < k ==> Text.IsSpace(value[i]))
      && (forall i :: k + |r| <= i < |value| ==> Text.IsSpace(value[i]))
  {
    Text.StripSpec(value);
    Text.StripEmptyIff(value);
  }

  /** Applying a short-circuiting transformer twice is the same as once. */
  lemma ShortCircuitIdempotent(t: Transformer, value: string)
    requires ShortCircuits(t)
    ensures Apply(t, Apply(t, value)) == Apply(t, value)
  {
    if value != "" {
      match t
      case UpperCase => Text.UpperIdempotent(value);
      case LowerCase => Text.LowerIdempotent(value);
      case Strip => Text.StripIdempotent(value);
      case TitleCase => Text.TitleIdempotent(value);
    }
  }

  lemma PrefixPrepends(p: string, value: string)
    ensures Apply(Prefix(p), value) == p + value
  {
  }

  /** A value with exactly ten digits becomes `(XXX) XXX-XXXX`, fourteen
      characters whose digits are the value's digits in order; any other
      value is returned as it is. */
  lemma PhoneFormatting(value: string)
    ensures var r := Apply(PhoneFormat, value);
      && (|Text.Digits(value)| == 10 ==>
            && |r| == 14 && r[0] == '(' && r[4] == ')' && r[5] == ' ' && r[9] == '-'
            && Text.Digits(r) == Text.Digits(value))
      && (|Text.Digits(value)| != 10 ==> r == value)
  {
    var d := Text.Digits(value);
    if |d| == 10 {
      DigitsOfTenDigitLayout(d);
    }
  }

  /** Formatting an already formatted phone number changes nothing. */
  lemma PhoneFormatIdempotent(value: string)
    ensures Apply(PhoneFormat, Apply(PhoneFormat, value)) == Apply(PhoneFormat, value)
  {
    PhoneFormatting(value);
    var d := Text.Digits(value);
    if |d| == 10 {
      var r := FormatPhone(value);
      assert Text.Digits(r) == d;
    }
  }

  /** Text no longer than the limit is returned as it is; longer text always
      ends with the suffix, and when the suffix fits the limit the result is
      exactly `maxLength` long and starts with the text's first
      `maxLength - |suffix|` characters. */
  lemma TruncateFits(maxLength: int, suffix: string, text: string)
    ensures var r := Apply(Truncate(maxLength, suffix), text);
      && (|text| <= maxLength ==> r == text)
      && (|text| > maxLength ==> |r| >= |suffix| && r[|r| - |suffix|..] == suffix)
      && (|suffix| <= maxLength < |text| ==>
            |r| == maxLength && r == text[..maxLength - |suffix|] + suffix)
  {
  }

  /** With a suffix longer than the limit (a negative limit included), the
      negative slice bound counts back from the end of the text, so the
      result is longer than the limit. */
  lemma TruncateOverlongSuffix(maxLength: int, suffix: string, text: string)
    requires maxLength < |suffix| && maxLength < |text|
    ensures var r := Apply(Truncate(maxLength, suffix), text);
      |r| >= |suffix| && r[..|r| - |suffix|] <= text
    ensures |Apply(Truncate(maxLength, suffix), text)| > maxLength
    ensures |Apply(Truncate(maxLength, suffix), text)|
            == |suffix| + (if |text| + maxLength >= |suffix| then |text| + maxLength - |suffix| else 0)
  {
  }

  /** An empty or whitespace-only value becomes the default, any other value
      is kept. */
  lemma DefaultFillsBlank(d: string, value: string)
    ensures Apply(DefaultValue(d), value) == if Text.AllSpace(value) then d else value
  {
  }
}
