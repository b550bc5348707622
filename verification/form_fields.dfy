/**
 * The field definitions of the configurable lead forms and the value checks
 * that the form component (in the browser) and the submit endpoint (on the
 * server) both apply: emptiness as JavaScript judges it, the e-mail and phone
 * shapes, and the length and pattern limits of text fields.
 */
module FormFields {
  import opened Text

  /** A submitted value: text, the ticked options of a checkbox group, a flag, a number, or nothing. */
  datatype Value = Absent | Str(s: string) | List(items: seq<string>) | Flag(b: bool) | Num(n: int)

  datatype FieldKind = TextField | Email | Phone | TextArea | Select | Checkbox | Radio

  /** Optional limits of a text field; a limit of 0 counts as absent (JavaScript falsiness). */
  datatype Validation = Validation(minLength: Option<int>, maxLength: Option<int>, pattern: Option<string>)

  /** A form field (`label` is the field `title` here). */
  datatype FormField = FormField(id: string, kind: FieldKind, title: string, required: bool, validation: Validation)

  /** `!value`: nothing, empty text, `false` and `0` are falsy; every array is truthy. */
  predicate IsFalsy(v: Value)
  {
    v.Absent? || (v.Str? && v.s == "") || (v.Flag? && !v.b) || (v.Num? && v.n == 0)
  }

  /** The required-field test: falsy, or text that is only white space. */
  predicate IsBlank(v: Value)
  {
    IsFalsy(v) || (v.Str? && Trim(v.s) == "")
  }

  /** `value.length`: defined for text (in UTF-16 code units) and arrays only. */
  function Length(v: Value): (len: Option<int>)
    ensures v.Str? ==> len == Some(Utf16Length(v.s))
    ensures v.List? ==> len == Some(|v.items|)
    ensures !v.Str? && !v.List? ==> len.None?
  {
    match v
    case Str(s) => Some(Utf16Length(s))
    case List(items) => Some(|items|)
    case _ => None
  }

  /** `String(n)` for an integer. */
  function IntToString(n: int): (s: string)
    ensures n >= 0 ==> s == NatToString(n)
    ensures n < 0 ==> s == "-" + NatToString(-n)
  {
    if n >= 0 then NatToString(n) else "-" + NatToString(-n)
  }

  /** The text of a number reads back, with `parseInt`, as the number. */
  lemma {:induction false} IntToStringRoundTrip(n: int)
    ensures ParseInt(IntToString(n)) == Some(n)
  {
    if n >= 0 {
      NatTextRoundTrip(n);
    } else {
      NegativeTextRoundTrip(-n);
    }
  }

  lemma {:induction false} NatTextRoundTrip(n: nat)
    ensures ParseInt(NatToString(n)) == Some(n as int)
  {
    var digits := NatToString(n);
    NatToStringDigits(n);
    ParseIntDigits(digits);
    NatToStringValue(n);
  }

  lemma {:induction false} NegativeTextRoundTrip(n: nat)
    ensures ParseInt("-" + NatToString(n)) == Some(-(n as int))
  {
    var digits := NatToString(n);
    NatToStringDigits(n);
    NatToStringValue(n);
    assert -(DigitsValue(digits) as int) == -(n as int);
    ParseIntNegative(digits);
  }

  lemma NatToStringDigits(n: nat)
    ensures NatToString(n) != [] && AllDigits(NatToString(n))
  {
  }

  /** The text a regular expression test sees: `String(value)`. */
  function ValueText(v: Value): string
  {
    match v
    case Absent => "undefined"
    case Str(s) => s
    case List(items) => Join(items, ',')
    case Flag(b) => if b then "true" else "false"
    case Num(n) => IntToString(n)
  }

  /** The class `[^\s@]`. */
  predicate IsAddressChar(c: char) { !IsJsSpace(c) && c != '@' }

  predicate AddressPart(s: string)
  {
    |s| > 0 && forall i :: 0 <= i < |s| ==> IsAddressChar(s[i])
  }

  /** `[^\s@]+\.[^\s@]+`: address characters with a '.' that is neither first nor last. */
  predicate DomainPart(d: string)
  {
    AddressPart(d) && exists k :: 0 < k < |d| - 1 && d[k] == '.'
  }

  /** `/^[^\s@]+@[^\s@]+\.[^\s@]+$/.test(s)` */
  predicate IsEmailShape(s: string)
  {
    exists i :: 0 < i < |s| && s[i] == '@' && AddressPart(s[..i]) && DomainPart(s[i + 1..])
  }

  /** The class `[\d\s\-\+\(\)]`. */
  predicate IsPhoneChar(c: char)
  {
    IsDigit(c) || IsJsSpace(c) || c == '-' || c == '+' || c == '(' || c == ')'
  }

  /** `/^[\d\s\-\+\(\)]+$/.test(s)` */
  predicate IsPhoneShape(s: string)
  {
    |s| > 0 && forall i :: 0 <= i < |s| ==> IsPhoneChar(s[i])
  }

  /** An address has exactly one '@', with text on both sides. */
  lemma EmailHasOneAt(s: string)
    requires IsEmailShape(s)
    ensures '@' in s && s[0] != '@' && s[|s| - 1] != '@'
    ensures forall i, j :: 0 <= i < j < |s| && s[i] == '@' ==> s[j] != '@'
  {
    var i :| 0 < i < |s| && s[i] == '@' && AddressPart(s[..i]) && DomainPart(s[i + 1..]);
    assert s[..i][0] == s[0];
    var d := s[i + 1..];
    assert d[|d| - 1] == s[|s| - 1];
    assert forall a :: 0 <= a < i ==> s[a] == s[..i][a] && s[a] != '@';
    assert forall a :: i < a < |s| ==> s[a] == d[a - i - 1] && s[a] != '@';
  }

  /** A limit applies only when set and non-zero (`field.validation?.minLength && ...`). */
  function Limit(l: Option<int>): (r: Option<int>)
    ensures r.Some? <==> l.Some? && l.value != 0
    ensures r.Some? ==> r.value == l.value
  {
    if l.Some? && l.value != 0 then l else None
  }

  /** The text is shorter than a set minimum. */
  predicate TooShort(field: FormField, v: Value)
  {
    var min := Limit(field.validation.minLength);
    min.Some? && Length(v).Some? && Length(v).value < min.value
  }

  /** The text is longer than a set maximum. */
  predicate TooLong(field: FormField, v: Value)
  {
    var max := Limit(field.validation.maxLength);
    max.Some? && Length(v).Some? && Length(v).value > max.value
  }

  /** A set, non-empty pattern rejects the text; `matches` stands for the regular expression engine. */
  predicate PatternFails(field: FormField, v: Value, matches: (string, string) -> bool)
  {
    field.validation.pattern.Some? && field.validation.pattern.value != "" &&
    !matches(field.validation.pattern.value, ValueText(v))
  }

  /** A limit that is absent or 0 is never broken. */
  lemma ZeroLimitIgnored(field: FormField, v: Value)
    ensures field.validation.minLength.None? || field.validation.minLength == Some(0) ==> !TooShort(field, v)
    ensures field.validation.maxLength.None? || field.validation.maxLength == Some(0) ==> !TooLong(field, v)
  {
  }

  /**
   * Only text and arrays have a length: any other value breaks no length
   * limit, and text or an array breaks a set limit exactly when its length is
   * beyond it.
   */
  lemma OnlyMeasuredValuesFail(field: FormField, v: Value)
    ensures !v.Str? && !v.List? ==> !TooShort(field, v) && !TooLong(field, v)
    ensures v.Str? && field.validation.minLength.Some? && field.validation.minLength.value != 0 ==>
      (TooShort(field, v) <==> Utf16Length(v.s) < field.validation.minLength.value)
    ensures v.List? && field.validation.maxLength.Some? && field.validation.maxLength.value != 0 ==>
      (TooLong(field, v) <==> |v.items| > field.validation.maxLength.value)
  {
  }

  /** A character outside the Basic Multilingual Plane is one character but two code units: under a maximum of 1 it is too long. */
  lemma SurrogatePairTooLong(field: FormField)
    requires field.validation.maxLength == Some(1)
    ensures TooLong(field, Str("\U{1F600}"))
  {
  }
}
