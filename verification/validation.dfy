/**
  Full validation of a report draft: eight independent field rules whose
  failures together make up a fresh error map.
 */
module Validation {
  import opened Text
  import opened ReportTypes

  const CategoryRequired := "Category is required."
  const AddressRequired := "Address is required."
  const PincodeInvalid := "Pincode must be 6 digits."
  const DistrictRequired := "District is required."
  const StateRequired := "State is required."
  const NameRequired := "Your name is required."
  const PhotoRequired := "At least one photo is required."
  const DescriptionTooShort := "Description must be at least 20 characters."

  /** The shortest description, counted after trimming, that passes. */
  const MinDescriptionLength := 20

  /** The message validation shows for a failing field. */
  function Message(k: Field): string {
    match k
    case Category => CategoryRequired
    case Address => AddressRequired
    case Pincode => PincodeInvalid
    case District => DistrictRequired
    case State => StateRequired
    case ReporterName => NameRequired
    case Photos => PhotoRequired
    case Description => DescriptionTooShort
  }

  /** A non-empty message whose last character is a period. */
  predicate EndsWithPeriod(m: string) {
    |m| > 0 && m[|m| - 1] == '.'
  }

  /** Every validation message is a sentence ending in a period. */
  lemma MessagesEndWithPeriod(k: Field)
    ensures EndsWithPeriod(Message(k))
  {
  }

  /** A pincode is exactly six ASCII digits, nothing before and nothing after. */
  predicate IsPincode(s: string) {
    |s| == 6 && forall i :: 0 <= i < |s| ==> IsAsciiDigit(s[i])
  }

  /**
    Matching `^\d{n}$` against `s`: consume `n` digits from the start, then demand
    the end of input (no multiline flag, so `$` only matches there).
   */
  function MatchDigits(s: string, n: nat): (b: bool)
    ensures b <==> |s| == n && forall i :: 0 <= i < |s| ==> IsAsciiDigit(s[i])
  {
    if n == 0 then s == []
    else s != [] && IsAsciiDigit(s[0]) && MatchDigits(s[1..], n - 1)
  }

  /** The rules of the form, one per field: when does field `k` of `f` fail? */
  predicate FieldFails(f: ReportForm, k: Field) {
    match k
    case Category => f.category == Unset
    case Address => AllWhitespace(f.address)
    case Pincode => !IsPincode(f.pincode)
    case District => AllWhitespace(f.district)
    case State => AllWhitespace(f.state)
    case ReporterName => AllWhitespace(f.reporterName)
    case Photos => |f.photos| == 0
    case Description => |Trim(f.description)| < MinDescriptionLength
  }

  /** A draft passes when none of its fields fails. */
  predicate Passes(f: ReportForm) {
    forall k :: !FieldFails(f, k)
  }

  /**
    The check the form performs for field `k`, written as the form writes it:
    truthiness of the category value, emptiness of the trimmed text, a match
    of the pincode pattern, the photo count and the trimmed description length.
    It agrees with the field's rule.
   */
  function Check(f: ReportForm, k: Field): (fails: bool)
    ensures fails <==> FieldFails(f, k)
  {
    match k
    case Category => ChoiceValue(f.category) == ""
    case Address => TrimEmptyIffAllWhitespace(f.address); Trim(f.address) == ""
    case Pincode => !MatchDigits(f.pincode, 6)
    case District => TrimEmptyIffAllWhitespace(f.district); Trim(f.district) == ""
    case State => TrimEmptyIffAllWhitespace(f.state); Trim(f.state) == ""
    case ReporterName => TrimEmptyIffAllWhitespace(f.reporterName); Trim(f.reporterName) == ""
    case Photos => |f.photos| == 0
    case Description => |Trim(f.description)| < MinDescriptionLength
  }

  /** Adds `k`'s message to `e` when its check fails, as each `if (...) newErrors.k = ...` line does. */
  function Flag(e: Errors, f: ReportForm, k: Field): (r: Errors)
    ensures k in r <==> k in e || FieldFails(f, k)
    ensures FieldFails(f, k) ==> r[k] == Message(k)
    ensures forall j :: j != k ==> (j in r <==> j in e)
    ensures forall j :: j in e && (j != k || !FieldFails(f, k)) ==> r[j] == e[j]
  {
    if Check(f, k) then e[k := Message(k)] else e
  }

  /** The order in which the form runs its checks. */
  const CheckOrder: seq<Field> := [Category, Address, Pincode, District, State, ReporterName, Photos, Description]

  /** Every field of the form has its check in the list. */
  lemma EveryFieldChecked()
    ensures forall k :: k in CheckOrder
  {
    forall k ensures k in CheckOrder {
      match k
      case Category => assert CheckOrder[0] == k;
      case Address => assert CheckOrder[1] == k;
      case Pincode => assert CheckOrder[2] == k;
      case District => assert CheckOrder[3] == k;
      case State => assert CheckOrder[4] == k;
      case ReporterName => assert CheckOrder[5] == k;
      case Photos => assert CheckOrder[6] == k;
      case Description => assert CheckOrder[7] == k;
    }
  }

  /** Runs the checks for `ks` one after another on `e`; no check is skipped because an earlier one failed. */
  function FlagAll(e: Errors, f: ReportForm, ks: seq<Field>): (r: Errors)
    ensures forall j :: j in r <==> j in e || (j in ks && FieldFails(f, j))
    ensures forall j :: j in r ==> r[j] == (if j in ks && FieldFails(f, j) then Message(j) else e[j])
    decreases |ks|
  {
    if ks == [] then e else FlagAll(Flag(e, f, ks[0]), f, ks[1..])
  }

  /**
    The error map one validation pass produces, built from an empty map with
    every check run whatever the earlier ones found. The map has an entry for
    exactly the failing fields, each with that field's message.
   */
  function Validate(f: ReportForm): (e: Errors)
    ensures forall k :: k in e <==> FieldFails(f, k)
    ensures forall k :: k in e ==> e[k] == Message(k)
  {
    EveryFieldChecked();
    FlagEvery(f, CheckOrder)
  }

  /** Runs a list of checks that covers every field, starting from an empty map. */
  function FlagEvery(f: ReportForm, ks: seq<Field>): (e: Errors)
    requires forall k :: k in ks
    ensures forall k :: k in e <==> FieldFails(f, k)
    ensures forall k :: k in e ==> e[k] == Message(k)
  {
    FlagAll(map[], f, ks)
  }

  /** What one validation pass reports: the verdict and the error map that replaces the old one. */
  datatype Verdict = Verdict(ok: bool, errors: Errors)

  /** `validate()`: the verdict is true exactly when the fresh error map has no key. */
  function ValidateForm(f: ReportForm): (v: Verdict)
    ensures v.ok <==> Passes(f)
    ensures v.ok <==> |v.errors| == 0
    ensures forall k :: k in v.errors <==> FieldFails(f, k)
    ensures forall k :: k in v.errors ==> v.errors[k] == Message(k)
  {
    var e := Validate(f);
    if Passes(f) then
      assert e == map[];
      Verdict(|e| == 0, e)
    else
      var k :| FieldFails(f, k);
      assert k in e;
      Verdict(|e| == 0, e)
  }

  /** The pincode rule on a few concrete strings: one valid, one with a letter, one too short, one too long. */
  lemma PincodeExamples()
    ensures !MatchDigits("12a456", 6) && MatchDigits("123456", 6)
    ensures !MatchDigits("12345", 6) && !MatchDigits("1234567", 6)
  {
    assert !IsAsciiDigit("12a456"[2]);
    assert "1234567"[..6] != "1234567";
  }

  /** A description without surrounding whitespace fails exactly when it is shorter than `MinDescriptionLength` characters. */
  lemma DescriptionThreshold(f: ReportForm)
    requires f.description == [] || (!IsWhitespace(f.description[0]) && !IsWhitespace(f.description[|f.description| - 1]))
    ensures FieldFails(f, Description) <==> |f.description| < MinDescriptionLength
  {
    TrimNoOp(f.description);
    assert Trim(f.description) == f.description;
  }

  /** The empty draft fails every one of the eight rules. */
  lemma InitialFormFailsEveryField(k: Field)
    ensures k in Validate(InitialForm)
  {
    assert !IsPincode(InitialForm.pincode);
  }
}
