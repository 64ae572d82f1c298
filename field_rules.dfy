/** The building blocks of the member schema: the empty-to-undefined preprocessor,
    the reusable field schemas (optional string, optional number, date string),
    the five label sets, and the three rules used without preprocessing
    (required name, optional boolean, optional UUID). Each rule turns what the
    form holds under one key into a typed value or an issue. */
module FieldRules {
  import opened Raw
  import opened Pattern

  /** The schema's own error messages. */
  const RequiredMessage: string := "必須です"
  const MinimumMessage: string := "0以上で入力してください"
  const DateFormatMessage: string := "YYYY-MM-DD形式で入力してください"

  /** The closed label sets of the five categorical fields. */
  const InsuranceTypeLabels: seq<string> := ["国保", "社保", "なし"]
  const EmploymentStatusLabels: seq<string> := ["正社員", "個人事業主", "フリーター", "生活保護等"]
  const LivingStatusLabels: seq<string> := ["単身", "シェアハウス", "実家", "同棲など"]
  const DisabilityHandbookLabels: seq<string> := ["精神", "なし"]
  const MaritalStatusLabels: seq<string> := ["既婚", "未婚"]

  /** Why a field was rejected. `Missing` is a required field left undefined;
      `WrongType` a value of the wrong JavaScript kind (null included where
      nothing turns it into undefined first). */
  datatype Issue =
    | Missing
    | WrongType
    | TooSmall(message: string)
    | BadFormat(message: string)
    | NotUuid
    | NotInEnum(options: seq<string>)

  /** What a rule produces for one field: nothing, a string, a number or a boolean. */
  datatype Out = Absent | Text(text: string) | Number(number: real) | Flag(flag: bool)

  datatype Check = Pass(out: Out) | Fail(issue: Issue)

  /** A rule's output written back as the form value it stands for. */
  function Encode(o: Out): (v: Option<Value>)
    ensures v.None? <==> o.Absent?
  {
    match o
    case Absent => None
    case Text(t) => Some(Str(t))
    case Number(n) => Some(Num(n))
    case Flag(b) => Some(Bool(b))
  }

  // ---------------------------------------------------------------------------
  // Preprocessing

  /** `emptyToUndefined`: the empty string and null become undefined; every other
      value, undefined included, is passed through as it is. */
  function EmptyToUndefined(v: Option<Value>): (r: Option<Value>)
    ensures r.None? <==> v == None || v == Some(Str("")) || v == Some(Null)
    ensures r.Some? ==> r == v
  {
    if v == Some(Str("")) || v == Some(Null) then None else v
  }

  lemma EmptyToUndefinedIdempotent(v: Option<Value>)
    ensures EmptyToUndefined(EmptyToUndefined(v)) == EmptyToUndefined(v)
  {
  }

  // ---------------------------------------------------------------------------
  // Formats

  /** `/^\d{4}-\d{2}-\d{2}$/` */
  const DatePattern: seq<Piece> :=
    [Piece(Digit, 4), Piece(Literal('-'), 1), Piece(Digit, 2), Piece(Literal('-'), 1), Piece(Digit, 2)]

  /** Eight, four, four, four and twelve hexadecimal digits of either case,
      separated by hyphens. */
  const UuidPattern: seq<Piece> :=
    [ Piece(HexDigit, 8), Piece(Literal('-'), 1), Piece(HexDigit, 4), Piece(Literal('-'), 1)
    , Piece(HexDigit, 4), Piece(Literal('-'), 1), Piece(HexDigit, 4), Piece(Literal('-'), 1)
    , Piece(HexDigit, 12)]

  /** Character-level reading of the date format: exactly ten characters, hyphens at
      positions 4 and 7, ASCII digits everywhere else. No calendar check. */
  predicate DateShaped(s: string) {
    && |s| == 10
    && s[4] == '-' && s[7] == '-'
    && forall i :: 0 <= i < 10 && i != 4 && i != 7 ==> IsAsciiDigit(s[i])
  }

  /** Character-level reading of the UUID format: 36 characters, hyphens at 8, 13,
      18 and 23, hexadecimal digits everywhere else. */
  predicate UuidShaped(s: string) {
    && |s| == 36
    && s[8] == '-' && s[13] == '-' && s[18] == '-' && s[23] == '-'
    && forall i :: 0 <= i < 36 && i != 8 && i != 13 && i != 18 && i != 23 ==> IsHexDigit(s[i])
  }

  /** The `.regex(...)` check of `dateString`, decided character by character: it
      agrees with the regular expression on every string. */
  function IsDate(s: string): (b: bool)
    ensures b <==> Matches(DatePattern, s)
  {
    DateMeaning(s);
    DateShaped(s)
  }

  /** zod's `.uuid()` check, decided character by character: it agrees with the
      UUID pattern on every string. */
  function IsUuid(s: string): (b: bool)
    ensures b <==> Matches(UuidPattern, s)
  {
    UuidMeaning(s);
    UuidShaped(s)
  }

  lemma DateMeaning(s: string)
    ensures Matches(DatePattern, s) <==> DateShaped(s)
  {
    DateExpansion();
    MatchesExpanded(DatePattern, s);
  }

  /** The date pattern written out position by position. */
  lemma DateExpansion()
    ensures Expand(DatePattern) ==
              [Digit, Digit, Digit, Digit, Literal('-'), Digit, Digit, Literal('-'), Digit, Digit]
  {
    assert DatePattern[1..][1..][1..][1..][1..] == [];
  }

  lemma UuidMeaning(s: string)
    ensures Matches(UuidPattern, s) <==> UuidShaped(s)
  {
    UuidExpansion();
    MatchesExpanded(UuidPattern, s);
  }

  /** The UUID pattern written out position by position. */
  lemma UuidExpansion()
    ensures |Expand(UuidPattern)| == 36
    ensures forall i :: 0 <= i < 36 ==>
              Expand(UuidPattern)[i] == if i == 8 || i == 13 || i == 18 || i == 23 then Literal('-') else HexDigit
  {
    assert UuidPattern[1..][1..][1..][1..][1..][1..][1..][1..][1..] == [];
  }

  // ---------------------------------------------------------------------------
  // Field rules

  /** `z.string().min(1, RequiredMessage)`: no preprocessing and no trimming, so a
      whitespace-only name is accepted. */
  function RequiredString(v: Option<Value>): (r: Check)
    ensures r.Pass? <==> v.Some? && v.value.Str? && v.value.s != ""
    ensures r.Pass? ==> r.out.Text? && Encode(r.out) == v
    ensures v == None ==> r == Fail(Missing)
    ensures v == Some(Str("")) ==> r == Fail(TooSmall(RequiredMessage))
    ensures v.Some? && !v.value.Str? ==> r == Fail(WrongType)
  {
    match v
    case None => Fail(Missing)
    case Some(Str(s)) => if |s| >= 1 then Pass(Text(s)) else Fail(TooSmall(RequiredMessage))
    case Some(_) => Fail(WrongType)
  }

  /** `optionalString`: any string after preprocessing, returned unchanged. */
  function OptionalString(v: Option<Value>): (r: Check)
    ensures r.Pass? <==> v.None? || v.value.Str? || v.value.Null?
    ensures r.Pass? ==> Encode(r.out) == EmptyToUndefined(v) && (r.out.Absent? || r.out.Text?)
    ensures r.Fail? ==> r.issue == WrongType
  {
    match EmptyToUndefined(v)
    case None => Pass(Absent)
    case Some(Str(s)) => Pass(Text(s))
    case Some(_) => Fail(WrongType)
  }

  /** `optionalNumber`: after preprocessing, absent or a number of at least 0. */
  function OptionalNumber(v: Option<Value>): (r: Check)
    ensures r.Pass? <==> v.None? || v == Some(Str("")) || v.value.Null? || (v.value.Num? && v.value.n >= 0.0)
    ensures r.Pass? ==> Encode(r.out) == EmptyToUndefined(v) && (r.out.Absent? || r.out.Number?)
    ensures v.Some? && v.value.Num? && v.value.n < 0.0 ==> r == Fail(TooSmall(MinimumMessage))
    ensures r.Fail? && !v.value.Num? ==> r.issue == WrongType
  {
    match EmptyToUndefined(v)
    case None => Pass(Absent)
    case Some(Num(n)) => if n >= 0.0 then Pass(Number(n)) else Fail(TooSmall(MinimumMessage))
    case Some(_) => Fail(WrongType)
  }

  /** `dateString`: after preprocessing, absent or a string of the date format. */
  function DateString(v: Option<Value>): (r: Check)
    ensures r.Pass? <==> v.None? || v.value.Null? || (v.value.Str? && (v.value.s == "" || DateShaped(v.value.s)))
    ensures r.Pass? ==> Encode(r.out) == EmptyToUndefined(v) && (r.out.Absent? || r.out.Text?)
    ensures v.Some? && v.value.Str? && v.value.s != "" && !DateShaped(v.value.s) ==>
              r == Fail(BadFormat(DateFormatMessage))
    ensures r.Fail? && !v.value.Str? ==> r.issue == WrongType
  {
    match EmptyToUndefined(v)
    case None => Pass(Absent)
    case Some(Str(s)) => if IsDate(s) then Pass(Text(s)) else Fail(BadFormat(DateFormatMessage))
    case Some(_) => Fail(WrongType)
  }

  /** `z.preprocess(emptyToUndefined, someEnum.optional())`: absent or one of the labels. */
  function OptionalEnum(labels: seq<string>, v: Option<Value>): (r: Check)
    ensures r.Pass? <==> v.None? || v.value.Null? || (v.value.Str? && (v.value.s == "" || v.value.s in labels))
    ensures r.Pass? ==> Encode(r.out) == EmptyToUndefined(v) && (r.out.Absent? || r.out.Text?)
    ensures v.Some? && v.value.Str? && v.value.s != "" && v.value.s !in labels ==> r == Fail(NotInEnum(labels))
    ensures r.Fail? && !v.value.Str? ==> r.issue == WrongType
  {
    match EmptyToUndefined(v)
    case None => Pass(Absent)
    case Some(Str(s)) => if s in labels then Pass(Text(s)) else Fail(NotInEnum(labels))
    case Some(_) => Fail(WrongType)
  }

  /** `z.boolean().optional()`: no preprocessing, so "" and null are rejected. */
  function OptionalBoolean(v: Option<Value>): (r: Check)
    ensures r.Pass? <==> v.None? || v.value.Bool?
    ensures r.Pass? ==> Encode(r.out) == v && (r.out.Absent? || r.out.Flag?)
    ensures r.Fail? ==> r.issue == WrongType
  {
    match v
    case None => Pass(Absent)
    case Some(Bool(b)) => Pass(Flag(b))
    case Some(_) => Fail(WrongType)
  }

  /** `z.string().uuid().optional()`: no preprocessing, so "" is a malformed UUID and
      null a wrong type. */
  function OptionalUuid(v: Option<Value>): (r: Check)
    ensures r.Pass? <==> v.None? || (v.value.Str? && UuidShaped(v.value.s))
    ensures r.Pass? ==> Encode(r.out) == v && (r.out.Absent? || r.out.Text?)
    ensures v.Some? && v.value.Str? && !UuidShaped(v.value.s) ==> r == Fail(NotUuid)
    ensures r.Fail? && !v.value.Str? ==> r.issue == WrongType
  {
    match v
    case None => Pass(Absent)
    case Some(Str(s)) => if IsUuid(s) then Pass(Text(s)) else Fail(NotUuid)
    case Some(_) => Fail(WrongType)
  }

  // ---------------------------------------------------------------------------
  // Rules as data

  /** The kinds of field schema `memberFormSchema` is built from. */
  datatype Rule =
    | NameRule
    | TextRule
    | NumberRule
    | DateRule
    | EnumRule(labels: seq<string>)
    | BooleanRule
    | UuidRule

  /** The label sets never contain the empty string (it is turned into undefined
      before the enum check). */
  predicate WellFormedRule(rule: Rule) {
    rule.EnumRule? ==> "" !in rule.labels
  }

  /** Whether the rule runs `emptyToUndefined` before its check. */
  predicate Preprocessed(rule: Rule) {
    !(rule.NameRule? || rule.BooleanRule? || rule.UuidRule?)
  }

  /** The value the rule checks: the raw value, preprocessed when the rule says so. */
  function Normalize(rule: Rule, v: Option<Value>): Option<Value> {
    if Preprocessed(rule) then EmptyToUndefined(v) else v
  }

  function Apply(rule: Rule, v: Option<Value>): Check
  {
    match rule
    case NameRule => RequiredString(v)
    case TextRule => OptionalString(v)
    case NumberRule => OptionalNumber(v)
    case DateRule => DateString(v)
    case EnumRule(labels) => OptionalEnum(labels, v)
    case BooleanRule => OptionalBoolean(v)
    case UuidRule => OptionalUuid(v)
  }

  /** The outputs a rule can produce: its typed values, with "" never kept in a
      preprocessed field. */
  predicate Admissible(rule: Rule, o: Out) {
    match rule
    case NameRule => o.Text? && o.text != ""
    case TextRule => o.Absent? || (o.Text? && o.text != "")
    case NumberRule => o.Absent? || (o.Number? && o.number >= 0.0)
    case DateRule => o.Absent? || (o.Text? && DateShaped(o.text))
    case EnumRule(labels) => o.Absent? || (o.Text? && o.text in labels)
    case BooleanRule => o.Absent? || o.Flag?
    case UuidRule => o.Absent? || (o.Text? && UuidShaped(o.text))
  }

  /** Which kind of output a rule produces. */
  predicate Fits(rule: Rule, o: Out) {
    match rule
    case NameRule => o.Text?
    case NumberRule => o.Absent? || o.Number?
    case BooleanRule => o.Absent? || o.Flag?
    case _ => o.Absent? || o.Text?
  }

  /** On success a rule keeps the (preprocessed) value as it is, and what it keeps
      is admissible. */
  lemma ApplyKeepsValue(rule: Rule, v: Option<Value>)
    requires Apply(rule, v).Pass?
    ensures Encode(Apply(rule, v).out) == Normalize(rule, v)
    ensures Admissible(rule, Apply(rule, v).out)
    ensures Fits(rule, Apply(rule, v).out)
  {
  }

  /** Every admissible output is accepted back unchanged: validating an output
      again is the identity. */
  lemma ApplyAcceptsAdmissible(rule: Rule, o: Out)
    requires WellFormedRule(rule)
    requires Admissible(rule, o)
    ensures Apply(rule, Encode(o)) == Pass(o)
  {
  }
}
