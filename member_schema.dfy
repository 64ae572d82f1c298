/** `memberFormSchema`: the whole-record validator of the member intake form.
    Every field has one rule; the record is accepted when every field passes its
    rule, and otherwise the result maps each failing field to its issue. */
module MemberSchema {
  import opened Raw
  import opened FieldRules

  // ---------------------------------------------------------------------------
  // The keys of the form, grouped by the rule that checks them

  /** The two required names. */
  datatype NameKey = LastName | FirstName

  /** The two optional non-negative numbers. */
  datatype AmountKey = Age | AnnualIncome

  /** The five fields with a closed label set. */
  datatype CategoryKey = InsuranceType | EmploymentStatus | LivingStatus | DisabilityHandbook | MaritalStatus

  /** The three optional booleans. */
  datatype FlagKey = HospitalVisitHistory | IsOnWelfare | PastWelfareUsage

  /** The thirteen optional free-text fields. */
  datatype TextKey =
    | LastNameKana | FirstNameKana | PhoneNumber | PostalCode | Address1 | Address2
    | Symptoms | HospitalName | Occupation | Workplace | Background | Involvement | RawData

  /** A key of the member form (`id`, `last_name`, ..., `raw_data` in the form
      object; the constructors follow the keys' spelling). */
  datatype Field =
    | Id
    | NameField(name: NameKey)
    | BirthDate
    | AmountField(amount: AmountKey)
    | CategoryField(category: CategoryKey)
    | FlagField(flag: FlagKey)
    | TextField(text: TextKey)

  const AllFields: set<Field> :=
    { Id, NameField(LastName), NameField(FirstName), BirthDate
    , AmountField(Age), AmountField(AnnualIncome)
    , CategoryField(InsuranceType), CategoryField(EmploymentStatus), CategoryField(LivingStatus)
    , CategoryField(DisabilityHandbook), CategoryField(MaritalStatus)
    , FlagField(HospitalVisitHistory), FlagField(IsOnWelfare), FlagField(PastWelfareUsage)
    , TextField(LastNameKana), TextField(FirstNameKana), TextField(PhoneNumber), TextField(PostalCode)
    , TextField(Address1), TextField(Address2), TextField(Symptoms), TextField(HospitalName)
    , TextField(Occupation), TextField(Workplace), TextField(Background), TextField(Involvement)
    , TextField(RawData) }

  lemma AllFieldsComplete(f: Field)
    ensures f in AllFields
  {
    match f
    case NameField(k) => match k { case LastName => case FirstName => }
    case AmountField(k) => match k { case Age => case AnnualIncome => }
    case CategoryField(k) =>
      match k {
        case InsuranceType => case EmploymentStatus => case LivingStatus =>
        case DisabilityHandbook => case MaritalStatus =>
      }
    case FlagField(k) =>
      match k { case HospitalVisitHistory => case IsOnWelfare => case PastWelfareUsage => }
    case TextField(k) =>
      match k {
        case LastNameKana => case FirstNameKana => case PhoneNumber => case PostalCode =>
        case Address1 => case Address2 => case Symptoms => case HospitalName =>
        case Occupation => case Workplace => case Background => case Involvement =>
        case RawData =>
      }
    case _ =>
  }

  /** The form object handed to the schema: a key it does not hold is undefined. */
  type Input = map<Field, Value>

  function Get(raw: Input, f: Field): Option<Value> {
    if f in raw then Some(raw[f]) else None
  }

  // ---------------------------------------------------------------------------
  // The schema

  function Labels(k: CategoryKey): seq<string> {
    match k
    case InsuranceType => InsuranceTypeLabels
    case EmploymentStatus => EmploymentStatusLabels
    case LivingStatus => LivingStatusLabels
    case DisabilityHandbook => DisabilityHandbookLabels
    case MaritalStatus => MaritalStatusLabels
  }

  /** The rule table of `memberFormSchema`. */
  function RuleOf(f: Field): (rule: Rule)
    ensures WellFormedRule(rule)
  {
    match f
    case Id => UuidRule
    case NameField(_) => NameRule
    case BirthDate => DateRule
    case AmountField(_) => NumberRule
    case CategoryField(k) => EnumRule(Labels(k))
    case FlagField(_) => BooleanRule
    case TextField(_) => TextRule
  }

  /** The typed record the schema produces (what `z.infer` derives from it). */
  datatype MemberRecord = MemberRecord(
    id: Option<string>,
    lastName: string,
    firstName: string,
    lastNameKana: Option<string>,
    firstNameKana: Option<string>,
    birthDate: Option<string>,
    age: Option<real>,
    phoneNumber: Option<string>,
    postalCode: Option<string>,
    address1: Option<string>,
    address2: Option<string>,
    insuranceType: Option<string>,
    employmentStatus: Option<string>,
    livingStatus: Option<string>,
    disabilityHandbook: Option<string>,
    hospitalVisitHistory: Option<bool>,
    symptoms: Option<string>,
    hospitalName: Option<string>,
    occupation: Option<string>,
    workplace: Option<string>,
    maritalStatus: Option<string>,
    annualIncome: Option<real>,
    isOnWelfare: Option<bool>,
    pastWelfareUsage: Option<bool>,
    background: Option<string>,
    involvement: Option<string>,
    rawData: Option<string>)

  datatype Validation = Valid(record: MemberRecord) | Invalid(errors: map<Field, Issue>)

  /** The verdict of field `f`'s rule on what the form holds under `f`. */
  function Parsed(raw: Input, f: Field): Check {
    Apply(RuleOf(f), Get(raw, f))
  }

  /** Every field whose rule fails, with the rule's issue. */
  function Errors(raw: Input): (e: map<Field, Issue>)
    ensures forall f :: f in e <==> Parsed(raw, f).Fail?
    ensures forall f :: f in e ==> e[f] == Parsed(raw, f).issue
  {
    forall f ensures f in AllFields { AllFieldsComplete(f); }
    map f | f in AllFields && Parsed(raw, f).Fail? :: Parsed(raw, f).issue
  }

  // ---------------------------------------------------------------------------
  // The record's fields as rule outputs, and back

  function TextOut(t: Option<string>): (o: Out)
    ensures AsText(o) == t
  {
    if t.Some? then Text(t.value) else Absent
  }

  function NumberOut(n: Option<real>): (o: Out)
    ensures AsNumber(o) == n
  {
    if n.Some? then Number(n.value) else Absent
  }

  function FlagOut(b: Option<bool>): (o: Out)
    ensures AsFlag(o) == b
  {
    if b.Some? then Flag(b.value) else Absent
  }

  function AsText(o: Out): Option<string> {
    if o.Text? then Some(o.text) else None
  }

  function AsName(o: Out): string {
    if o.Text? then o.text else ""
  }

  function AsNumber(o: Out): Option<real> {
    if o.Number? then Some(o.number) else None
  }

  function AsFlag(o: Out): Option<bool> {
    if o.Flag? then Some(o.flag) else None
  }

  function NameValue(m: MemberRecord, k: NameKey): string {
    match k
    case LastName => m.lastName
    case FirstName => m.firstName
  }

  function AmountValue(m: MemberRecord, k: AmountKey): Option<real> {
    match k
    case Age => m.age
    case AnnualIncome => m.annualIncome
  }

  function CategoryValue(m: MemberRecord, k: CategoryKey): Option<string> {
    match k
    case InsuranceType => m.insuranceType
    case EmploymentStatus => m.employmentStatus
    case LivingStatus => m.livingStatus
    case DisabilityHandbook => m.disabilityHandbook
    case MaritalStatus => m.maritalStatus
  }

  function FlagValue(m: MemberRecord, k: FlagKey): Option<bool> {
    match k
    case HospitalVisitHistory => m.hospitalVisitHistory
    case IsOnWelfare => m.isOnWelfare
    case PastWelfareUsage => m.pastWelfareUsage
  }

  function TextValue(m: MemberRecord, k: TextKey): Option<string> {
    match k
    case LastNameKana => m.lastNameKana
    case FirstNameKana => m.firstNameKana
    case PhoneNumber => m.phoneNumber
    case PostalCode => m.postalCode
    case Address1 => m.address1
    case Address2 => m.address2
    case Symptoms => m.symptoms
    case HospitalName => m.hospitalName
    case Occupation => m.occupation
    case Workplace => m.workplace
    case Background => m.background
    case Involvement => m.involvement
    case RawData => m.rawData
  }

  /** Field `f` of the record, as the rule output it came from. */
  function OutOf(m: MemberRecord, f: Field): Out {
    match f
    case Id => TextOut(m.id)
    case NameField(k) => Text(NameValue(m, k))
    case BirthDate => TextOut(m.birthDate)
    case AmountField(k) => NumberOut(AmountValue(m, k))
    case CategoryField(k) => TextOut(CategoryValue(m, k))
    case FlagField(k) => FlagOut(FlagValue(m, k))
    case TextField(k) => TextOut(TextValue(m, k))
  }

  /** The output of field `f`'s rule, or `Absent` where it failed. */
  function Output(raw: Input, f: Field): Out {
    if Parsed(raw, f).Pass? then Parsed(raw, f).out else Absent
  }

  /** The outputs of all the fields' rules. */
  function Outputs(raw: Input): (o: map<Field, Out>)
    ensures forall f :: f in o && o[f] == Output(raw, f)
  {
    forall f ensures f in AllFields { AllFieldsComplete(f); }
    map f | f in AllFields :: Output(raw, f)
  }

  /** The typed record assembled from one output per field. */
  function Assemble(o: map<Field, Out>): MemberRecord
    requires forall f :: f in o
  {
    MemberRecord(
      id := AsText(o[Id]),
      lastName := AsName(o[NameField(LastName)]),
      firstName := AsName(o[NameField(FirstName)]),
      lastNameKana := AsText(o[TextField(LastNameKana)]),
      firstNameKana := AsText(o[TextField(FirstNameKana)]),
      birthDate := AsText(o[BirthDate]),
      age := AsNumber(o[AmountField(Age)]),
      phoneNumber := AsText(o[TextField(PhoneNumber)]),
      postalCode := AsText(o[TextField(PostalCode)]),
      address1 := AsText(o[TextField(Address1)]),
      address2 := AsText(o[TextField(Address2)]),
      insuranceType := AsText(o[CategoryField(InsuranceType)]),
      employmentStatus := AsText(o[CategoryField(EmploymentStatus)]),
      livingStatus := AsText(o[CategoryField(LivingStatus)]),
      disabilityHandbook := AsText(o[CategoryField(DisabilityHandbook)]),
      hospitalVisitHistory := AsFlag(o[FlagField(HospitalVisitHistory)]),
      symptoms := AsText(o[TextField(Symptoms)]),
      hospitalName := AsText(o[TextField(HospitalName)]),
      occupation := AsText(o[TextField(Occupation)]),
      workplace := AsText(o[TextField(Workplace)]),
      maritalStatus := AsText(o[CategoryField(MaritalStatus)]),
      annualIncome := AsNumber(o[AmountField(AnnualIncome)]),
      isOnWelfare := AsFlag(o[FlagField(IsOnWelfare)]),
      pastWelfareUsage := AsFlag(o[FlagField(PastWelfareUsage)]),
      background := AsText(o[TextField(Background)]),
      involvement := AsText(o[TextField(Involvement)]),
      rawData := AsText(o[TextField(RawData)]))
  }

  function Build(raw: Input): MemberRecord {
    Assemble(Outputs(raw))
  }

  /** `memberFormSchema.safeParse`: the typed record when every field passes its
      rule, otherwise every failing field with its issue. */
  function Validate(raw: Input): (r: Validation)
    ensures r.Valid? <==> forall f :: Parsed(raw, f).Pass?
    ensures r.Invalid? ==> r.errors != map[] && forall f :: f in r.errors <==> Parsed(raw, f).Fail?
    ensures r.Invalid? ==> forall f :: f in r.errors ==> r.errors[f] == Parsed(raw, f).issue
  {
    var errors := Errors(raw);
    if errors == map[] then Valid(Build(raw))
    else Invalid(errors)
  }

  /** The record written back as a form object: absent fields are left out. */
  function ToInput(m: MemberRecord): (raw: Input)
    ensures forall f :: Get(raw, f) == Encode(OutOf(m, f))
  {
    var raw := map f | f in AllFields && OutOf(m, f) != Absent :: Encode(OutOf(m, f)).value;
    forall f ensures Get(raw, f) == Encode(OutOf(m, f)) {
      AllFieldsComplete(f);
    }
    raw
  }

  /** The records the schema can produce: every field holds an output its rule admits. */
  ghost predicate WellFormed(m: MemberRecord) {
    forall f :: Admissible(RuleOf(f), OutOf(m, f))
  }

  // ---------------------------------------------------------------------------
  // Taking a record apart and putting it together

  /** Reading field `f` of an assembled record gives back the output it was assembled
      from, when that output has the shape of `f`'s rule. */
  lemma FieldOfAssemble(o: map<Field, Out>, f: Field)
    requires forall g :: g in o
    requires Fits(RuleOf(f), o[f])
    ensures OutOf(Assemble(o), f) == o[f]
  {
    match f
    case Id =>
    case NameField(k) => NameOfAssemble(o, k);
    case BirthDate =>
    case AmountField(k) => AmountOfAssemble(o, k);
    case CategoryField(k) => CategoryOfAssemble(o, k);
    case FlagField(k) => FlagOfAssemble(o, k);
    case TextField(k) => TextOfAssemble(o, k);
  }

  lemma NameOfAssemble(o: map<Field, Out>, k: NameKey)
    requires forall g :: g in o
    ensures NameValue(Assemble(o), k) == AsName(o[NameField(k)])
  {
  }

  lemma AmountOfAssemble(o: map<Field, Out>, k: AmountKey)
    requires forall g :: g in o
    ensures AmountValue(Assemble(o), k) == AsNumber(o[AmountField(k)])
  {
  }

  lemma CategoryOfAssemble(o: map<Field, Out>, k: CategoryKey)
    requires forall g :: g in o
    ensures CategoryValue(Assemble(o), k) == AsText(o[CategoryField(k)])
  {
  }

  lemma FlagOfAssemble(o: map<Field, Out>, k: FlagKey)
    requires forall g :: g in o
    ensures FlagValue(Assemble(o), k) == AsFlag(o[FlagField(k)])
  {
  }

  lemma TextOfAssemble(o: map<Field, Out>, k: TextKey)
    requires forall g :: g in o
    ensures TextValue(Assemble(o), k) == AsText(o[TextField(k)])
  {
  }

  /** A record is determined by its fields. */
  lemma FieldsDetermineRecord(a: MemberRecord, m: MemberRecord)
    requires forall f :: OutOf(a, f) == OutOf(m, f)
    ensures a == m
  {
    NamesAgree(a, m);
    AmountsAgree(a, m);
    CategoriesAgree(a, m);
    FlagsAgree(a, m);
    NameTextsAgree(a, m);
    ContactTextsAgree(a, m);
    HealthTextsAgree(a, m);
    CaseTextsAgree(a, m);
  }

  lemma NamesAgree(a: MemberRecord, m: MemberRecord)
    requires forall f :: OutOf(a, f) == OutOf(m, f)
    ensures a.id == m.id && a.lastName == m.lastName && a.firstName == m.firstName && a.birthDate == m.birthDate
  {
    assert OutOf(a, Id) == OutOf(m, Id);
    assert OutOf(a, NameField(LastName)) == OutOf(m, NameField(LastName));
    assert OutOf(a, NameField(FirstName)) == OutOf(m, NameField(FirstName));
    assert OutOf(a, BirthDate) == OutOf(m, BirthDate);
  }

  lemma AmountsAgree(a: MemberRecord, m: MemberRecord)
    requires forall f :: OutOf(a, f) == OutOf(m, f)
    ensures a.age == m.age && a.annualIncome == m.annualIncome
  {
    assert OutOf(a, AmountField(Age)) == OutOf(m, AmountField(Age));
    assert OutOf(a, AmountField(AnnualIncome)) == OutOf(m, AmountField(AnnualIncome));
  }

  lemma CategoriesAgree(a: MemberRecord, m: MemberRecord)
    requires forall f :: OutOf(a, f) == OutOf(m, f)
    ensures a.insuranceType == m.insuranceType && a.employmentStatus == m.employmentStatus && a.livingStatus == m.livingStatus && a.disabilityHandbook == m.disabilityHandbook && a.maritalStatus == m.maritalStatus
  {
    assert OutOf(a, CategoryField(InsuranceType)) == OutOf(m, CategoryField(InsuranceType));
    assert OutOf(a, CategoryField(EmploymentStatus)) == OutOf(m, CategoryField(EmploymentStatus));
    assert OutOf(a, CategoryField(LivingStatus)) == OutOf(m, CategoryField(LivingStatus));
    assert OutOf(a, CategoryField(DisabilityHandbook)) == OutOf(m, CategoryField(DisabilityHandbook));
    assert OutOf(a, CategoryField(MaritalStatus)) == OutOf(m, CategoryField(MaritalStatus));
  }

  lemma FlagsAgree(a: MemberRecord, m: MemberRecord)
    requires forall f :: OutOf(a, f) == OutOf(m, f)
    ensures a.hospitalVisitHistory == m.hospitalVisitHistory && a.isOnWelfare == m.isOnWelfare && a.pastWelfareUsage == m.pastWelfareUsage
  {
    assert OutOf(a, FlagField(HospitalVisitHistory)) == OutOf(m, FlagField(HospitalVisitHistory));
    assert OutOf(a, FlagField(IsOnWelfare)) == OutOf(m, FlagField(IsOnWelfare));
    assert OutOf(a, FlagField(PastWelfareUsage)) == OutOf(m, FlagField(PastWelfareUsage));
  }

  lemma NameTextsAgree(a: MemberRecord, m: MemberRecord)
    requires forall f :: OutOf(a, f) == OutOf(m, f)
    ensures a.lastNameKana == m.lastNameKana && a.firstNameKana == m.firstNameKana
  {
    assert OutOf(a, TextField(LastNameKana)) == OutOf(m, TextField(LastNameKana));
    assert OutOf(a, TextField(FirstNameKana)) == OutOf(m, TextField(FirstNameKana));
  }

  lemma ContactTextsAgree(a: MemberRecord, m: MemberRecord)
    requires forall f :: OutOf(a, f) == OutOf(m, f)
    ensures a.phoneNumber == m.phoneNumber && a.postalCode == m.postalCode && a.address1 == m.address1 && a.address2 == m.address2
  {
    assert OutOf(a, TextField(PhoneNumber)) == OutOf(m, TextField(PhoneNumber));
    assert OutOf(a, TextField(PostalCode)) == OutOf(m, TextField(PostalCode));
    assert OutOf(a, TextField(Address1)) == OutOf(m, TextField(Address1));
    assert OutOf(a, TextField(Address2)) == OutOf(m, TextField(Address2));
  }

  lemma HealthTextsAgree(a: MemberRecord, m: MemberRecord)
    requires forall f :: OutOf(a, f) == OutOf(m, f)
    ensures a.symptoms == m.symptoms && a.hospitalName == m.hospitalName && a.occupation == m.occupation
  {
    assert OutOf(a, TextField(Symptoms)) == OutOf(m, TextField(Symptoms));
    assert OutOf(a, TextField(HospitalName)) == OutOf(m, TextField(HospitalName));
    assert OutOf(a, TextField(Occupation)) == OutOf(m, TextField(Occupation));
  }

  lemma CaseTextsAgree(a: MemberRecord, m: MemberRecord)
    requires forall f :: OutOf(a, f) == OutOf(m, f)
    ensures a.workplace == m.workplace && a.background == m.background && a.involvement == m.involvement && a.rawData == m.rawData
  {
    assert OutOf(a, TextField(Workplace)) == OutOf(m, TextField(Workplace));
    assert OutOf(a, TextField(Background)) == OutOf(m, TextField(Background));
    assert OutOf(a, TextField(Involvement)) == OutOf(m, TextField(Involvement));
    assert OutOf(a, TextField(RawData)) == OutOf(m, TextField(RawData));
  }

  // ---------------------------------------------------------------------------
  // Properties of the validator

  /** Reading field `f` of the record built from a valid input gives back the output
      of `f`'s rule. */
  lemma BuildField(raw: Input, f: Field)
    requires Parsed(raw, f).Pass?
    ensures OutOf(Build(raw), f) == Parsed(raw, f).out
  {
    ApplyKeepsValue(RuleOf(f), Get(raw, f));
    FieldOfAssemble(Outputs(raw), f);
  }

  /** A field that passes its rule is not among the errors, and on success the record
      holds the rule's output in that field, whatever the other fields hold. */
  lemma PassedField(raw: Input, f: Field)
    requires Parsed(raw, f).Pass?
    ensures Validate(raw).Invalid? ==> f !in Validate(raw).errors
    ensures Validate(raw).Valid? ==> OutOf(Validate(raw).record, f) == Parsed(raw, f).out
  {
    if Validate(raw).Valid? {
      BuildField(raw, f);
    }
  }

  /** A field that fails its rule makes the whole record invalid, with the rule's
      issue reported under that field. */
  lemma FailedField(raw: Input, f: Field)
    requires Parsed(raw, f).Fail?
    ensures Validate(raw).Invalid? && f in Validate(raw).errors
    ensures Validate(raw).errors[f] == Parsed(raw, f).issue
  {
  }

  /** On success every output field equals its input field, except that "" and null
      become absent in the preprocessed fields; and the record is well formed. */
  lemma ValidKeepsInput(raw: Input)
    requires Validate(raw).Valid?
    ensures forall f :: Encode(OutOf(Validate(raw).record, f)) == Normalize(RuleOf(f), Get(raw, f))
    ensures WellFormed(Validate(raw).record)
  {
    var m := Validate(raw).record;
    forall f
      ensures Encode(OutOf(m, f)) == Normalize(RuleOf(f), Get(raw, f))
      ensures Admissible(RuleOf(f), OutOf(m, f))
    {
      BuildField(raw, f);
      ApplyKeepsValue(RuleOf(f), Get(raw, f));
    }
  }

  /** Each field of a well-formed record passes its rule when written back, and the
      record rebuilt from the written-back form holds the same output there. */
  lemma ToInputField(m: MemberRecord, f: Field)
    requires WellFormed(m)
    ensures Parsed(ToInput(m), f) == Pass(OutOf(m, f))
    ensures OutOf(Build(ToInput(m)), f) == OutOf(m, f)
  {
    ApplyAcceptsAdmissible(RuleOf(f), OutOf(m, f));
    BuildField(ToInput(m), f);
  }

  /** The record rebuilt from a well-formed record's form object is that record. */
  lemma RebuildsRecord(m: MemberRecord)
    requires WellFormed(m)
    ensures Build(ToInput(m)) == m
  {
    var r := Build(ToInput(m));
    forall f ensures OutOf(r, f) == OutOf(m, f) {
      ToInputField(m, f);
    }
    FieldsDetermineRecord(r, m);
  }

  /** Every well-formed record is accepted back from its own form object unchanged. */
  lemma WellFormedRoundTrip(m: MemberRecord)
    requires WellFormed(m)
    ensures Validate(ToInput(m)) == Valid(m)
  {
    var raw := ToInput(m);
    forall f ensures Parsed(raw, f).Pass? {
      ToInputField(m, f);
    }
    RebuildsRecord(m);
  }

  /** Validating the written-back output of a successful validation gives the same
      record again. */
  lemma ValidateIdempotent(raw: Input)
    requires Validate(raw).Valid?
    ensures Validate(ToInput(Validate(raw).record)) == Validate(raw)
  {
    ValidKeepsInput(raw);
    WellFormedRoundTrip(Validate(raw).record);
  }

  // ---------------------------------------------------------------------------
  // Field by field, whatever the other fields hold

  /** A required name is rejected when undefined or "", and any other string is
      accepted as it is, whitespace-only included (there is no trimming). */
  lemma NameVerdict(raw: Input, k: NameKey)
    ensures Get(raw, NameField(k)) == None ==>
              Validate(raw).Invalid? && Validate(raw).errors[NameField(k)] == Missing
    ensures Get(raw, NameField(k)) == Some(Str("")) ==>
              Validate(raw).Invalid? && Validate(raw).errors[NameField(k)] == TooSmall(RequiredMessage)
    ensures forall s :: s != "" && Get(raw, NameField(k)) == Some(Str(s)) ==>
              (Validate(raw).Invalid? ==> NameField(k) !in Validate(raw).errors) &&
              (Validate(raw).Valid? ==> NameValue(Validate(raw).record, k) == s)
  {
    var f := NameField(k);
    assert Parsed(raw, f) == RequiredString(Get(raw, f));
    if Parsed(raw, f).Pass? { PassedField(raw, f); } else { FailedField(raw, f); }
  }

  /** `age` and `annual_income`: a negative number is rejected with the minimum
      message; zero and every positive number are kept as they are; "", null and
      undefined leave the field absent. */
  lemma AmountVerdict(raw: Input, k: AmountKey)
    ensures forall n :: Get(raw, AmountField(k)) == Some(Num(n)) && n < 0.0 ==>
              Validate(raw).Invalid? && Validate(raw).errors[AmountField(k)] == TooSmall(MinimumMessage)
    ensures forall n :: Get(raw, AmountField(k)) == Some(Num(n)) && n >= 0.0 ==>
              (Validate(raw).Invalid? ==> AmountField(k) !in Validate(raw).errors) &&
              (Validate(raw).Valid? ==> AmountValue(Validate(raw).record, k) == Some(n))
    ensures EmptyToUndefined(Get(raw, AmountField(k))) == None && Validate(raw).Valid? ==>
              AmountValue(Validate(raw).record, k) == None
  {
    var f := AmountField(k);
    assert Parsed(raw, f) == OptionalNumber(Get(raw, f));
    if Parsed(raw, f).Pass? { PassedField(raw, f); } else { FailedField(raw, f); }
  }

  /** `birth_date`: a non-empty string is accepted exactly when it has the
      `DDDD-DD-DD` shape, and otherwise rejected with the format message. */
  lemma BirthDateVerdict(raw: Input)
    ensures forall s :: s != "" && Get(raw, BirthDate) == Some(Str(s)) ==>
              (DateShaped(s) ==> (Validate(raw).Invalid? ==> BirthDate !in Validate(raw).errors) &&
                                 (Validate(raw).Valid? ==> Validate(raw).record.birthDate == Some(s))) &&
              (!DateShaped(s) ==> Validate(raw).Invalid? &&
                                  Validate(raw).errors[BirthDate] == BadFormat(DateFormatMessage))
  {
    assert Parsed(raw, BirthDate) == DateString(Get(raw, BirthDate));
    if Parsed(raw, BirthDate).Pass? { PassedField(raw, BirthDate); } else { FailedField(raw, BirthDate); }
  }

  /** The format is checked character by character only: a month of 13 and a day of
      40 pass. */
  lemma NoCalendarCheck()
    ensures Parsed(map[BirthDate := Str("2024-13-40")], BirthDate) == Pass(Text("2024-13-40"))
  {
  }

  /** A categorical field comes out absent or holding one of its labels; a non-empty
      string outside the label set is rejected, not dropped. */
  lemma CategoryVerdict(raw: Input, k: CategoryKey)
    ensures Validate(raw).Valid? ==>
              var c := CategoryValue(Validate(raw).record, k);
              c == None || c.value in Labels(k)
    ensures forall s :: s != "" && s !in Labels(k) && Get(raw, CategoryField(k)) == Some(Str(s)) ==>
              Validate(raw).Invalid? && Validate(raw).errors[CategoryField(k)] == NotInEnum(Labels(k))
  {
    var f := CategoryField(k);
    assert Parsed(raw, f) == OptionalEnum(Labels(k), Get(raw, f));
    if Parsed(raw, f).Pass? {
      PassedField(raw, f);
      ApplyKeepsValue(RuleOf(f), Get(raw, f));
    } else {
      FailedField(raw, f);
    }
  }

  /** The flags and `id` are not preprocessed: "" and null are rejected there, not
      turned into absent. */
  lemma StrictFieldsRejectEmpty(raw: Input, f: Field)
    requires f == Id || f.FlagField?
    requires Get(raw, f) == Some(Str("")) || Get(raw, f) == Some(Null)
    ensures Validate(raw).Invalid? && f in Validate(raw).errors
    ensures Validate(raw).errors[f] == if f == Id && Get(raw, f) == Some(Str("")) then NotUuid else WrongType
  {
    if f == Id {
      assert Parsed(raw, f) == OptionalUuid(Get(raw, f));
    } else {
      assert Parsed(raw, f) == OptionalBoolean(Get(raw, f));
    }
    FailedField(raw, f);
  }

  /** The free-text fields accept every string and keep it unchanged; only "" and
      null become absent. */
  lemma FreeTextVerdict(raw: Input, k: TextKey)
    ensures forall s :: s != "" && Get(raw, TextField(k)) == Some(Str(s)) ==>
              (Validate(raw).Invalid? ==> TextField(k) !in Validate(raw).errors) &&
              (Validate(raw).Valid? ==> TextValue(Validate(raw).record, k) == Some(s))
    ensures EmptyToUndefined(Get(raw, TextField(k))) == None && Validate(raw).Valid? ==>
              TextValue(Validate(raw).record, k) == None
  {
    var f := TextField(k);
    assert Parsed(raw, f) == OptionalString(Get(raw, f));
    if Parsed(raw, f).Pass? {
      PassedField(raw, f);
      if Validate(raw).Valid? {
        TextOfValid(raw, k);
      }
    }
  }

  /** On success a free-text field of the record holds its rule's output. */
  lemma TextOfValid(raw: Input, k: TextKey)
    requires Validate(raw).Valid?
    ensures TextValue(Validate(raw).record, k) == AsText(Output(raw, TextField(k)))
  {
    PassedField(raw, TextField(k));
    assert OutOf(Validate(raw).record, TextField(k)) == TextOut(TextValue(Validate(raw).record, k));
  }
}
