# Member intake schema, modelled in Dafny

This project models `memberFormSchema`, the zod schema that validates the member
intake form of the members app (`lib/schema/member.ts`). The form hands the
schema a plain object of up to 27 keys. Every key has one rule:

- `id` must be a UUID, if present.
- `last_name` and `first_name` are required, non-empty strings.
- `birth_date` must have the `YYYY-MM-DD` shape.
- `age` and `annual_income` are numbers of at least 0.
- Five categorical fields must take one of their fixed labels.
- Three boolean flags.
- Thirteen free-text fields.

Most rules first run `emptyToUndefined`, which turns `""` and `null` into
"absent". The schema either returns the typed record, or reports every field
that failed with the reason.

The model is a pure validator:

- `Raw` (`raw.dfy`): the JavaScript values a form field can hold (string, number,
  boolean, null, anything else) and `Option` for "key absent / undefined".
- `Pattern` (`pattern.dfy`): anchored regular expressions that are a sequence of
  fixed-count character classes (`^\d{4}-\d{2}-\d{2}$` and the UUID shape). It
  proves that matching piece by piece is matching position by position.
- `FieldRules` (`field_rules.dfy`): `emptyToUndefined`, the reusable field
  schemas (`optionalString`, `optionalNumber`, `dateString`), the five label
  sets, and the rules used without preprocessing (required name, optional
  boolean, optional UUID). Each is a function from the raw field value to `Pass`
  of a typed output or `Fail` of an issue. The rules are also kept as data
  (`Rule`), with what each one admits.
- `MemberSchema` (`member_schema.dfy`): the key table, the typed `MemberRecord`,
  `Validate` (the schema's `safeParse`), the record written back as a form
  object (`ToInput`), and the properties of the whole record.

The two custom messages are modelled exactly: `必須です` for an empty name, and
`0以上で入力してください` for a negative number. So is the date-format message.
For the other failures the model names the kind of issue (`Missing`,
`WrongType`, `NotUuid`, `NotInEnum`), not zod's default wording.

Four behaviours of the schema that are easy to get wrong:

- Names are not trimmed. `min(1)` accepts a whitespace-only name
  (`NameVerdict`).
- `birth_date` is checked against the regular expression only, with no
  calendar check. `"2024-13-40"` passes (`NoCalendarCheck`).
- A categorical value outside its label set is rejected with an issue, not
  dropped to absent (`CategoryVerdict`).
- The optional booleans and `id` are not preprocessed. `""` and `null` there are
  errors, not absent (`StrictFieldsRejectEmpty`).

## Model

| member | source | states |
|---|---|---|
| FieldRules.EmptyToUndefined | lib/schema/member.ts:3-8 | `""` and `null` become absent, every other value (absent included) is returned unchanged |
| FieldRules.EmptyToUndefinedIdempotent | lib/schema/member.ts:3-8 | applying `emptyToUndefined` twice is the same as applying it once |
| FieldRules.OptionalString | lib/schema/member.ts:10 | passes exactly on absent, null or any string; the output is the preprocessed value (`""`/null absent, other strings unchanged); the only failure is a wrong type |
| FieldRules.OptionalNumber | lib/schema/member.ts:11-14 | passes exactly on absent, `""`, null or a number ≥ 0, keeping the number; a negative number fails with `0以上で入力してください`; a non-number fails on type |
| FieldRules.DateString | lib/schema/member.ts:16-22 | passes exactly on absent, null, `""` or a string of the date shape, keeping the string; any other non-empty string fails with `YYYY-MM-DD形式で入力してください` |
| FieldRules.IsDate | lib/schema/member.ts:20 | the date check agrees with the regular expression `^\d{4}-\d{2}-\d{2}$` on every string |
| FieldRules.DateMeaning | lib/schema/member.ts:20 | a string matches the date regular expression iff it has ten characters, `-` at positions 4 and 7 and ASCII digits elsewhere (no calendar check) |
| FieldRules.OptionalEnum | lib/schema/member.ts:24-33 | passes exactly on absent, null, `""` or one of the labels, keeping the label; any other non-empty string fails listing the labels; a non-string fails on type |
| FieldRules.RequiredString | lib/schema/member.ts:37-38 | passes exactly on a non-empty string, kept as it is with no trimming; undefined is missing, `""` fails with `必須です`, any non-string fails on type |
| FieldRules.OptionalBoolean | lib/schema/member.ts:54 | passes exactly on absent or a boolean, kept as it is; `""`, null and every other value fail on type |
| FieldRules.OptionalUuid | lib/schema/member.ts:36 | passes exactly on absent or a UUID-shaped string, kept as it is; any other string (`""` included) is not a UUID; a non-string fails on type |
| FieldRules.IsUuid | lib/schema/member.ts:36 | the UUID check agrees with the pattern 8-4-4-4-12 hexadecimal digits on every string |
| FieldRules.UuidMeaning | lib/schema/member.ts:36 | a string matches the UUID pattern iff it has 36 characters, `-` at 8, 13, 18 and 23 and hexadecimal digits elsewhere |
| FieldRules.ApplyKeepsValue | lib/schema/member.ts:10-22 | a passing rule outputs its (preprocessed) input unchanged, and the output is one the rule admits |
| FieldRules.ApplyAcceptsAdmissible | lib/schema/member.ts:10-22 | every output a rule admits is accepted back unchanged |
| Pattern.MatchesExpanded | lib/schema/member.ts:20 | matching an anchored fixed-width pattern piece by piece is the same as matching it position by position over its full width |
| MemberSchema.RuleOf | lib/schema/member.ts:35-66 | the rule table: every key's rule is well formed (no label set contains `""`) |
| MemberSchema.Errors | lib/schema/member.ts:35-66 | the error map holds exactly the keys whose rule fails, each with its rule's issue |
| MemberSchema.Validate | lib/schema/member.ts:35-66 | the record is valid iff every key passes its rule; otherwise the errors are non-empty and name exactly the failing keys with their issues |
| MemberSchema.ToInput | lib/schema/member.ts:35-66 | writing a record back gives a form object whose every key holds that field's value, absent fields left out |
| MemberSchema.BuildField | lib/schema/member.ts:35-66 | each field of the built record is the output of that key's rule |
| MemberSchema.PassedField | lib/schema/member.ts:35-66 | a key that passes its rule is never among the errors, and on success the record holds its output |
| MemberSchema.FailedField | lib/schema/member.ts:35-66 | a key that fails its rule makes the record invalid and is reported with its rule's issue |
| MemberSchema.ValidKeepsInput | lib/schema/member.ts:35-66 | on success every field equals its input, except `""`/null become absent in the preprocessed keys; the record is well formed |
| MemberSchema.ToInputField | lib/schema/member.ts:35-66 | each field of a well-formed record passes its rule when written back, unchanged |
| MemberSchema.RebuildsRecord | lib/schema/member.ts:35-66 | the record rebuilt from a well-formed record's form object is that record |
| MemberSchema.WellFormedRoundTrip | lib/schema/member.ts:35-66 | every well-formed record validates back to itself from its own form object |
| MemberSchema.ValidateIdempotent | lib/schema/member.ts:35-66 | validating the written-back result of a successful validation gives the same result |
| MemberSchema.NameVerdict | lib/schema/member.ts:37-38 | a missing name is reported missing, `""` is reported with `必須です`, any other string (whitespace-only included) is accepted unchanged |
| MemberSchema.AmountVerdict | lib/schema/member.ts:42 | a negative `age`/`annual_income` is reported with `0以上で入力してください`; 0 and positive numbers are kept; `""`, null and undefined leave the field absent |
| MemberSchema.BirthDateVerdict | lib/schema/member.ts:41 | a non-empty `birth_date` is accepted and kept iff it has the date shape, and otherwise reported with the format message |
| MemberSchema.NoCalendarCheck | lib/schema/member.ts:20 | `"2024-13-40"` passes the `birth_date` rule |
| MemberSchema.CategoryVerdict | lib/schema/member.ts:47-53 | a categorical field of a valid record is absent or one of its labels; a non-empty string outside the labels is reported with the label list |
| MemberSchema.StrictFieldsRejectEmpty | lib/schema/member.ts:36-62 | `""` or null in `id` or a boolean flag makes the record invalid: `""` in `id` is not a UUID, the rest are wrong types |
| MemberSchema.FreeTextVerdict | lib/schema/member.ts:55-58 | a free-text field accepts every non-empty string unchanged, and `""`/null leave it absent |

## Left out

- Stripping of keys the schema does not declare: the input is keyed by the 27
  declared keys only.
- The order in which zod collects issues, and the issue paths and codes. The
  model keeps one issue per failing key.
- zod's default messages for missing and wrong-typed values. Only the kind of
  issue is modelled.
- JavaScript numbers: NaN, infinities and floating-point rounding. Numbers are
  exact reals, so `-0` and NaN are not represented.
- FieldRules.OptionalUuid: accepts every 8-4-4-4-12 hexadecimal string in either case,
  which is what `.uuid()` checks in zod 3.22 and later in the 3.x line. zod
  3.20-3.21 and zod 4 also check the version and variant digits, so they reject
  strings such as `00000000-0000-0000-0000-000000000001` that `IsUuid` accepts.
  Under those versions the model is more permissive on exactly those strings.
- Determinism and not changing the input hold by construction: `Validate` is a
  function on values. No separate lemma states them.
- The screens (`app/complete.tsx`, `app/+html.tsx`, `app/(tabs)/create.tsx`) and
  the `z.infer` type alias (`types/member.ts`). `MemberRecord` plays the alias's
  role. The phone and postal-code split, the age calculation, submission and
  postal-code lookup are not part of this model.
