# Form builder: schema-driven validation and visibility

A Dafny model of the `FormBuilder` React component. The component renders a
form from a declarative schema. The model covers three parts of it:

- **The validation builder** (`generateZodSchema`). It walks the schema's
  fields in order. Each field gets a validator: a bare number validator for a
  `number` field, and a string validator for any other type. A string
  validator collects one constraint per `required` rule (minimum length 1) and
  one per `pattern` rule (a regular expression), in rule order, each with the
  rule's message. `min`, `max` and `custom` rules are dropped. The validators
  go into a dictionary keyed by field id, so a later field with a repeated id
  overwrites an earlier one. A `pattern` whose text does not compile makes
  construction fail at that rule.
- **The visibility evaluator** (`shouldShowField`). A field with no `showIf`
  is always shown. Otherwise it is shown when every condition holds:
  - `equals` is strict equality with the value in the value map;
  - `notEquals` is its negation;
  - `contains` tests whether the condition value's text occurs in the text of
    the field's value;
  - any other operator holds.

  A field missing from the map reads as `undefined`, whose text is
  `"undefined"`. Field ids that name members every JavaScript object inherits
  (such as `toString`) are the exception; see "Left out".
- **The component state**. The value map starts empty. If a pattern does not
  compile, rendering throws and no form exists; the model's `Render` returns
  the error. Otherwise the select and text change handlers each update exactly
  one key. A hidden field renders nothing, a shown `select` field renders a
  select control, and every other shown field renders a text input.

Modules, one per concern:

- `FormTypes`: the schema types of `lib/form-builder/form-builder.types.ts`
  and the value map.
- `JsString`: the JavaScript string behaviour the evaluator uses: `String(x)`
  for integers and `undefined`, and `includes`.
- `Visibility`: `shouldShowField`.
- `ZodSchema`: the builder. It has two methods for the source's outer and inner
  loops, proved equal to the functional specifications `Build` and `BuildField`. It also says
  which values a validator accepts.
- `FormBuilderComponent`: the `FormBuilder` class (schema, validators, value
  map), its change handlers and its render dispatch, plus lemmas about
  sequences of edits.

The regular-expression engine is not modelled. Two parameters stand in for it:

- `validRegex(p)`: the pattern text `p` compiles (`new RegExp` does not throw);
- `matches(p, s)`: the compiled pattern `p` accepts `s`.

Two consequences of the code as written are proved:

- A number field is validated as a number (`z.number()`), but both change
  handlers store the text the user typed or chose. Once a number field has
  been edited, its validator rejects its value (`NumberFieldRejectsEditedValue`).
- `contains` on a field the user never filled in searches the text
  `"undefined"`. So `contains "def"` holds for an empty field
  (`MissingFieldContainsUndefinedText`).

## Model

| member | source | states |
|---|---|---|
| `JsString.NatToDecimal` | components/form-builder/form-builder.tsx:75 | `String(n)` of a natural number is a non-empty string of decimal digits with no leading zero |
| `JsString.IntToDecimal` | components/form-builder/form-builder.tsx:75 | `String(n)` of an integer starts with a minus sign exactly when n is negative, followed by the canonical digits of its magnitude |
| `JsString.Display` | components/form-builder/form-builder.tsx:75 | `String(x)` gives "undefined" for a missing value, the string itself for a string, and a numeral that reads back as n for a number n |
| `JsString.Includes` | components/form-builder/form-builder.tsx:75 | `s.includes(t)` holds whenever t is a prefix of s, and only when t is no longer than s (equal when as long) |
| `FormTypes.Lookup` | components/form-builder/form-builder.tsx:67 | reading `formValues[field]` gives the stored value when the key is present and `undefined` otherwise |
| `JsString.NatToDecimalRoundTrip` | components/form-builder/form-builder.tsx:75 | reading back the digits of `String(n)` gives n |
| `JsString.IntToDecimalRoundTrip` | components/form-builder/form-builder.tsx:75 | `String(n)` of any integer, sign included, reads back as n, so distinct numbers have distinct texts |
| `JsString.IncludesIff` | components/form-builder/form-builder.tsx:75 | `s.includes(t)` holds iff t occurs in s at some index |
| `Visibility.ConditionHolds` | components/form-builder/form-builder.tsx:67-78 | `equals` holds iff the field is in the map with exactly the condition's value; `notEquals` iff not; `contains` iff the condition value's text occurs in the field value's text; any other operator holds |
| `Visibility.AllHold` | components/form-builder/form-builder.tsx:66 | a list of conditions holds iff every condition in it holds |
| `Visibility.ShouldShowField` | components/form-builder/form-builder.tsx:63-80 | a field without `showIf` is shown for every value map; with `showIf` it is shown iff every listed condition holds, so an empty list shows it |
| `Visibility.NotEqualsIsNegation` | components/form-builder/form-builder.tsx:70-73 | `notEquals` is exactly the negation of `equals` on the same field and value |
| `Visibility.MissingField` | components/form-builder/form-builder.tsx:67-75 | for a field absent from the map, `equals` fails, `notEquals` holds, and `contains` tests the text "undefined" |
| `Visibility.MissingFieldContainsUndefinedText` | components/form-builder/form-builder.tsx:74-75 | `contains "def"` holds for a field absent from the map |
| `Visibility.ContainsExample` | components/form-builder/form-builder.tsx:74-75 | `contains "pro"` holds of "professional" and fails for "basic" |
| `Visibility.TwoConditions` | components/form-builder/form-builder.tsx:66-79 | a field with two conditions is shown iff both hold, in all four combinations |
| `Visibility.VisibilityDependsOnlyOnReferencedFields` | components/form-builder/form-builder.tsx:66-67 | two value maps that agree on the fields the conditions name (none when `showIf` is absent) give the same visibility |
| `ZodSchema.PatternSource` | components/form-builder/form-builder.tsx:43 | the text `new RegExp(rule.value)` compiles: empty for an absent value, the string itself, or a numeral reading back as the number |
| `ZodSchema.RuleConstraint` | components/form-builder/form-builder.tsx:38-45 | only `required` and `pattern` contribute a constraint, each with the rule's message: a minimum length of 1, or a regular expression over the rule's value |
| `ZodSchema.FirstInvalidRegex` | components/form-builder/form-builder.tsx:43 | finds nothing iff every pattern compiles; otherwise it returns the text of a constraint's pattern that does not compile |
| `ZodSchema.GenerateZodSchema` | components/form-builder/form-builder.tsx:29-54 | the nested loops compute exactly `Build`: the validator dictionary, or the error of the first pattern that does not compile |
| `ZodSchema.FieldSchema` | components/form-builder/form-builder.tsx:33-48 | the inner loop computes exactly `BuildField`: the field's validator, or the error of its first pattern that does not compile |
| `ZodSchema.TranslateConcat` | components/form-builder/form-builder.tsx:36-47 | rules are translated one by one in list order: the translation of a concatenation is the concatenation of the translations |
| `ZodSchema.SingleRule` | components/form-builder/form-builder.tsx:39-44 | `required` becomes a minimum length of 1 with the rule's message; `pattern` becomes a regular expression over the rule's value with the rule's message |
| `ZodSchema.IgnoredRuleContributesNothing` | components/form-builder/form-builder.tsx:38-45 | a `min`, `max` or `custom` rule anywhere in the list leaves the constraints unchanged |
| `ZodSchema.IgnoredRulesNeverBlock` | components/form-builder/form-builder.tsx:38-45 | a rule list made only of `min`, `max` and `custom` yields no constraints |
| `ZodSchema.NumberFieldIgnoresRules` | components/form-builder/form-builder.tsx:33-37 | a number field always builds to a bare number validator, whatever its rules |
| `ZodSchema.FieldFailsAtRule` | components/form-builder/form-builder.tsx:42-43 | a string field whose rule j is a pattern that does not compile, after only compiling patterns, fails with that pattern's text |
| `ZodSchema.BuildSucceedsIff` | components/form-builder/form-builder.tsx:32-51 | construction succeeds iff every field builds |
| `ZodSchema.BuildFailsAtFirstBadField` | components/form-builder/form-builder.tsx:32-51 | a failed construction reports the error of the first field that fails to build |
| `ZodSchema.BuildKeys` | components/form-builder/form-builder.tsx:32-50 | a successful build holds exactly one validator per distinct field id |
| `ZodSchema.BuildLastWins` | components/form-builder/form-builder.tsx:32-50 | the validator under an id is the one of the last field with that id |
| `ZodSchema.FailedMessages` | components/form-builder/form-builder.tsx:40-43 | the reported messages are empty iff every constraint holds; each is the message of a failing constraint, every failing constraint's message is reported, and the first message is that of the first failing constraint |
| `ZodSchema.Issues` | components/form-builder/form-builder.tsx:33-43 | a string validator reports a type issue for anything but a string, a number validator for anything but a number; for a string, every issue is a failing constraint's message and every failing constraint is reported |
| `ZodSchema.AcceptsIff` | components/form-builder/form-builder.tsx:33-43 | a value passes iff it has the validator's type and every constraint holds |
| `ZodSchema.RequiredRule` | components/form-builder/form-builder.tsx:39-40 | with a single `required` rule, the empty string is rejected with exactly the rule's message and any other string passes |
| `ZodSchema.PatternRule` | components/form-builder/form-builder.tsx:42-43 | with a single `pattern` rule, a string passes iff the pattern matches it, and otherwise is rejected with exactly the rule's message |
| `FormBuilderComponent.WithValue` | components/form-builder/form-builder.tsx:92 | an edit adds the edited key with the new value and keeps every other entry; nothing is removed |
| `FormBuilderComponent.EditsRetainOtherValues` | components/form-builder/form-builder.tsx:125 | a field's value survives any series of edits to other fields |
| `FormBuilderComponent.EditsKeys` | components/form-builder/form-builder.tsx:125 | after a series of edits the map's keys are the old keys plus the edited ids |
| `FormBuilderComponent.LastEditWins` | components/form-builder/form-builder.tsx:92 | after a series of edits a field holds the text of the last edit to it |
| `FormBuilderComponent.EditedFieldHoldsText` | components/form-builder/form-builder.tsx:124-125 | an edited field holds a string |
| `FormBuilderComponent.HideAndShowRetainsValue` | components/form-builder/form-builder.tsx:83 | hiding a field through its condition and showing it again leaves the entered value in the map |
| `FormBuilderComponent.EditElsewhereKeepsVisibility` | components/form-builder/form-builder.tsx:66-67 | an edit to a field no condition names leaves visibility unchanged |
| `FormBuilderComponent.NumberFieldRejectsEditedValue` | components/form-builder/form-builder.tsx:33 | once a number field has been edited, its value fails its validator with a type error |
| `FormBuilderComponent.FormBuilder.constructor` | components/form-builder/form-builder.tsx:26-56 | the value map starts empty and the validators are those `Build` gives for the schema's fields, or its error when a pattern does not compile |
| `FormBuilderComponent.FormBuilder.Render` | components/form-builder/form-builder.tsx:56-142 | a render yields the construction error when a pattern does not compile, and otherwise one entry per schema field in order, empty exactly for the hidden fields |
| `FormBuilderComponent.FormBuilder.RenderField` | components/form-builder/form-builder.tsx:82-136 | a hidden field renders nothing; a shown select field renders a select control with its options; every other shown type renders a text input; a control carries the field's id, label and placeholder (given a successful build) |
| `FormBuilderComponent.FormBuilder.RenderFrom` | components/form-builder/form-builder.tsx:142 | after a successful build the form renders one entry per schema field, in schema order |
| `FormBuilderComponent.FormBuilder.OnSelectValueChange` | components/form-builder/form-builder.tsx:91-92 | choosing an option sets that field's entry to the option's value and changes no other entry |
| `FormBuilderComponent.FormBuilder.OnInputChange` | components/form-builder/form-builder.tsx:124-125 | typing sets that field's entry to the input's text and changes no other entry |

## Left out

- Rendering: the JSX, the `Label`, `Input` and `Select` widgets and CSS classes
  (form-builder.tsx:86-150). The model keeps only which control a field gets
  and the id, label, placeholder and options passed to it.
- The react-hook-form binding: `useForm`, `register`, `form.setValue`, the
  error display and `handleSubmit`. Its internals are not shown, and it owns
  the values that are validated on submit. Submission and whole-form
  validation are therefore not modelled. `Issues` and `AcceptsIff` say what
  one validator accepts on its own.
- Zod internals: the text of Zod's own messages for a wrong or missing type
  is reduced to `InvalidType`, and `z.object` composition to the dictionary.
- The JavaScript regular-expression engine. It is represented by the
  parameters `validRegex` and `matches`. A rule value that is itself a
  `RegExp` object is not modelled: rule values are a string, an integer or
  absent.
- Floating-point numbers. Numbers are integers. `String(n)` is plain decimal,
  which is what JavaScript produces for integers below 10^21 in magnitude.
- `ValidationRule.conditions`: it is declared but never read by the component.
- Validators are built once, in the constructor. The component rebuilds them
  on every render, which gives the same result while the schema is unchanged.
  The model holds the schema constant.
- String length is counted in Dafny characters, not UTF-16 code units. Only
  `min(1)` uses it, and empty versus non-empty is the same under both.
- Operators and field types outside the declared unions appear as
  `UnknownOperator` and `UnknownType`. They model what the `default` branches
  do with a schema whose data does not follow the declared types. Their names
  are meant to lie outside the declared unions; the model does not enforce
  this. Rule types get no such variant, because the builder ignores any other
  rule text just as it ignores `min`, `max` and `custom`.
- FormTypes.Lookup: a field id that names a member every JavaScript object
  inherits (`toString`, `constructor`, `__proto__`, ...) reads back that
  member, not `undefined`, when the user has not edited it. So `contains`
  against such a field searches the member's text. The model reads every
  absent key as `undefined`.
- ZodSchema.BuildKeys: storing a validator under the id `__proto__` replaces
  the dictionary's prototype instead of adding a key. The model treats that id
  like any other.
- FormBuilderComponent.FormBuilder.constructor: the error thrown during render
  is modelled as the `Failure` the constructor stores. `Render` returns it.
  `RenderField`, `RenderFrom` and both change handlers require a successful
  build, because none of them exists when the render throws.
