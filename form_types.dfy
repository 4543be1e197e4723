/** The declarative schema of a form: fields, validation rules and visibility
    conditions, as declared in lib/form-builder/form-builder.types.ts, plus the
    value map the form builder keeps while the user edits. */
module FormTypes {

  datatype Option<+T> = None | Some(value: T) {
    function GetOr(default: T): T {
      match this
      case Some(v) => v
      case None => default
    }
  }

  datatype Result<+T, +E> = Success(value: T) | Failure(error: E)

  /** A scalar value of the `string | number` union. Numbers are integers here. */
  datatype Val = Str(s: string) | Num(n: int)

  /** The operator of a condition. The declared union has three members; a schema
      read at run time can carry any other text, which the evaluator does not reject.
      `UnknownOperator(name)` stands for such text only: its name is meant to lie
      outside "equals", "notEquals" and "contains", which are the other variants. */
  datatype Operator = Equals | NotEquals | Contains | UnknownOperator(name: string)

  datatype FieldCondition = FieldCondition(field: string, operator: Operator, value: Val)

  /** The rule type. Rule text outside the declared union has no variant of its own:
      the builder ignores it exactly as it ignores `min`, `max` and `custom`. */
  datatype RuleType = Required | Min | Max | Pattern | Custom

  /** `value` is untyped in the declaration; the model admits a scalar or nothing.
      `conditions` is declared but never read by the form builder. */
  datatype ValidationRule = ValidationRule(
    ruleType: RuleType,
    value: Option<Val>,
    message: string,
    conditions: Option<seq<FieldCondition>>)

  /** The field type. As for operators, a schema read at run time may carry another
      name; `UnknownType(name)` is meant for a name other than "text", "select" and
      "number". */
  datatype FieldType = Text | Select | Number | UnknownType(name: string)

  datatype SelectOption = SelectOption(labelText: string, value: string)

  datatype FormField = FormField(
    id: string,
    fieldType: FieldType,
    labelText: string,
    placeholder: Option<string>,
    options: Option<seq<SelectOption>>,
    validation: Option<seq<ValidationRule>>,
    showIf: Option<seq<FieldCondition>>)

  datatype FormSchema = FormSchema(id: string, title: string, fields: seq<FormField>)

  /** The live map from field id to the value the user entered. */
  type FormValues = map<string, Val>

  /** Reading a key of the value map: a missing key reads as `undefined` (None).
      Keys that name members inherited by every JavaScript object ("toString",
      "constructor", "__proto__", ...) are outside this model. */
  function Lookup(values: FormValues, key: string): (r: Option<Val>)
    ensures r.Some? <==> key in values
    ensures r.Some? ==> r.value == values[key]
  {
    if key in values then Some(values[key]) else None
  }
}
