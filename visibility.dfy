/** Conditional visibility: whether a field is shown, given its `showIf`
    conditions and the current value map. */
module Visibility {
  import opened FormTypes
  import opened JsString

  /** One condition evaluated against the value map: strict equality, its
      negation, a substring test on the textual forms, and pass for anything else. */
  function ConditionHolds(c: FieldCondition, values: FormValues): (r: bool)
    ensures c.operator == Equals ==> (r <==> c.field in values && values[c.field] == c.value)
    ensures c.operator == NotEquals ==> (r <==> !(c.field in values && values[c.field] == c.value))
    ensures c.operator == Contains ==>
              (r <==> exists i: nat :: OccursAt(Display(Lookup(values, c.field)), Display(Some(c.value)), i))
    ensures c.operator.UnknownOperator? ==> r
  {
    var fieldValue := Lookup(values, c.field);
    match c.operator
    case Equals => fieldValue == Some(c.value)
    case NotEquals => fieldValue != Some(c.value)
    case Contains =>
      IncludesIff(Display(fieldValue), Display(Some(c.value)));
      Includes(Display(fieldValue), Display(Some(c.value)))
    case UnknownOperator(_) => true
  }

  /** Conjunction of a list of conditions. */
  function AllHold(conds: seq<FieldCondition>, values: FormValues): (r: bool)
    ensures r <==> forall i :: 0 <= i < |conds| ==> ConditionHolds(conds[i], values)
  {
    if conds == [] then true
    else ConditionHolds(conds[0], values) && AllHold(conds[1..], values)
  }

  /** A field without `showIf` is always shown; otherwise it is shown exactly
      when every listed condition holds (so an empty list shows it). */
  function ShouldShowField(field: FormField, values: FormValues): (r: bool)
    ensures field.showIf.None? ==> r
    ensures field.showIf.Some? ==>
              (r <==> forall i :: 0 <= i < |field.showIf.value| ==> ConditionHolds(field.showIf.value[i], values))
  {
    match field.showIf
    case None => true
    case Some(conds) => AllHold(conds, values)
  }

  /** `notEquals` is exactly the negation of `equals` on the same field and value. */
  lemma NotEqualsIsNegation(f: string, v: Val, values: FormValues)
    ensures ConditionHolds(FieldCondition(f, NotEquals, v), values)
            == !ConditionHolds(FieldCondition(f, Equals, v), values)
  {
  }

  /** A condition on a field the map does not hold compares against `undefined`:
      `equals` fails, `notEquals` passes, and `contains` searches the text "undefined". */
  lemma MissingField(c: FieldCondition, values: FormValues)
    requires c.field !in values
    ensures c.operator == Equals ==> !ConditionHolds(c, values)
    ensures c.operator == NotEquals ==> ConditionHolds(c, values)
    ensures c.operator == Contains ==> (ConditionHolds(c, values) <==> Includes("undefined", Display(Some(c.value))))
  {
  }

  /** A consequence of the textual comparison: `contains "def"` holds of a field
      the user never filled in. */
  lemma MissingFieldContainsUndefinedText(f: string, values: FormValues)
    requires f !in values
    ensures ConditionHolds(FieldCondition(f, Contains, Str("def")), values)
  {
    assert OccursAt("undefined", "def", 2);
  }

  /** `contains "pro"` matches "professional" and does not match "basic". */
  lemma ContainsExample(f: string, values: FormValues)
    ensures ConditionHolds(FieldCondition(f, Contains, Str("pro")), values[f := Str("professional")])
    ensures !ConditionHolds(FieldCondition(f, Contains, Str("pro")), values[f := Str("basic")])
  {
    assert OccursAt("professional", "pro", 0);
    var basic := "basic";
    forall i: nat ensures !OccursAt(basic, "pro", i) {
      if i + 3 <= |basic| {
        assert basic[i] != 'p';
        assert basic[i..i + 3][0] == basic[i];
      }
    }
  }

  /** A two-condition field is shown iff both conditions hold, through all four
      combinations of their truth values. */
  lemma TwoConditions(field: FormField, c1: FieldCondition, c2: FieldCondition, values: FormValues)
    requires field.showIf == Some([c1, c2])
    ensures ShouldShowField(field, values) <==> ConditionHolds(c1, values) && ConditionHolds(c2, values)
  {
    assert field.showIf.value[0] == c1 && field.showIf.value[1] == c2;
  }

  /** The fields a list of conditions reads. */
  function ReferencedFields(conds: seq<FieldCondition>): (r: set<string>)
    ensures forall i :: 0 <= i < |conds| ==> conds[i].field in r
  {
    set i | 0 <= i < |conds| :: conds[i].field
  }

  /** Visibility depends on the value map only at the fields its conditions name. */
  lemma VisibilityDependsOnlyOnReferencedFields(field: FormField, v1: FormValues, v2: FormValues)
    requires forall k :: k in ReferencedFields(field.showIf.GetOr([])) ==> Lookup(v1, k) == Lookup(v2, k)
    ensures ShouldShowField(field, v1) == ShouldShowField(field, v2)
  {
    var conds := field.showIf.GetOr([]);
    forall i | 0 <= i < |conds|
      ensures ConditionHolds(conds[i], v1) == ConditionHolds(conds[i], v2)
    {
      assert Lookup(v1, conds[i].field) == Lookup(v2, conds[i].field);
    }
  }
}
