/** The form builder component: it holds the schema, the validators built from
    it and the value map; the change handlers update the map one key at a time,
    and each field renders as nothing, a select control or a text input. */
module FormBuilderComponent {
  import opened FormTypes
  import opened Visibility
  import opened ZodSchema

  // ---------------------------------------------------------------------------
  // Edits of the value map

  /** The update a change handler applies: the edited field takes the new value,
      every other entry stays as it was, and no entry is removed. */
  function WithValue(values: FormValues, id: string, v: Val): (r: FormValues)
    ensures r.Keys == values.Keys + {id}
    ensures r[id] == v
    ensures forall k :: k in values && k != id ==> r[k] == values[k]
  {
    values[id := v]
  }

  /** A user edit as the handlers receive it: a field id and the text entered or chosen. */
  datatype Edit = Edit(fieldId: string, text: string)

  /** The value map after a series of edits, applied in order. */
  function ApplyEdits(values: FormValues, edits: seq<Edit>): FormValues
    decreases |edits|
  {
    if edits == [] then values
    else
      var last := edits[|edits| - 1];
      WithValue(ApplyEdits(values, edits[..|edits| - 1]), last.fieldId, Str(last.text))
  }

  /** Edits never remove an entry: a field keeps its value however often other
      fields change and whatever becomes hidden. */
  lemma {:induction false} EditsRetainOtherValues(values: FormValues, edits: seq<Edit>, k: string)
    requires k in values
    requires forall j :: 0 <= j < |edits| ==> edits[j].fieldId != k
    ensures k in ApplyEdits(values, edits) && ApplyEdits(values, edits)[k] == values[k]
    decreases |edits|
  {
    if edits != [] {
      EditsRetainOtherValues(values, edits[..|edits| - 1], k);
    }
  }

  /** The map after a series of edits holds exactly the old keys and the edited ids. */
  lemma {:induction false} EditsKeys(values: FormValues, edits: seq<Edit>)
    ensures ApplyEdits(values, edits).Keys == values.Keys + (set j | 0 <= j < |edits| :: edits[j].fieldId)
    decreases |edits|
  {
    if edits != [] {
      var init := edits[..|edits| - 1];
      EditsKeys(values, init);
      var ids := set j | 0 <= j < |edits| :: edits[j].fieldId;
      var initIds := set j | 0 <= j < |init| :: init[j].fieldId;
      assert ids == initIds + {edits[|edits| - 1].fieldId} by {
        forall x | x in ids ensures x in initIds + {edits[|edits| - 1].fieldId} {
          var j :| 0 <= j < |edits| && edits[j].fieldId == x;
          if j < |init| { assert init[j] == edits[j]; }
        }
        forall x | x in initIds ensures x in ids {
          var j :| 0 <= j < |init| && init[j].fieldId == x;
          assert edits[j] == init[j];
        }
      }
    }
  }

  /** A field holds the text of the last edit made to it. */
  lemma {:induction false} LastEditWins(values: FormValues, edits: seq<Edit>, j: nat)
    requires j < |edits|
    requires forall l :: j < l < |edits| ==> edits[l].fieldId != edits[j].fieldId
    ensures edits[j].fieldId in ApplyEdits(values, edits)
    ensures ApplyEdits(values, edits)[edits[j].fieldId] == Str(edits[j].text)
    decreases |edits|
  {
    var init := edits[..|edits| - 1];
    if j < |edits| - 1 {
      forall l | j < l < |init| ensures init[l].fieldId != init[j].fieldId {
        assert init[l] == edits[l];
      }
      LastEditWins(values, init, j);
      assert init[j] == edits[j];
    }
  }

  /** Once a field has been edited it holds text. */
  lemma {:induction false} EditedFieldHoldsText(values: FormValues, edits: seq<Edit>, j: nat)
    requires j < |edits|
    ensures edits[j].fieldId in ApplyEdits(values, edits)
    ensures ApplyEdits(values, edits)[edits[j].fieldId].Str?
    decreases |edits|
  {
    var init := edits[..|edits| - 1];
    if j < |edits| - 1 && edits[|edits| - 1].fieldId != edits[j].fieldId {
      EditedFieldHoldsText(values, init, j);
      assert init[j] == edits[j];
    }
  }

  /** Hiding a field and showing it again keeps what was entered in it: with b shown
      while a equals `on`, setting a to `off` hides b, setting it back shows b, and
      b's value is still there. */
  lemma HideAndShowRetainsValue(b: FormField, a: string, on: string, off: string, x: string, values: FormValues)
    requires b.showIf == Some([FieldCondition(a, Equals, Str(on))])
    requires a != b.id && on != off
    ensures var entered := WithValue(values, b.id, Str(x));
            var hidden := WithValue(entered, a, Str(off));
            var shown := WithValue(hidden, a, Str(on));
            !ShouldShowField(b, hidden) && ShouldShowField(b, shown) && shown[b.id] == Str(x)
  {
    var entered := WithValue(values, b.id, Str(x));
    var hidden := WithValue(entered, a, Str(off));
    var shown := WithValue(hidden, a, Str(on));
    assert b.showIf.value[0] == FieldCondition(a, Equals, Str(on));
    assert !ConditionHolds(b.showIf.value[0], hidden);
  }

  /** An edit to a field no condition of `field` names leaves its visibility unchanged. */
  lemma EditElsewhereKeepsVisibility(field: FormField, values: FormValues, id: string, v: Val)
    requires id !in ReferencedFields(field.showIf.GetOr([]))
    ensures ShouldShowField(field, WithValue(values, id, v)) == ShouldShowField(field, values)
  {
    VisibilityDependsOnlyOnReferencedFields(field, values, WithValue(values, id, v));
  }

  /** Every edit stores text, and a number field's validator rejects text: once
      the user has edited a number field, its value never satisfies its validator. */
  lemma NumberFieldRejectsEditedValue(field: FormField, values: FormValues, edits: seq<Edit>, j: nat,
                                      matches: (string, string) -> bool)
    requires field.fieldType == Number
    requires j < |edits| && edits[j].fieldId == field.id
    ensures Issues(FieldValidator(field), Lookup(ApplyEdits(values, edits), field.id), matches) == [InvalidType]
  {
    EditedFieldHoldsText(values, edits, j);
  }

  // ---------------------------------------------------------------------------
  // The component

  /** What renderField yields for one field. */
  datatype Rendered =
    | Nothing
    | SelectControl(id: string, labelText: string, placeholder: Option<string>, options: seq<SelectOption>)
    | InputControl(id: string, labelText: string, placeholder: Option<string>)

  class FormBuilder {
    const schema: FormSchema
    /** The validators built from the schema's fields, or the construction error. */
    const validators: Result<map<string, Validator>, BuildError>
    var formValues: FormValues

    /** The component starts with an empty value map and builds its validators
        from the schema's fields. When the build fails (a pattern does not
        compile), the component's render throws: `Render` reports the error, and
        the render dispatch and the change handlers, which exist only in a
        rendered form, require a successful build. */
    constructor (schema: FormSchema, validRegex: string -> bool)
      ensures this.schema == schema
      ensures validators == Build(schema.fields, validRegex)
      ensures formValues == map[]
    {
      this.schema := schema;
      var built := GenerateZodSchema(schema.fields, validRegex);
      validators := built;
      formValues := map[];
    }

    /** A hidden field renders nothing; a shown select field renders a select
        control with its options; every other shown field renders a text input. */
    function RenderField(field: FormField): (r: Rendered)
      reads this
      requires validators.Success?
      ensures r.Nothing? <==> !ShouldShowField(field, formValues)
      ensures r.SelectControl? <==> ShouldShowField(field, formValues) && field.fieldType == Select
      ensures r.InputControl? <==> ShouldShowField(field, formValues) && field.fieldType != Select
      ensures !r.Nothing? ==> r.id == field.id && r.labelText == field.labelText && r.placeholder == field.placeholder
      ensures r.SelectControl? ==> r.options == field.options.GetOr([])
    {
      if !ShouldShowField(field, formValues) then Nothing
      else
        match field.fieldType
        case Select => SelectControl(field.id, field.labelText, field.placeholder, field.options.GetOr([]))
        case _ => InputControl(field.id, field.labelText, field.placeholder)
    }

    /** The rendered form: one entry per schema field, in schema order. */
    function RenderFrom(k: nat): (r: seq<Rendered>)
      reads this
      requires validators.Success?
      requires k <= |schema.fields|
      ensures |r| == |schema.fields| - k
      ensures forall i :: 0 <= i < |r| ==> r[i] == RenderField(schema.fields[k + i])
      decreases |schema.fields| - k
    {
      if k == |schema.fields| then []
      else [RenderField(schema.fields[k])] + RenderFrom(k + 1)
    }

    /** A render: the construction error when a pattern does not compile, and
        otherwise one entry per schema field, in schema order. */
    function Render(): (r: Result<seq<Rendered>, BuildError>)
      reads this
      ensures validators.Failure? ==> r == Failure(validators.error)
      ensures validators.Success? ==>
                r.Success? && |r.value| == |schema.fields| &&
                forall i :: 0 <= i < |schema.fields| ==>
                  (r.value[i].Nothing? <==> !ShouldShowField(schema.fields[i], formValues))
      ensures validators.Success? ==>
                forall i :: 0 <= i < |schema.fields| ==> r.value[i] == RenderField(schema.fields[i])
    {
      match validators
      case Failure(e) => Failure(e)
      case Success(_) => Success(RenderFrom(0))
    }

    /** The select control's change handler stores the chosen option's value. */
    method OnSelectValueChange(field: FormField, value: string)
      requires validators.Success?
      modifies this
      ensures formValues == WithValue(old(formValues), field.id, Str(value))
    {
      formValues := formValues[field.id := Str(value)];
    }

    /** The text input's change handler stores the input's current text. */
    method OnInputChange(field: FormField, text: string)
      requires validators.Success?
      modifies this
      ensures formValues == WithValue(old(formValues), field.id, Str(text))
    {
      formValues := formValues[field.id := Str(text)];
    }
  }
}
