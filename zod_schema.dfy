/** The validation specification built from a schema's fields: one validator
    per field id, each a base kind (string or number) plus the constraints
    translated from the field's rules. The regular-expression engine is not
    modelled: `validRegex` says whether a pattern compiles and `matches`
    whether a compiled pattern accepts a string. */
module ZodSchema {
  import opened FormTypes
  import opened JsString

  datatype BaseKind = StringBase | NumberBase

  /** A string check: a minimum length, or a regular expression to match.
      Each carries the message reported when it fails. */
  datatype Constraint = MinLength(n: nat, message: string) | Regex(source: string, message: string)

  datatype Validator = Validator(base: BaseKind, constraints: seq<Constraint>)

  /** Building fails when a pattern does not compile. The thrown error reports
      only the pattern; the field id is kept so that the model can say which
      field failed. */
  datatype BuildError = InvalidRegex(fieldId: string, source: string)

  /** The pattern text `new RegExp(value)` compiles: the empty pattern for
      `undefined`, the textual form of the value otherwise. */
  function PatternSource(value: Option<Val>): (r: string)
    ensures value.None? ==> r == ""
    ensures value.Some? && value.value.Str? ==> r == value.value.s
    ensures value.Some? && value.value.Num? ==> ParseInt(r) == value.value.n
  {
    IntToDecimalRoundTrip(if value.Some? && value.value.Num? then value.value.n else 0);
    match value
    case None => ""
    case Some(v) => Display(value)
  }

  /** The constraint a rule contributes to a string validator, if any. */
  function RuleConstraint(rule: ValidationRule): (r: Option<Constraint>)
    ensures r.Some? <==> rule.ruleType == Required || rule.ruleType == Pattern
    ensures r.Some? ==> r.value.message == rule.message
    ensures rule.ruleType == Required ==> r.value.MinLength? && r.value.n == 1
    ensures rule.ruleType == Pattern ==> r.value.Regex? && r.value.source == PatternSource(rule.value)
  {
    match rule.ruleType
    case Required => Some(MinLength(1, rule.message))
    case Pattern => Some(Regex(PatternSource(rule.value), rule.message))
    case Min => None
    case Max => None
    case Custom => None
  }

  function OptionToSeq<T>(o: Option<T>): seq<T>
  {
    match o
    case None => []
    case Some(x) => [x]
  }

  /** The constraints of a list of rules, in list order. */
  function Translate(rules: seq<ValidationRule>): seq<Constraint>
    decreases |rules|
  {
    if rules == [] then []
    else Translate(rules[..|rules| - 1]) + OptionToSeq(RuleConstraint(rules[|rules| - 1]))
  }

  function RulesOf(field: FormField): seq<ValidationRule>
  {
    field.validation.GetOr([])
  }

  /** The validator of one field: a number field is a bare number validator;
      every other field type is a string validator carrying its rules' constraints. */
  function FieldValidator(field: FormField): Validator
  {
    if field.fieldType == Number then Validator(NumberBase, [])
    else Validator(StringBase, Translate(RulesOf(field)))
  }

  predicate AllRegexValid(cs: seq<Constraint>, validRegex: string -> bool)
  {
    forall k :: 0 <= k < |cs| && cs[k].Regex? ==> validRegex(cs[k].source)
  }

  /** The first pattern, in order, that does not compile. */
  function FirstInvalidRegex(cs: seq<Constraint>, validRegex: string -> bool): (r: Option<string>)
    ensures r.None? <==> AllRegexValid(cs, validRegex)
    ensures r.Some? ==> exists k :: 0 <= k < |cs| && cs[k] == Regex(r.value, cs[k].message) && !validRegex(r.value)
  {
    if cs == [] then None
    else if cs[0].Regex? && !validRegex(cs[0].source) then Some(cs[0].source)
    else
      var rest := FirstInvalidRegex(cs[1..], validRegex);
      assert rest.None? ==> AllRegexValid(cs, validRegex) by {
        if rest.None? {
          forall k | 0 <= k < |cs| && cs[k].Regex? ensures validRegex(cs[k].source) {
            if k > 0 { assert cs[1..][k - 1] == cs[k]; }
          }
        }
      }
      assert rest.Some? ==> exists k :: 0 <= k < |cs| && cs[k] == Regex(rest.value, cs[k].message) && !validRegex(rest.value) by {
        if rest.Some? {
          var k :| 0 <= k < |cs[1..]| && cs[1..][k] == Regex(rest.value, cs[1..][k].message) && !validRegex(rest.value);
          assert cs[k + 1] == cs[1..][k];
        }
      }
      rest
  }

  /** Building one field's validator, which fails at its first pattern that does not compile. */
  function BuildField(field: FormField, validRegex: string -> bool): Result<Validator, BuildError>
  {
    var v := FieldValidator(field);
    match FirstInvalidRegex(v.constraints, validRegex)
    case Some(src) => Failure(InvalidRegex(field.id, src))
    case None => Success(v)
  }

  /** The dictionary of validators keyed by field id, filled in field order so that
      a later field overwrites an earlier one with the same id; the first field
      that fails to build aborts the whole construction. */
  function Build(fields: seq<FormField>, validRegex: string -> bool): Result<map<string, Validator>, BuildError>
    decreases |fields|
  {
    if fields == [] then Success(map[])
    else
      match Build(fields[..|fields| - 1], validRegex)
      case Failure(e) => Failure(e)
      case Success(m) =>
        var last := fields[|fields| - 1];
        match BuildField(last, validRegex)
        case Failure(e) => Failure(e)
        case Success(v) => Success(m[last.id := v])
  }

  function FieldIds(fields: seq<FormField>): set<string>
  {
    set i | 0 <= i < |fields| :: fields[i].id
  }

  // ---------------------------------------------------------------------------
  // The builder as the component runs it

  /** Fold each field's rules into its validator and store it under the field's id. */
  method GenerateZodSchema(fields: seq<FormField>, validRegex: string -> bool)
    returns (r: Result<map<string, Validator>, BuildError>)
    ensures r == Build(fields, validRegex)
  {
    var schemaObject: map<string, Validator> := map[];
    var i := 0;
    while i < |fields|
      invariant 0 <= i <= |fields|
      invariant Build(fields[..i], validRegex) == Success(schemaObject)
    {
      var field := fields[i];
      assert fields[..i + 1][..i] == fields[..i];
      assert fields[..i + 1][i] == field;
      var fieldSchema := FieldSchema(field, validRegex);
      if fieldSchema.Failure? {
        FailurePropagates(fields, i + 1, validRegex);
        return Failure(fieldSchema.error);
      }
      schemaObject := schemaObject[field.id := fieldSchema.value];
      i := i + 1;
    }
    assert fields[..i] == fields;
    r := Success(schemaObject);
  }

  /** One field's validator: start from the base its type selects and, while it
      is a string validator, add the constraint of each rule in turn. */
  method FieldSchema(field: FormField, validRegex: string -> bool) returns (r: Result<Validator, BuildError>)
    ensures r == BuildField(field, validRegex)
  {
    var fieldSchema := if field.fieldType == Number then Validator(NumberBase, []) else Validator(StringBase, []);
    if field.validation.Some? {
      var rules := field.validation.value;
      var j := 0;
      while j < |rules|
        invariant 0 <= j <= |rules|
        invariant fieldSchema.base == (if field.fieldType == Number then NumberBase else StringBase)
        invariant fieldSchema.constraints == if fieldSchema.base == StringBase then Translate(rules[..j]) else []
        invariant AllRegexValid(fieldSchema.constraints, validRegex)
      {
        var rule := rules[j];
        assert rules[..j + 1][..j] == rules[..j];
        if fieldSchema.base == StringBase {
          match rule.ruleType {
            case Required =>
              fieldSchema := fieldSchema.(constraints := fieldSchema.constraints + [MinLength(1, rule.message)]);
            case Pattern =>
              var source := PatternSource(rule.value);
              if !validRegex(source) {
                FieldFailsAtRule(field, rules, j, validRegex);
                return Failure(InvalidRegex(field.id, source));
              }
              fieldSchema := fieldSchema.(constraints := fieldSchema.constraints + [Regex(source, rule.message)]);
            case _ =>
          }
        }
        j := j + 1;
      }
      assert rules[..j] == rules;
    }
    r := Success(fieldSchema);
  }

  // ---------------------------------------------------------------------------
  // Properties of the translation

  /** Translating a concatenation translates each part. */
  lemma {:induction false} TranslateConcat(a: seq<ValidationRule>, b: seq<ValidationRule>)
    ensures Translate(a + b) == Translate(a) + Translate(b)
    decreases |b|
  {
    if b == [] {
      assert a + b == a;
    } else {
      var b' := b[..|b| - 1];
      assert (a + b)[..|a + b| - 1] == a + b';
      TranslateConcat(a, b');
    }
  }

  /** A `min`, `max` or `custom` rule, wherever it stands, contributes nothing. */
  lemma IgnoredRuleContributesNothing(a: seq<ValidationRule>, rule: ValidationRule, b: seq<ValidationRule>)
    requires rule.ruleType == Min || rule.ruleType == Max || rule.ruleType == Custom
    ensures Translate(a + [rule] + b) == Translate(a + b)
  {
    TranslateConcat(a + [rule], b);
    TranslateConcat(a, [rule]);
    TranslateConcat(a, b);
    assert [rule][..0] == [];
  }

  /** `required` becomes a minimum length of one, `pattern` a regular expression
      over the rule's value, each with the rule's message. */
  lemma SingleRule(rule: ValidationRule)
    ensures rule.ruleType == Required ==> Translate([rule]) == [MinLength(1, rule.message)]
    ensures rule.ruleType == Pattern ==> Translate([rule]) == [Regex(PatternSource(rule.value), rule.message)]
  {
    assert [rule][..0] == [];
  }

  /** A number field is a bare number validator whatever its rules. */
  lemma NumberFieldIgnoresRules(field: FormField, validRegex: string -> bool)
    requires field.fieldType == Number
    ensures BuildField(field, validRegex) == Success(Validator(NumberBase, []))
  {
  }

  // ---------------------------------------------------------------------------
  // Properties of the dictionary

  /** Building a prefix that fails fails the whole list, with the same error. */
  lemma {:induction false} FailurePropagates(fields: seq<FormField>, k: nat, validRegex: string -> bool)
    requires k <= |fields|
    requires Build(fields[..k], validRegex).Failure?
    ensures Build(fields, validRegex) == Build(fields[..k], validRegex)
    decreases |fields| - k
  {
    if k < |fields| {
      assert fields[..k + 1][..k] == fields[..k];
      FailurePropagates(fields, k + 1, validRegex);
    } else {
      assert fields[..k] == fields;
    }
  }

  lemma SplitAround<T>(s: seq<T>, j: nat)
    requires j < |s|
    ensures s == s[..j] + [s[j]] + s[j + 1..]
  {
  }

  /** The constraints of a rule list, split around rule j. */
  lemma TranslateSplit(rules: seq<ValidationRule>, j: nat)
    requires j < |rules|
    ensures Translate(rules) == Translate(rules[..j]) + Translate([rules[j]]) + Translate(rules[j + 1..])
  {
    var a, b, c := rules[..j], [rules[j]], rules[j + 1..];
    SplitAround(rules, j);
    TranslateConcat(a + b, c);
    TranslateConcat(a, b);
  }

  /** A string field fails to build at its rule j when that rule is a pattern that
      does not compile and every earlier pattern compiles. */
  lemma FieldFailsAtRule(field: FormField, rules: seq<ValidationRule>, j: nat, validRegex: string -> bool)
    requires field.fieldType != Number && field.validation == Some(rules)
    requires j < |rules| && rules[j].ruleType == Pattern
    requires !validRegex(PatternSource(rules[j].value))
    requires AllRegexValid(Translate(rules[..j]), validRegex)
    ensures BuildField(field, validRegex) == Failure(InvalidRegex(field.id, PatternSource(rules[j].value)))
  {
    var pre := Translate(rules[..j]);
    var c := Regex(PatternSource(rules[j].value), rules[j].message);
    var rest := [c] + Translate(rules[j + 1..]);
    TranslateSplit(rules, j);
    SingleRule(rules[j]);
    assert pre + [c] + Translate(rules[j + 1..]) == pre + rest;
    assert FieldValidator(field).constraints == pre + rest;
    FirstInvalidAfterValidPrefix(pre, rest, validRegex);
    assert rest[0] == c;
    assert FirstInvalidRegex(rest, validRegex) == Some(c.source);
  }

  lemma {:induction false} FirstInvalidAfterValidPrefix(a: seq<Constraint>, b: seq<Constraint>, validRegex: string -> bool)
    requires AllRegexValid(a, validRegex)
    ensures FirstInvalidRegex(a + b, validRegex) == FirstInvalidRegex(b, validRegex)
    decreases |a|
  {
    if a != [] {
      assert (a + b)[0] == a[0];
      assert (a + b)[1..] == a[1..] + b;
      assert AllRegexValid(a[1..], validRegex) by {
        forall k | 0 <= k < |a[1..]| && a[1..][k].Regex? ensures validRegex(a[1..][k].source) {
          assert a[1..][k] == a[k + 1];
        }
      }
      FirstInvalidAfterValidPrefix(a[1..], b, validRegex);
    } else {
      assert a + b == b;
    }
  }

  /** A successful build has exactly one validator per distinct field id. */
  lemma {:induction false} BuildKeys(fields: seq<FormField>, validRegex: string -> bool)
    requires Build(fields, validRegex).Success?
    ensures Build(fields, validRegex).value.Keys == FieldIds(fields)
    decreases |fields|
  {
    if fields != [] {
      var init := fields[..|fields| - 1];
      BuildKeys(init, validRegex);
      assert FieldIds(fields) == FieldIds(init) + {fields[|fields| - 1].id} by {
        forall x | x in FieldIds(fields) ensures x in FieldIds(init) + {fields[|fields| - 1].id} {
          var i :| 0 <= i < |fields| && fields[i].id == x;
          if i < |fields| - 1 { assert init[i] == fields[i]; }
        }
        forall x | x in FieldIds(init) ensures x in FieldIds(fields) {
          var i :| 0 <= i < |init| && init[i].id == x;
          assert fields[i] == init[i];
        }
      }
    }
  }

  /** The validator stored under an id is that of the last field with that id. */
  lemma {:induction false} BuildLastWins(fields: seq<FormField>, i: nat, validRegex: string -> bool)
    requires Build(fields, validRegex).Success?
    requires i < |fields|
    requires forall j :: i < j < |fields| ==> fields[j].id != fields[i].id
    ensures fields[i].id in Build(fields, validRegex).value
    ensures Build(fields, validRegex).value[fields[i].id] == FieldValidator(fields[i])
    decreases |fields|
  {
    var init := fields[..|fields| - 1];
    if i < |fields| - 1 {
      forall j | i < j < |init| ensures init[j].id != init[i].id {
        assert init[j] == fields[j];
      }
      BuildLastWins(init, i, validRegex);
      assert init[i] == fields[i];
    }
  }

  /** Construction succeeds exactly when every field builds. */
  lemma {:induction false} BuildSucceedsIff(fields: seq<FormField>, validRegex: string -> bool)
    ensures Build(fields, validRegex).Success? <==>
              forall i :: 0 <= i < |fields| ==> BuildField(fields[i], validRegex).Success?
    decreases |fields|
  {
    if fields != [] {
      var init := fields[..|fields| - 1];
      BuildSucceedsIff(init, validRegex);
      assert forall j :: 0 <= j < |init| ==> init[j] == fields[j];
    }
  }

  /** A failed construction reports the error of the first field that fails to build. */
  lemma {:induction false} BuildFailsAtFirstBadField(fields: seq<FormField>, validRegex: string -> bool)
    requires Build(fields, validRegex).Failure?
    ensures exists i :: 0 <= i < |fields| && BuildField(fields[i], validRegex) == Failure(Build(fields, validRegex).error) &&
                        forall j :: 0 <= j < i ==> BuildField(fields[j], validRegex).Success?
    decreases |fields|
  {
    var n := |fields| - 1;
    var init := fields[..n];
    assert forall j :: 0 <= j < n ==> init[j] == fields[j];
    if Build(init, validRegex).Failure? {
      BuildFailsAtFirstBadField(init, validRegex);
      var i :| 0 <= i < n && BuildField(init[i], validRegex) == Failure(Build(init, validRegex).error) &&
               forall j :: 0 <= j < i ==> BuildField(init[j], validRegex).Success?;
      assert BuildField(fields[i], validRegex) == Failure(Build(fields, validRegex).error);
    } else {
      BuildSucceedsIff(init, validRegex);
      assert BuildField(fields[n], validRegex) == Failure(Build(fields, validRegex).error);
    }
  }

  // ---------------------------------------------------------------------------
  // What a validator accepts

  /** A validation problem: the value has the wrong type (or is absent), or a
      constraint failed with its message. */
  datatype Issue = InvalidType | Failed(message: string)

  predicate ConstraintHolds(c: Constraint, s: string, matches: (string, string) -> bool)
  {
    match c
    case MinLength(n, _) => |s| >= n
    case Regex(p, _) => matches(p, s)
  }

  /** The messages of the failing constraints, in constraint order; every check is
      run, and the first message (the one a form shows) is that of the first
      failing constraint. */
  function FailedMessages(cs: seq<Constraint>, s: string, matches: (string, string) -> bool): (r: seq<string>)
    ensures |r| <= |cs|
    ensures r == [] <==> forall k :: 0 <= k < |cs| ==> ConstraintHolds(cs[k], s, matches)
    ensures forall m :: m in r ==> exists k :: 0 <= k < |cs| && cs[k].message == m && !ConstraintHolds(cs[k], s, matches)
    ensures forall k :: 0 <= k < |cs| && !ConstraintHolds(cs[k], s, matches) ==> cs[k].message in r
    ensures r != [] ==> exists k :: 0 <= k < |cs| && !ConstraintHolds(cs[k], s, matches) && r[0] == cs[k].message &&
                                    forall j :: 0 <= j < k ==> ConstraintHolds(cs[j], s, matches)
  {
    if cs == [] then []
    else
      var rest := FailedMessages(cs[1..], s, matches);
      assert forall k :: 0 < k < |cs| ==> cs[k] == cs[1..][k - 1];
      var r := (if ConstraintHolds(cs[0], s, matches) then [] else [cs[0].message]) + rest;
      assert ConstraintHolds(cs[0], s, matches) && rest != [] ==>
               exists k :: 0 <= k < |cs| && !ConstraintHolds(cs[k], s, matches) && r[0] == cs[k].message &&
                           forall j :: 0 <= j < k ==> ConstraintHolds(cs[j], s, matches) by {
        if ConstraintHolds(cs[0], s, matches) && rest != [] {
          var k :| 0 <= k < |cs[1..]| && !ConstraintHolds(cs[1..][k], s, matches) && rest[0] == cs[1..][k].message &&
                   forall j :: 0 <= j < k ==> ConstraintHolds(cs[1..][j], s, matches);
          assert cs[k + 1] == cs[1..][k];
          forall j | 0 <= j < k + 1 ensures ConstraintHolds(cs[j], s, matches) {
            if j > 0 { assert cs[j] == cs[1..][j - 1]; }
          }
        }
      }
      r
  }

  function AsIssues(messages: seq<string>): (r: seq<Issue>)
    ensures |r| == |messages|
    ensures forall k :: 0 <= k < |r| ==> r[k] == Failed(messages[k])
  {
    if messages == [] then [] else [Failed(messages[0])] + AsIssues(messages[1..])
  }

  /** The problems a validator reports for a value (None is `undefined`). A string
      validator rejects anything but a string, a number validator anything but a number. */
  function Issues(v: Validator, value: Option<Val>, matches: (string, string) -> bool): (r: seq<Issue>)
    ensures v.base == StringBase && !(value.Some? && value.value.Str?) ==> r == [InvalidType]
    ensures v.base == NumberBase ==> r == (if value.Some? && value.value.Num? then [] else [InvalidType])
    ensures v.base == StringBase && value.Some? && value.value.Str? ==>
              forall k :: 0 <= k < |r| ==>
                (r[k].Failed? &&
                 exists j :: 0 <= j < |v.constraints| && v.constraints[j].message == r[k].message &&
                             !ConstraintHolds(v.constraints[j], value.value.s, matches))
    ensures v.base == StringBase && value.Some? && value.value.Str? ==>
              forall j :: 0 <= j < |v.constraints| && !ConstraintHolds(v.constraints[j], value.value.s, matches) ==>
                Failed(v.constraints[j].message) in r
  {
    match v.base
    case StringBase =>
      (match value
       case Some(Str(s)) =>
         var ms := FailedMessages(v.constraints, s, matches);
         var r := AsIssues(ms);
         assert forall k :: 0 <= k < |r| ==> r[k].message in ms;
         assert forall m :: m in ms ==> Failed(m) in r by {
           forall m | m in ms ensures Failed(m) in r {
             var k :| 0 <= k < |ms| && ms[k] == m;
             assert r[k] == Failed(m);
           }
         }
         r
       case _ => [InvalidType])
    case NumberBase =>
      (match value
       case Some(Num(_)) => []
       case _ => [InvalidType])
  }

  /** A value passes iff it has the validator's type and every constraint holds. */
  lemma AcceptsIff(v: Validator, value: Option<Val>, matches: (string, string) -> bool)
    ensures Issues(v, value, matches) == [] <==>
              match v.base
              case NumberBase => value.Some? && value.value.Num?
              case StringBase =>
                value.Some? && value.value.Str? &&
                forall k :: 0 <= k < |v.constraints| ==> ConstraintHolds(v.constraints[k], value.value.s, matches)
  {
  }

  /** A field whose only rule is `required` rejects the empty string with exactly
      the rule's message and accepts every other string. */
  lemma RequiredRule(field: FormField, rule: ValidationRule, s: string, matches: (string, string) -> bool)
    requires field.fieldType != Number && field.validation == Some([rule]) && rule.ruleType == Required
    ensures s == "" ==> Issues(FieldValidator(field), Some(Str(s)), matches) == [Failed(rule.message)]
    ensures s != "" ==> Issues(FieldValidator(field), Some(Str(s)), matches) == []
  {
    SingleRule(rule);
    var cs := [MinLength(1, rule.message)];
    assert cs[1..] == [];
  }

  /** A field whose only rule is `pattern` accepts a string iff the pattern matches
      it, and otherwise reports exactly the rule's message. */
  lemma PatternRule(field: FormField, rule: ValidationRule, s: string, matches: (string, string) -> bool)
    requires field.fieldType != Number && field.validation == Some([rule]) && rule.ruleType == Pattern
    ensures matches(PatternSource(rule.value), s) ==> Issues(FieldValidator(field), Some(Str(s)), matches) == []
    ensures !matches(PatternSource(rule.value), s) ==>
              Issues(FieldValidator(field), Some(Str(s)), matches) == [Failed(rule.message)]
  {
    SingleRule(rule);
    var cs := [Regex(PatternSource(rule.value), rule.message)];
    assert cs[1..] == [];
  }

  /** `min`, `max` and `custom` rules never reject a string. */
  lemma {:induction false} IgnoredRulesNeverBlock(rules: seq<ValidationRule>)
    requires forall k :: 0 <= k < |rules| ==> rules[k].ruleType in {Min, Max, Custom}
    ensures Translate(rules) == []
    decreases |rules|
  {
    if rules != [] {
      IgnoredRulesNeverBlock(rules[..|rules| - 1]);
    }
  }
}
