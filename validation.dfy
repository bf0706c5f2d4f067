/**
 * validateItem: the checks a submitted item body must pass before the
 * create and update handlers store it.
 */
module Validation {
  import opened Wrappers
  import opened Text

  /** One field of the JSON request body: missing (undefined or null), a
      string, or a value of some other JSON type. */
  datatype Field = Absent | Str(s: string) | NonString

  /** The part of the request body that validateItem looks at. */
  datatype Body = Body(name: Field, description: Field)

  /** The bounds on one field's trimmed length, and the three messages in
      the order they are tried. */
  datatype Rule = Rule(min: nat, max: nat, required: string, tooShort: string, tooLong: string)

  const NameRule := Rule(3, 100,
    "name is required and must be a string",
    "name must be at least 3 characters",
    "name must be less than 100 characters")

  const DescriptionRule := Rule(5, 500,
    "description is required and must be a string",
    "description must be at least 5 characters",
    "description must be less than 500 characters")

  /** What validateItem returns: `isValid` and the ordered error list. */
  datatype Verdict = Verdict(isValid: bool, errors: seq<string>)

  function Messages(rule: Rule): set<string> {
    {rule.required, rule.tooShort, rule.tooLong}
  }

  /** Passes `!v || typeof v !== 'string'`: a string, and not the empty one
      (the only falsy string). */
  predicate Present(f: Field) {
    f.Str? && f.s != ""
  }

  /** What the rule accepts: a present string whose trimmed length lies in
      [min, max], both ends included. */
  predicate Accepts(rule: Rule, f: Field) {
    Present(f) && rule.min <= |Trim(f.s)| <= rule.max
  }

  /** The one error (if any) a field gets, by priority: missing or not a
      string, then too short, then too long. */
  function CheckField(rule: Rule, f: Field): (e: Option<string>)
    ensures e.None? <==> Accepts(rule, f)
    ensures e.Some? ==> e.value in Messages(rule)
    ensures !Present(f) ==> e == Some(rule.required)
    ensures Present(f) && |Trim(f.s)| < rule.min ==> e == Some(rule.tooShort)
    ensures Present(f) && rule.min <= |Trim(f.s)| && rule.max < |Trim(f.s)| ==> e == Some(rule.tooLong)
  {
    if !Present(f) then Some(rule.required)
    else if |Trim(f.s)| < rule.min then Some(rule.tooShort)
    else if |Trim(f.s)| > rule.max then Some(rule.tooLong)
    else None
  }

  function Errors(e: Option<string>): seq<string> {
    if e.Some? then [e.value] else []
  }

  /** validateItem: the name's error (if any) followed by the description's
      (if any); valid exactly when there is no error, and that is exactly when
      both rules accept their field. */
  function ValidateItem(b: Body): (v: Verdict)
    ensures v.isValid <==> v.errors == []
    ensures v.isValid <==> Accepts(NameRule, b.name) && Accepts(DescriptionRule, b.description)
    ensures |v.errors| <= 2
  {
    var errors := Errors(CheckField(NameRule, b.name)) + Errors(CheckField(DescriptionRule, b.description));
    Verdict(|errors| == 0, errors)
  }

  /** The two rules' messages are told apart: none is shared. */
  lemma MessagesDisjoint()
    ensures Messages(NameRule) !! Messages(DescriptionRule)
  {
  }

  /** The elements of `errs` that belong to `msgs`, in order. */
  function Only(errs: seq<string>, msgs: set<string>): (r: seq<string>)
    ensures |r| <= |errs|
    ensures forall e :: e in r ==> e in errs && e in msgs
  {
    if errs == [] then []
    else (if errs[0] in msgs then [errs[0]] else []) + Only(errs[1..], msgs)
  }

  lemma {:induction false} OnlyConcat(a: seq<string>, b: seq<string>, msgs: set<string>)
    ensures Only(a + b, msgs) == Only(a, msgs) + Only(b, msgs)
  {
    if a == [] {
      assert a + b == b;
    } else {
      assert (a + b)[0] == a[0];
      assert (a + b)[1..] == a[1..] + b;
      OnlyConcat(a[1..], b, msgs);
    }
  }

  /** The fields are checked independently: the name messages in the error
      list are exactly the name's own error, whatever the description is,
      and the description messages exactly the description's own error. */
  lemma FieldsIndependent(b: Body)
    ensures Only(ValidateItem(b).errors, Messages(NameRule)) == Errors(CheckField(NameRule, b.name))
    ensures Only(ValidateItem(b).errors, Messages(DescriptionRule)) == Errors(CheckField(DescriptionRule, b.description))
  {
    var n := Errors(CheckField(NameRule, b.name));
    var d := Errors(CheckField(DescriptionRule, b.description));
    MessagesDisjoint();
    OnlyConcat(n, d, Messages(NameRule));
    OnlyConcat(n, d, Messages(DescriptionRule));
  }

  /** At most one error per field, and a name error comes before a
      description error. */
  lemma ErrorOrder(b: Body)
    ensures var v := ValidateItem(b);
      && (forall e :: e in v.errors ==> e in Messages(NameRule) + Messages(DescriptionRule))
      && (!Accepts(NameRule, b.name) ==> v.errors[0] == CheckField(NameRule, b.name).value)
      && (!Accepts(DescriptionRule, b.description) ==>
            v.errors[|v.errors| - 1] == CheckField(DescriptionRule, b.description).value)
      && (|v.errors| == 2 ==> v.errors[0] in Messages(NameRule) && v.errors[1] in Messages(DescriptionRule))
      && (Accepts(NameRule, b.name) ==> forall e :: e in v.errors ==> e !in Messages(NameRule))
      && (Accepts(DescriptionRule, b.description) ==> forall e :: e in v.errors ==> e !in Messages(DescriptionRule))
  {
  }

  /** A non-empty name string whose trimmed length is below 3 is reported
      as "name must be at least 3 characters", first in the list. */
  lemma ShortNameReported(s: string, description: Field)
    requires s != "" && |Trim(s)| < 3
    ensures var v := ValidateItem(Body(Str(s), description));
      !v.isValid && v.errors[0] == "name must be at least 3 characters"
  {
  }

  /** A missing or non-string name (or the empty string) gets only the
      "is required" error for the name, first in the list. */
  lemma MissingNameReported(b: Body)
    requires !Present(b.name)
    ensures var v := ValidateItem(b);
      && v.errors[0] == "name is required and must be a string"
      && NameRule.tooShort !in v.errors && NameRule.tooLong !in v.errors
  {
  }

  /** A missing or non-string description (or the empty string) gets only
      the "is required" error for the description, last in the list. */
  lemma MissingDescriptionReported(b: Body)
    requires !Present(b.description)
    ensures var v := ValidateItem(b);
      && v.errors[|v.errors| - 1] == "description is required and must be a string"
      && DescriptionRule.tooShort !in v.errors && DescriptionRule.tooLong !in v.errors
  {
  }
}
