/**
  The generic form hook: field values and per-field errors, the change and
  blur handlers that refresh one field's error, the submit handler, and the
  effect that calls `onSubmit` once a submit attempt finds no error keys.
 */
module UseForm {
  import opened Wrappers

  /** Field name to the value entered in the input of that name. */
  type Values = map<string, string>

  /**
    Field name to message. A key may be present with the value `undefined`
    (`None`): it still counts as a key.
   */
  type FormErrors = map<string, Option<string>>

  /** Whether an error entry is truthy: present and not the empty string. */
  predicate Truthy(e: Option<string>)
  {
    e.Some? && e.value != ""
  }

  /** `allErrors[name]`: `undefined` for a field without a key. */
  function Lookup(errors: FormErrors, name: string): Option<string>
  {
    if name in errors then errors[name] else None
  }

  /**
    The functional update the change and blur handlers give `setErrors`: the
    field's entry is copied from `all` when it is truthy there and deleted
    otherwise; every other entry stays as it was.
   */
  function RefreshField(prev: FormErrors, all: FormErrors, name: string): (r: FormErrors)
    ensures name in r <==> Truthy(Lookup(all, name))
    ensures name in r ==> r[name] == all[name]
    ensures forall k :: k != name ==> (k in r <==> k in prev)
    ensures forall k :: k in r && k != name ==> r[k] == prev[k]
  {
    if Truthy(Lookup(all, name)) then prev[name := all[name]] else prev - {name}
  }

  /** Refreshing the same field twice against the same errors is refreshing it once. */
  lemma RefreshFieldIdempotent(prev: FormErrors, all: FormErrors, name: string)
    ensures RefreshField(RefreshField(prev, all, name), all, name) == RefreshField(prev, all, name)
  {
  }

  /** Blurring the fields `names` one after another. */
  function RefreshFields(prev: FormErrors, all: FormErrors, names: seq<string>): FormErrors
    decreases |names|
  {
    if names == [] then prev else RefreshFields(RefreshField(prev, all, names[0]), all, names[1..])
  }

  /**
    After every field in `names` is refreshed against the same full errors,
    each of them carries exactly its truthy error from `all`, and every other
    entry is as it was: touching each field once shows the full validation.
   */
  lemma {:induction false} RefreshFieldsAgreeWithValidation(prev: FormErrors, all: FormErrors, names: seq<string>)
    ensures var r := RefreshFields(prev, all, names);
      && (forall n :: n in names ==> (n in r <==> Truthy(Lookup(all, n))))
      && (forall n :: n in names && n in r ==> r[n] == all[n])
      && (forall k :: k !in names ==> (k in r <==> k in prev))
      && (forall k :: k !in names && k in r ==> r[k] == prev[k])
    decreases |names|
  {
    if names != [] {
      var next := RefreshField(prev, all, names[0]);
      RefreshFieldsAgreeWithValidation(next, all, names[1..]);
      var r := RefreshFields(prev, all, names);
      assert r == RefreshFields(next, all, names[1..]);
      forall n | n in names
        ensures (n in r <==> Truthy(Lookup(all, n))) && (n in r ==> r[n] == all[n])
      {
        if n !in names[1..] {
          assert n == names[0];
        }
      }
      forall k | k !in names
        ensures (k in r <==> k in prev) && (k in r ==> r[k] == prev[k])
      {
        assert k != names[0] && k !in names[1..];
      }
    }
  }

  /** What one run of the submit effect does. */
  datatype GateStep = GateStep(submitted: Option<Values>, isSubmitting: bool, errors: FormErrors)

  /**
    The submit effect: while a submit attempt is pending, with no error keys
    it calls `onSubmit` with the values and clears the errors, with some it
    only ends the attempt; without a pending attempt it does nothing.
   */
  function SubmitGate(isSubmitting: bool, errors: FormErrors, values: Values): (r: GateStep)
    ensures r.submitted.Some? <==> isSubmitting && |errors.Keys| == 0
    ensures r.submitted.Some? ==> r.submitted.value == values && r.errors == map[]
    ensures r.submitted.None? ==> r.errors == errors
    ensures !r.isSubmitting
  {
    if isSubmitting && |errors.Keys| == 0 then GateStep(Some(values), false, map[])
    else if isSubmitting && |errors.Keys| > 0 then GateStep(None, false, errors)
    else GateStep(None, isSubmitting, errors)
  }

  /** The effect settles after one run: running it again submits nothing and changes nothing. */
  lemma SubmitGateSettles(isSubmitting: bool, errors: FormErrors, values: Values)
    ensures var r := SubmitGate(isSubmitting, errors, values);
      SubmitGate(r.isSubmitting, r.errors, values) == GateStep(None, false, r.errors)
  {
  }

  /**
    A submit followed by the effect calls `onSubmit` exactly when `validate`
    returns an object with no keys; a key whose message is `undefined` or ''
    still blocks the submit.
   */
  lemma SubmitFiresIffNoKeys(validate: Values -> FormErrors, values: Values)
    ensures var r := SubmitGate(true, validate(values), values);
      && (r.submitted == Some(values) <==> validate(values) == map[])
      && (r.submitted == None <==> exists k :: k in validate(values))
  {
    var errors := validate(values);
    if errors != map[] {
      var k :| k in errors;
      assert k in errors.Keys;
    }
  }

  /** The hook's state. `validate` is the caller's validation function. */
  class Form {
    const validate: Values -> FormErrors
    var initialValues: Values
    var values: Values
    var errors: FormErrors
    var isSubmitting: bool

    /** Mounting: the initial state; the two effects' first runs leave it as it is. */
    constructor (initialValues: Values, validate: Values -> FormErrors)
      ensures this.validate == validate && this.initialValues == initialValues
      ensures values == initialValues && errors == map[] && !isSubmitting
    {
      this.validate := validate;
      this.initialValues := initialValues;
      values := initialValues;
      errors := map[];
      isSubmitting := false;
    }

    /** The effect on new `initialValues`: the values are reset and the errors cleared; a pending attempt stays pending. */
    method OnInitialValues(newInitial: Values)
      modifies this
      ensures initialValues == newInitial && values == newInitial && errors == map[]
      ensures isSubmitting == old(isSubmitting)
    {
      initialValues := newInitial;
      values := newInitial;
      errors := map[];
    }

    /** An input's change: the value is stored and that field's error is refreshed against the new values. */
    method HandleChange(name: string, value: string)
      modifies this
      ensures values == old(values)[name := value]
      ensures errors == RefreshField(old(errors), validate(old(values)[name := value]), name)
      ensures isSubmitting == old(isSubmitting) && initialValues == old(initialValues)
    {
      var allErrors := validate(values[name := value]);
      values := values[name := value];
      errors := RefreshField(errors, allErrors, name);
    }

    /** An input's blur: that field's error is refreshed against the current values. */
    method HandleBlur(name: string)
      modifies this
      ensures errors == RefreshField(old(errors), validate(values), name)
      ensures values == old(values) && isSubmitting == old(isSubmitting) && initialValues == old(initialValues)
    {
      var allErrors := validate(values);
      errors := RefreshField(errors, allErrors, name);
    }

    /** The form's submit: every error is replaced by the full validation and an attempt starts. */
    method HandleSubmit()
      modifies this
      ensures errors == validate(values) && isSubmitting
      ensures values == old(values) && initialValues == old(initialValues)
    {
      errors := validate(values);
      isSubmitting := true;
    }

    /** One run of the submit effect; `submitted` is the argument `onSubmit` is called with, if it is called. */
    method SubmitEffect() returns (submitted: Option<Values>)
      modifies this
      ensures var step := SubmitGate(old(isSubmitting), old(errors), values);
        submitted == step.submitted && isSubmitting == step.isSubmitting && errors == step.errors
      ensures values == old(values) && initialValues == old(initialValues)
    {
      if isSubmitting && |errors.Keys| == 0 {
        submitted := Some(values);
        isSubmitting := false;
        errors := map[];
      } else if isSubmitting && |errors.Keys| > 0 {
        submitted := None;
        isSubmitting := false;
      } else {
        submitted := None;
      }
    }

    method ResetForm()
      modifies this
      ensures values == initialValues && errors == map[] && !isSubmitting
      ensures initialValues == old(initialValues)
    {
      values := initialValues;
      errors := map[];
      isSubmitting := false;
    }
  }

  /**
    Submitting the form and letting the effect run: `onSubmit` gets the
    values exactly when they validate with no error keys, and afterwards no
    attempt is pending.
   */
  method SubmitAndSettle(form: Form) returns (submitted: Option<Values>)
    modifies form
    ensures submitted.Some? <==> form.validate(old(form.values)) == map[]
    ensures submitted.Some? ==> submitted.value == old(form.values) && form.errors == map[]
    ensures submitted.None? ==> form.errors == form.validate(old(form.values))
    ensures !form.isSubmitting && form.values == old(form.values)
  {
    form.HandleSubmit();
    submitted := form.SubmitEffect();
    SubmitFiresIffNoKeys(form.validate, form.values);
  }
}
