/**
 * The public form component: it holds the loaded form configuration, the
 * values typed so far and one error message per field; `ValidateForm` checks
 * every field before submission and `HandleFieldChange` records a new value
 * and clears that field's error. Loading the configuration and posting the
 * submission are network calls and are not part of this model.
 */
module DynamicForm {
  import opened Text
  import opened FormFields

  /** The value stored under a field id, or nothing. */
  function Lookup(data: map<string, Value>, id: string): Value
  {
    if id in data then data[id] else Absent
  }

  /** The later of two messages wins (a later assignment to `newErrors[field.id]` overwrites an earlier one). */
  function Later(earlier: Option<string>, later: Option<string>): (r: Option<string>)
    ensures later.Some? ==> r == later
    ensures later.None? ==> r == earlier
  {
    if later.Some? then later else earlier
  }

  function When(cond: bool, message: string): (r: Option<string>)
    ensures r.Some? <==> cond
    ensures cond ==> r == Some(message)
  {
    if cond then Some(message) else None
  }

  /**
   * Successive assignments combine associatively, and an assignment that does
   * not happen changes nothing: after any run of checks the message is that of
   * the last one that failed.
   */
  lemma LaterLaws(a: Option<string>, b: Option<string>, c: Option<string>)
    ensures Later(a, None) == a && Later(None, b) == b
    ensures Later(Later(a, b), c) == Later(a, Later(b, c))
  {
  }

  /** The checks of a non-empty text or textarea value, in source order. */
  function TextError(field: FormField, v: Value, matches: (string, string) -> bool): Option<string>
  {
    var min := Limit(field.validation.minLength);
    var max := Limit(field.validation.maxLength);
    var e1 := When(TooShort(field, v), "Must be at least " + IntToString(if min.Some? then min.value else 0) + " characters");
    var e2 := Later(e1, When(TooLong(field, v), "Must be no more than " + IntToString(if max.Some? then max.value else 0) + " characters"));
    Later(e2, When(PatternFails(field, v, matches), "Invalid format"))
  }

  /**
   * A text value gets a message exactly when one of its three checks fails,
   * and the message is that of the last failing check: the pattern, then the
   * maximum, then the minimum.
   */
  lemma TextErrorLastCheck(field: FormField, v: Value, matches: (string, string) -> bool)
    ensures TextError(field, v, matches).Some? <==>
      TooShort(field, v) || TooLong(field, v) || PatternFails(field, v, matches)
    ensures PatternFails(field, v, matches) ==> TextError(field, v, matches) == Some("Invalid format")
    ensures !PatternFails(field, v, matches) && TooLong(field, v) ==>
      TextError(field, v, matches) == Some("Must be no more than " + IntToString(field.validation.maxLength.value) + " characters")
    ensures !PatternFails(field, v, matches) && !TooLong(field, v) && TooShort(field, v) ==>
      TextError(field, v, matches) == Some("Must be at least " + IntToString(field.validation.minLength.value) + " characters")
  {
  }

  /** The message one field's checks leave in `newErrors`, if any. */
  function FieldError(field: FormField, v: Value, matches: (string, string) -> bool): Option<string>
  {
    if field.required && IsBlank(v) then Some(field.title + " is required")
    else if IsFalsy(v) then None
    else
      var e1 := When(field.kind == Email && !IsEmailShape(ValueText(v)), "Please enter a valid email address");
      var e2 := Later(e1, When(field.kind == Phone && !IsPhoneShape(ValueText(v)), "Please enter a valid phone number"));
      var e3 := Later(e2, if (field.kind == TextField || field.kind == TextArea) && v.Str? then TextError(field, v, matches) else None);
      Later(e3, When(field.kind == Checkbox && field.required && !(v.List? && |v.items| > 0), "Please select at least one option"))
  }

  /** The error map after checking `fields` in order. */
  function Errors(fields: seq<FormField>, data: map<string, Value>, matches: (string, string) -> bool): map<string, string>
  {
    if fields == [] then map[]
    else
      var prev := Errors(fields[..|fields| - 1], data, matches);
      var f := fields[|fields| - 1];
      var e := FieldError(f, Lookup(data, f.id), matches);
      if e.Some? then prev[f.id := e.value] else prev
  }

  /** A required field left blank gets the "is required" message and nothing else. */
  lemma RequiredBlankField(field: FormField, v: Value, matches: (string, string) -> bool)
    requires field.required && IsBlank(v)
    ensures FieldError(field, v, matches) == Some(field.title + " is required")
  {
  }

  /** An optional field left empty gets no message. */
  lemma OptionalEmptyField(field: FormField, v: Value, matches: (string, string) -> bool)
    requires !field.required && IsFalsy(v)
    ensures FieldError(field, v, matches).None?
  {
  }

  /** For text, a failed pattern overwrites the length messages. */
  lemma PatternOverwritesLength(field: FormField, s: string, matches: (string, string) -> bool)
    requires field.kind == TextField || field.kind == TextArea
    requires s != "" && !(field.required && Trim(s) == "")
    requires PatternFails(field, Str(s), matches)
    ensures FieldError(field, Str(s), matches) == Some("Invalid format")
  {
  }

  /** A required checkbox group needs at least one ticked option; an empty array passes the required check and fails here. */
  lemma RequiredCheckbox(field: FormField, items: seq<string>, matches: (string, string) -> bool)
    requires field.kind == Checkbox && field.required
    ensures FieldError(field, List(items), matches).Some? <==> |items| == 0
    ensures |items| == 0 ==> FieldError(field, List(items), matches) == Some("Please select at least one option")
  {
  }

  /**
   * A field id carries an error exactly when some field with that id failed,
   * and the message is the one of the last such field.
   */
  lemma ErrorsCharacterised(fields: seq<FormField>, data: map<string, Value>, matches: (string, string) -> bool, id: string)
    ensures id in Errors(fields, data, matches) <==>
      exists i :: 0 <= i < |fields| && fields[i].id == id && FieldError(fields[i], Lookup(data, id), matches).Some?
    ensures id in Errors(fields, data, matches) ==>
      exists i :: 0 <= i < |fields| && fields[i].id == id &&
        FieldError(fields[i], Lookup(data, id), matches) == Some(Errors(fields, data, matches)[id]) &&
        forall j :: i < j < |fields| && fields[j].id == id ==> FieldError(fields[j], Lookup(data, id), matches).None?
  {
    ErrorsDomain(fields, data, matches, id);
    if id in Errors(fields, data, matches) {
      ErrorsLastFailure(fields, data, matches, id);
    }
  }

  /** A field id carries an error exactly when some field with that id failed. */
  lemma {:induction false} ErrorsDomain(fields: seq<FormField>, data: map<string, Value>, matches: (string, string) -> bool, id: string)
    ensures id in Errors(fields, data, matches) <==>
      exists i :: 0 <= i < |fields| && fields[i].id == id && FieldError(fields[i], Lookup(data, id), matches).Some?
  {
    if fields != [] {
      var init := fields[..|fields| - 1];
      var last := |fields| - 1;
      ErrorsDomain(init, data, matches, id);
      assert forall i :: 0 <= i < |init| ==> init[i] == fields[i];
      if fields[last].id != id {
        assert (id in Errors(fields, data, matches)) == (id in Errors(init, data, matches));
      }
    }
  }

  /** The message an id carries is that of the last field with that id that failed. */
  lemma {:induction false} ErrorsLastFailure(fields: seq<FormField>, data: map<string, Value>, matches: (string, string) -> bool, id: string)
    requires id in Errors(fields, data, matches)
    ensures exists i :: 0 <= i < |fields| && fields[i].id == id &&
              FieldError(fields[i], Lookup(data, id), matches) == Some(Errors(fields, data, matches)[id]) &&
              forall j :: i < j < |fields| && fields[j].id == id ==> FieldError(fields[j], Lookup(data, id), matches).None?
  {
    var init := fields[..|fields| - 1];
    var last := |fields| - 1;
    var e := FieldError(fields[last], Lookup(data, fields[last].id), matches);
    if fields[last].id == id && e.Some? {
      assert Errors(fields, data, matches)[id] == e.value;
      assert FieldError(fields[last], Lookup(data, id), matches) == Some(Errors(fields, data, matches)[id]);
    } else {
      assert Errors(fields, data, matches)[id] == Errors(init, data, matches)[id];
      ErrorsLastFailure(init, data, matches, id);
      var i :| 0 <= i < |init| && init[i].id == id &&
        FieldError(init[i], Lookup(data, id), matches) == Some(Errors(init, data, matches)[id]) &&
        forall j :: i < j < |init| && init[j].id == id ==> FieldError(init[j], Lookup(data, id), matches).None?;
      assert fields[i] == init[i];
      forall j | i < j < |fields| && fields[j].id == id
        ensures FieldError(fields[j], Lookup(data, id), matches).None?
      {
        if j < last {
          assert fields[j] == init[j];
        }
      }
    }
  }

  /** handleFieldChange's error update: the field's message is removed when it has a non-empty one. */
  function ClearError(errors: map<string, string>, fieldId: string): (r: map<string, string>)
    ensures fieldId in errors && errors[fieldId] != "" ==> fieldId !in r
    ensures forall k :: k != fieldId ==> (k in r <==> k in errors) && (k in r ==> r[k] == errors[k])
    ensures fieldId in r ==> r[fieldId] == ""
  {
    if fieldId in errors && errors[fieldId] != "" then errors - {fieldId} else errors
  }

  class FormState {
    var config: Option<seq<FormField>>
    var formData: map<string, Value>
    var errors: map<string, string>

    constructor ()
      ensures config.None? && formData == map[] && errors == map[]
    {
      config := None;
      formData := map[];
      errors := map[];
    }

    /**
     * validateForm: without a configuration it fails and leaves the errors
     * alone; otherwise it replaces them with the messages of every field's
     * checks and succeeds exactly when there are none.
     */
    method ValidateForm(matches: (string, string) -> bool) returns (ok: bool)
      modifies this
      ensures config == old(config) && formData == old(formData)
      ensures config.None? ==> !ok && errors == old(errors)
      ensures config.Some? ==> errors == Errors(config.value, formData, matches)
      ensures config.Some? ==> (ok <==> errors == map[])
    {
      if config.None? {
        return false;
      }
      var fields := config.value;
      var newErrors: map<string, string> := map[];
      for i := 0 to |fields|
        invariant newErrors == Errors(fields[..i], formData, matches)
      {
        var field := fields[i];
        var value := if field.id in formData then formData[field.id] else Absent;
        var e := FieldError(field, value, matches);
        assert fields[..i + 1][..i] == fields[..i];
        if e.Some? {
          newErrors := newErrors[field.id := e.value];
        }
      }
      assert fields[..|fields|] == fields;
      errors := newErrors;
      ok := |newErrors| == 0;
    }

    /** handleFieldChange: stores the value and clears only that field's error. */
    method HandleFieldChange(fieldId: string, value: Value)
      modifies this
      ensures config == old(config)
      ensures formData == old(formData)[fieldId := value]
      ensures errors == ClearError(old(errors), fieldId)
    {
      formData := formData[fieldId := value];
      if fieldId in errors && errors[fieldId] != "" {
        errors := errors - {fieldId};
      }
    }
  }
}
