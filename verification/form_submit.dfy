/**
 * The public submit endpoint of the lead forms: it checks the request, looks
 * up the active form, validates every field (collecting every message rather
 * than one per field) and saves the submitted values overlaid with the extra
 * context values and a submission time stamp. The database, the client
 * metadata, the webhook and the e-mail notification are not part of this
 * model; the form lookup and the clock are inputs.
 */
module FormSubmit {
  import opened Text
  import opened FormFields
  import DynamicForm

  /** The request body; an absent or empty `formId` and an absent `data` are rejected. */
  datatype SubmitRequest = SubmitRequest(
    formId: Option<string>, data: Option<map<string, Value>>, additionalData: Option<map<string, Value>>)

  /** The outcome: 400 for a bad request, 404 for an unknown form, 400 with details, or the saved values. */
  datatype Outcome = BadRequest | FormNotFound | Invalid(details: seq<string>) | Saved(fullData: map<string, Value>)

  /** The messages of one field, in source order. */
  function FieldMessages(field: FormField, v: Value, matches: (string, string) -> bool): (ms: seq<string>)
    ensures |ms| <= 3
    ensures field.kind != TextField && field.kind != TextArea ==> |ms| <= 1
  {
    if field.required && IsBlank(v) then [field.title + " is required"]
    else if IsFalsy(v) then []
    else
      match field.kind
      case Email => if !IsEmailShape(ValueText(v)) then [field.title + " must be a valid email"] else []
      case Phone => if !IsPhoneShape(ValueText(v)) then [field.title + " must be a valid phone number"] else []
      case TextField => TextMessages(field, v, matches)
      case TextArea => TextMessages(field, v, matches)
      case _ => []
  }

  /** The minimum, maximum and pattern messages of a text field; each check adds its own. */
  function TextMessages(field: FormField, v: Value, matches: (string, string) -> bool): (ms: seq<string>)
    ensures |ms| <= 3
  {
    var min := Limit(field.validation.minLength);
    var max := Limit(field.validation.maxLength);
    (if TooShort(field, v) then [field.title + " must be at least " + IntToString(min.value) + " characters"] else [])
    + (if TooLong(field, v) then [field.title + " must be no more than " + IntToString(max.value) + " characters"] else [])
    + (if PatternFails(field, v, matches) then [field.title + " format is invalid"] else [])
  }

  /** All messages of all fields, in field order. */
  function ValidationErrors(fields: seq<FormField>, data: map<string, Value>, matches: (string, string) -> bool): seq<string>
  {
    if fields == [] then []
    else
      var f := fields[|fields| - 1];
      ValidationErrors(fields[..|fields| - 1], data, matches) + FieldMessages(f, DynamicForm.Lookup(data, f.id), matches)
  }

  /** No field of the form has a message for its submitted value. */
  predicate EveryFieldPasses(fields: seq<FormField>, data: map<string, Value>, matches: (string, string) -> bool)
  {
    forall i :: 0 <= i < |fields| ==> FieldMessages(fields[i], DynamicForm.Lookup(data, fields[i].id), matches) == []
  }

  /** There are no messages exactly when no field has any. */
  lemma {:induction false} NoErrorsIffEveryFieldPasses(fields: seq<FormField>, data: map<string, Value>, matches: (string, string) -> bool)
    ensures ValidationErrors(fields, data, matches) == [] <==> EveryFieldPasses(fields, data, matches)
  {
    if fields != [] {
      NoErrorsIffEveryFieldPasses(fields[..|fields| - 1], data, matches);
      NoErrorsStep(fields, data, matches);
      EveryFieldPassesStep(fields, data, matches);
    }
  }

  /** The messages of a form are empty exactly when those of all but its last field and those of the last field are. */
  lemma NoErrorsStep(fields: seq<FormField>, data: map<string, Value>, matches: (string, string) -> bool)
    requires fields != []
    ensures var last := fields[|fields| - 1];
      ValidationErrors(fields, data, matches) == [] <==>
      ValidationErrors(fields[..|fields| - 1], data, matches) == [] &&
      FieldMessages(last, DynamicForm.Lookup(data, last.id), matches) == []
  {
    var last := fields[|fields| - 1];
    var before := ValidationErrors(fields[..|fields| - 1], data, matches);
    var m := FieldMessages(last, DynamicForm.Lookup(data, last.id), matches);
    assert ValidationErrors(fields, data, matches) == before + m;
    assert |before + m| == |before| + |m|;
  }

  /** Every field passes exactly when all but the last do and the last does. */
  lemma EveryFieldPassesStep(fields: seq<FormField>, data: map<string, Value>, matches: (string, string) -> bool)
    requires fields != []
    ensures var last := fields[|fields| - 1];
      EveryFieldPasses(fields, data, matches) <==>
      EveryFieldPasses(fields[..|fields| - 1], data, matches) &&
      FieldMessages(last, DynamicForm.Lookup(data, last.id), matches) == []
  {
    var init := fields[..|fields| - 1];
    assert forall i :: 0 <= i < |init| ==> init[i] == fields[i];
  }

  /** A required field left blank adds exactly one message and skips its type checks. */
  lemma RequiredBlankOneMessage(field: FormField, v: Value, matches: (string, string) -> bool)
    requires field.required && IsBlank(v)
    ensures FieldMessages(field, v, matches) == [field.title + " is required"]
  {
  }

  /** An optional field left empty adds nothing. */
  lemma OptionalEmptyNoMessage(field: FormField, v: Value, matches: (string, string) -> bool)
    requires !field.required && IsFalsy(v)
    ensures FieldMessages(field, v, matches) == []
  {
  }

  /** A text value can collect several messages: too short and failing the pattern together give two. */
  lemma TextCollectsSeveral(field: FormField, s: string, matches: (string, string) -> bool)
    requires field.kind == TextField && s != "" && Trim(s) != ""
    requires TooShort(field, Str(s)) && !TooLong(field, Str(s)) && PatternFails(field, Str(s), matches)
    ensures |FieldMessages(field, Str(s), matches)| == 2
  {
  }

  /** `{ ...data, ...additionalData, submittedAt }` */
  function FullData(data: map<string, Value>, additional: Option<map<string, Value>>, now: string): (full: map<string, Value>)
    ensures "submittedAt" in full && full["submittedAt"] == Str(now)
    ensures forall k :: k != "submittedAt" ==>
      (k in full <==> k in data || (additional.Some? && k in additional.value))
    ensures forall k :: k != "submittedAt" && additional.Some? && k in additional.value ==> full[k] == additional.value[k]
    ensures forall k :: k != "submittedAt" && k in data && !(additional.Some? && k in additional.value) ==> full[k] == data[k]
  {
    var extra := if additional.Some? then additional.value else map[];
    (data + extra)["submittedAt" := Str(now)]
  }

  /**
   * POST: a missing form id or data is rejected before anything else; an
   * unknown or inactive form (`form` is the lookup's result) gives 404; the
   * values are saved only when no field has a message.
   */
  method Submit(req: SubmitRequest, form: Option<seq<FormField>>, now: string, matches: (string, string) -> bool)
    returns (outcome: Outcome)
    ensures (req.formId.None? || req.formId.value == "" || req.data.None?) ==> outcome == BadRequest
    ensures !(req.formId.None? || req.formId.value == "" || req.data.None?) && form.None? ==> outcome == FormNotFound
    ensures !(req.formId.None? || req.formId.value == "" || req.data.None?) && form.Some? ==>
      var errs := ValidationErrors(form.value, req.data.value, matches);
      (errs != [] ==> outcome == Invalid(errs)) &&
      (errs == [] ==> outcome == Saved(FullData(req.data.value, req.additionalData, now)))
  {
    if req.formId.None? || req.formId.value == "" || req.data.None? {
      return BadRequest;
    }
    if form.None? {
      return FormNotFound;
    }
    var fields := form.value;
    var data := req.data.value;
    var validationErrors: seq<string> := [];
    for i := 0 to |fields|
      invariant validationErrors == ValidationErrors(fields[..i], data, matches)
    {
      var field := fields[i];
      var value := if field.id in data then data[field.id] else Absent;
      assert fields[..i + 1][..i] == fields[..i];
      validationErrors := validationErrors + FieldMessages(field, value, matches);
    }
    assert fields[..|fields|] == fields;
    if |validationErrors| > 0 {
      return Invalid(validationErrors);
    }
    outcome := Saved(FullData(data, req.additionalData, now));
  }

  /**
   * The browser and the server agree on a field whenever the value is text
   * (or missing) and the field is not a required checkbox group: the server
   * finds no message exactly when the browser finds no error.
   */
  lemma BrowserAndServerAgree(field: FormField, v: Value, matches: (string, string) -> bool)
    requires (v.Str? || v.Absent?) && !(field.kind == Checkbox && field.required)
    ensures FieldMessages(field, v, matches) == [] <==> DynamicForm.FieldError(field, v, matches).None?
  {
    if field.required && IsBlank(v) {
    } else if IsFalsy(v) {
    } else if field.kind == TextField || field.kind == TextArea {
      TextChecksAgree(field, v, matches);
    } else {
      OtherChecksAgree(field, v, matches);
    }
  }

  /** On a non-empty value of any other field the two sides run the same one check, or none. */
  lemma OtherChecksAgree(field: FormField, v: Value, matches: (string, string) -> bool)
    requires field.kind != TextField && field.kind != TextArea && !(field.kind == Checkbox && field.required)
    requires v.Str? && !(field.required && IsBlank(v)) && !IsFalsy(v)
    ensures FieldMessages(field, v, matches) == [] <==> DynamicForm.FieldError(field, v, matches).None?
  {
    if field.kind == Email {
      assert FieldMessages(field, v, matches) == [] <==> IsEmailShape(ValueText(v));
    } else if field.kind == Phone {
      assert FieldMessages(field, v, matches) == [] <==> IsPhoneShape(ValueText(v));
    } else {
      assert FieldMessages(field, v, matches) == [];
    }
  }

  /** On a non-empty text value the two sides run the same three text checks. */
  lemma TextChecksAgree(field: FormField, v: Value, matches: (string, string) -> bool)
    requires field.kind == TextField || field.kind == TextArea
    requires v.Str? && !(field.required && IsBlank(v)) && !IsFalsy(v)
    ensures FieldMessages(field, v, matches) == TextMessages(field, v, matches)
    ensures DynamicForm.FieldError(field, v, matches) == DynamicForm.TextError(field, v, matches)
    ensures TextMessages(field, v, matches) == [] <==> DynamicForm.TextError(field, v, matches).None?
  {
  }
}
