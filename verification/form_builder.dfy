/**
 * The administrator's form builder: the form's name and slug, its list of
 * fields and the field being edited. Typing a name proposes a slug unless the
 * form was opened with one; fields are added, edited, deleted and moved one
 * place at a time; a form is saved only with a name, a slug and a field. The
 * confirmation dialog's answer and the clock are inputs.
 */
module FormBuilder {
  import opened Text
  import opened Seqs
  import opened Slugify
  import opened FormFields

  /** A field as the builder holds it (`label` is the field `title` here). */
  datatype BuilderField = BuilderField(
    id: string, kind: FieldKind, title: string, placeholder: string, required: bool,
    helpText: string, fullWidth: bool, options: Option<seq<string>>)

  /** A partial update `{ ...field, ...updates }`: each present entry replaces the field's value. */
  datatype FieldPatch = FieldPatch(
    title: Option<string>, placeholder: Option<string>, required: Option<bool>,
    helpText: Option<string>, fullWidth: Option<bool>, options: Option<Option<seq<string>>>)

  /** What the save button does: warn about the name and slug, warn about the fields, or save. */
  datatype SubmitOutcome = NameAndSlugRequired | FieldRequired | Save

  // ---------------------------------------------------------------------
  // The slug proposed from the name
  // ---------------------------------------------------------------------

  predicate NotSlugAlnum(c: char) { !(IsLowerAlpha(c) || IsDigit(c)) }

  /** `.replace(/(^-|-$)/g, '')`: one '-' is removed from the start and one from the end. */
  function StripEdgeDashes(s: string): (r: string)
    ensures var front := if s != [] && s[0] == '-' then 1 else 0;
      front + |r| <= |s| <= front + |r| + 1 && r == s[front..front + |r|] &&
      (front + |r| < |s| ==> s[|s| - 1] == '-')
  {
    var a := if s != [] && s[0] == '-' then s[1..] else s;
    if a != [] && a[|a| - 1] == '-' then a[..|a| - 1] else a
  }

  /** `name.toLowerCase().replace(/[^a-z0-9]+/g, '-').replace(/(^-|-$)/g, '')` */
  function AutoSlug(name: string): string
  {
    StripEdgeDashes(ReplaceRuns(Lower(name), NotSlugAlnum, '-'))
  }

  /** The proposed slug is `[a-z0-9]` runs joined by single dashes, with no dash at either end. */
  lemma AutoSlugClean(name: string)
    ensures IsCleanSlug(AutoSlug(name))
  {
    var r := ReplaceRuns(Lower(name), NotSlugAlnum, '-');
    ReplaceRunsNoDoubled(Lower(name), NotSlugAlnum, '-');
    forall k | 0 <= k < |r| ensures IsSlugChar(r[k]) {
      assert r[k] == '-' || !NotSlugAlnum(r[k]);
    }
    StripEdgeDashesClean(r);
  }

  /** Slug characters without doubled dashes. */
  predicate DashSeparated(s: string)
  {
    (forall k :: 0 <= k < |s| ==> IsSlugChar(s[k])) && NoDoubled(s, '-')
  }

  /** Stripping the edge dashes of slug characters without doubled dashes leaves a clean slug. */
  lemma StripEdgeDashesClean(s: string)
    requires DashSeparated(s)
    ensures IsCleanSlug(StripEdgeDashes(s))
  {
    var a := if s != [] && s[0] == '-' then s[1..] else s;
    if s != [] && s[0] == '-' {
      DropFirstKeeps(s);
    }
    var b := if a != [] && a[|a| - 1] == '-' then a[..|a| - 1] else a;
    if a != [] && a[|a| - 1] == '-' {
      DropLastKeeps(a);
    }
    assert b == StripEdgeDashes(s);
  }

  lemma DropFirstKeeps(s: string)
    requires DashSeparated(s) && s != [] && s[0] == '-'
    ensures DashSeparated(s[1..])
    ensures s[1..] != [] ==> s[1] != '-'
  {
    assert |s| > 1 ==> !(s[0] == '-' && s[1] == '-');
  }

  lemma DropLastKeeps(a: string)
    requires DashSeparated(a) && a != [] && a[|a| - 1] == '-'
    requires a[0] != '-'
    ensures IsCleanSlug(a[..|a| - 1])
  {
    var n := |a|;
    assert a[n - 2] != '-';
  }

  /** A slug already of that shape is proposed unchanged. */
  lemma {:induction false} AutoSlugKeepsClean(s: string)
    requires IsCleanSlug(s)
    ensures AutoSlug(s) == s
  {
    assert Lower(s) == s;
    assert forall k :: 0 <= k < |s| && NotSlugAlnum(s[k]) ==> s[k] == '-';
    ReplaceRunsFixed(s, NotSlugAlnum, '-');
    assert AutoSlug(s) == StripEdgeDashes(s);
  }

  /** Proposing a slug from a proposed slug changes nothing. */
  lemma AutoSlugIdempotent(name: string)
    ensures AutoSlug(AutoSlug(name)) == AutoSlug(name)
  {
    AutoSlugClean(name);
    AutoSlugKeepsClean(AutoSlug(name));
  }

  // ---------------------------------------------------------------------
  // Fields
  // ---------------------------------------------------------------------

  /** The `type` value of each kind, as it appears in the new field's label. */
  function KindName(kind: FieldKind): string
  {
    match kind
    case TextField => "text"
    case Email => "email"
    case Phone => "phone"
    case TextArea => "textarea"
    case Select => "select"
    case Checkbox => "checkbox"
    case Radio => "radio"
  }

  predicate HasOptions(kind: FieldKind) { kind == Select || kind == Radio || kind == Checkbox }

  /** The field `addField` appends: optional, full width, two options for choice fields and none otherwise. */
  function NewField(kind: FieldKind, now: nat): (f: BuilderField)
    ensures f.kind == kind && !f.required && f.fullWidth
    ensures f.title == "New " + KindName(kind) + " field"
    ensures HasOptions(kind) <==> f.options.Some?
    ensures HasOptions(kind) ==> f.options.value == ["Option 1", "Option 2"]
  {
    BuilderField("field_" + NatToString(now), kind, "New " + KindName(kind) + " field", "", false, "",
      true, if HasOptions(kind) then Some(["Option 1", "Option 2"]) else None)
  }

  /** `{ ...field, ...updates }` */
  function ApplyPatch(f: BuilderField, p: FieldPatch): (r: BuilderField)
    ensures r.id == f.id && r.kind == f.kind
    ensures r.title == (if p.title.Some? then p.title.value else f.title)
    ensures r.placeholder == (if p.placeholder.Some? then p.placeholder.value else f.placeholder)
    ensures r.required == (if p.required.Some? then p.required.value else f.required)
    ensures r.helpText == (if p.helpText.Some? then p.helpText.value else f.helpText)
    ensures r.fullWidth == (if p.fullWidth.Some? then p.fullWidth.value else f.fullWidth)
    ensures r.options == (if p.options.Some? then p.options.value else f.options)
  {
    BuilderField(f.id, f.kind,
      if p.title.Some? then p.title.value else f.title,
      if p.placeholder.Some? then p.placeholder.value else f.placeholder,
      if p.required.Some? then p.required.value else f.required,
      if p.helpText.Some? then p.helpText.value else f.helpText,
      if p.fullWidth.Some? then p.fullWidth.value else f.fullWidth,
      if p.options.Some? then p.options.value else f.options)
  }

  /** The label of the option "+ Add Option" appends: `Option ${(options?.length || 0) + 1}`. */
  function NextOptionLabel(options: Option<seq<string>>): (text: string)
    ensures options.None? ==> text == "Option " + NatToString(1)
    ensures options.Some? ==> text == "Option " + NatToString(|options.value| + 1)
  {
    "Option " + NatToString((if options.Some? then |options.value| else 0) + 1)
  }

  /** A field's options after "+ Add Option": the old ones and the new label at the end. */
  function OptionsWithOneMore(options: Option<seq<string>>): (r: seq<string>)
    ensures |r| == (if options.Some? then |options.value| else 0) + 1
    ensures options.Some? ==> r[..|options.value|] == options.value
    ensures r[|r| - 1] == NextOptionLabel(options)
  {
    (if options.Some? then options.value else []) + [NextOptionLabel(options)]
  }

  /** Applying an update twice is applying it once, and an update without entries changes nothing. */
  lemma PatchLaws(f: BuilderField, p: FieldPatch)
    ensures ApplyPatch(ApplyPatch(f, p), p) == ApplyPatch(f, p)
    ensures ApplyPatch(f, FieldPatch(None, None, None, None, None, None)) == f
  {
  }

  /** The options "Option 1" to "Option n", as a choice field gets them by default. */
  function NumberedOptions(n: nat): (r: seq<string>)
    ensures |r| == n
    ensures forall k :: 0 <= k < n ==> r[k] == "Option " + NatToString(k + 1)
  {
    if n == 0 then [] else NumberedOptions(n - 1) + ["Option " + NatToString(n)]
  }

  /**
   * A new choice field starts with "Option 1" and "Option 2", and adding an
   * option to numbered options continues the numbering.
   */
  lemma {:induction false} OptionsStayNumbered(kind: FieldKind, now: nat, n: nat)
    ensures HasOptions(kind) ==> NewField(kind, now).options == Some(NumberedOptions(2))
    ensures OptionsWithOneMore(Some(NumberedOptions(n))) == NumberedOptions(n + 1)
    ensures OptionsWithOneMore(None) == NumberedOptions(1)
  {
    assert NatToString(1) == "1" && NatToString(2) == "2";
    assert "Option " + NatToString(1) == "Option 1";
    assert "Option " + NatToString(2) == "Option 2";
    var two := NumberedOptions(2);
    assert two[0] == "Option 1" && two[1] == "Option 2";
    assert two == ["Option 1", "Option 2"];
  }

  /** The position a field moves to. */
  function MoveTarget(index: int, up: bool): int
  {
    if up then index - 1 else index + 1
  }

  /** Moving a field and moving it back restores the list; a move never loses or adds a field. */
  lemma MoveBackRestores(fields: seq<BuilderField>, index: int, up: bool)
    requires 0 <= index < |fields| && 0 <= MoveTarget(index, up) < |fields|
    ensures var moved := Swap(fields, index, MoveTarget(index, up));
      Swap(moved, MoveTarget(index, up), index) == fields &&
      multiset(moved) == multiset(fields)
  {
    var t := MoveTarget(index, up);
    assert Swap(Swap(fields, index, t), t, index) == fields;
  }

  /** The save checks: a name and a slug first, then at least one field. */
  function SubmitCheck(name: string, slug: string, fields: seq<BuilderField>): (r: SubmitOutcome)
    ensures r == Save <==> name != "" && slug != "" && |fields| > 0
    ensures r == NameAndSlugRequired <==> name == "" || slug == ""
  {
    if name == "" || slug == "" then NameAndSlugRequired
    else if |fields| == 0 then FieldRequired
    else Save
  }

  // ---------------------------------------------------------------------
  // The builder's state
  // ---------------------------------------------------------------------

  class Builder {
    var name: string
    var slug: string
    var fields: seq<BuilderField>
    /** `editingFieldIndex`, `null` as `None`. */
    var editing: Option<nat>
    /** Whether the form was opened with a slug (`initialData?.slug` truthy). */
    const hasInitialSlug: bool

    /** The initial state: missing values become empty, and no field is being edited. */
    constructor (initialName: Option<string>, initialSlug: Option<string>, initialFields: Option<seq<BuilderField>>)
      ensures name == (if initialName.Some? then initialName.value else "")
      ensures slug == (if initialSlug.Some? then initialSlug.value else "")
      ensures fields == (if initialFields.Some? then initialFields.value else [])
      ensures editing.None?
      ensures hasInitialSlug <==> initialSlug.Some? && initialSlug.value != ""
    {
      name := if initialName.Some? then initialName.value else "";
      slug := if initialSlug.Some? then initialSlug.value else "";
      fields := if initialFields.Some? then initialFields.value else [];
      editing := None;
      hasInitialSlug := initialSlug.Some? && initialSlug.value != "";
    }

    /** `handleNameChange`: the name changes; the slug follows it only for a form opened without a slug. */
    method HandleNameChange(newName: string)
      modifies this
      ensures name == newName
      ensures slug == (if hasInitialSlug then old(slug) else AutoSlug(newName))
      ensures fields == old(fields) && editing == old(editing)
    {
      name := newName;
      if !hasInitialSlug {
        slug := AutoSlug(newName);
      }
    }

    /** `addField`: the new field goes last and becomes the one being edited. */
    method AddField(kind: FieldKind, now: nat)
      modifies this
      ensures fields == old(fields) + [NewField(kind, now)]
      ensures editing == Some(|old(fields)|)
      ensures name == old(name) && slug == old(slug)
    {
      editing := Some(|fields|);
      fields := fields + [NewField(kind, now)];
    }

    /** `updateField`: one field takes the updates; the others are untouched. */
    method UpdateField(index: nat, p: FieldPatch)
      requires index < |fields|
      modifies this
      ensures |fields| == |old(fields)|
      ensures fields[index] == ApplyPatch(old(fields)[index], p)
      ensures forall k :: 0 <= k < |fields| && k != index ==> fields[k] == old(fields)[k]
      ensures name == old(name) && slug == old(slug) && editing == old(editing)
    {
      var copy := new BuilderField[|fields|](k requires 0 <= k < |fields| reads this => fields[k]);
      copy[index] := ApplyPatch(copy[index], p);
      fields := copy[..];
    }

    /** `deleteField`: after confirmation exactly the field at the index goes, and nothing is being edited. */
    method DeleteField(index: nat, confirmed: bool)
      modifies this
      ensures confirmed ==> fields == RemoveAt(old(fields), index) && editing.None?
      ensures !confirmed ==> fields == old(fields) && editing == old(editing)
      ensures name == old(name) && slug == old(slug)
    {
      if confirmed {
        fields := RemoveAt(fields, index);
        editing := None;
      }
    }

    /** `moveField`: a no-op at the edge; otherwise the field swaps with its neighbour, which is then edited. */
    method MoveField(index: nat, up: bool)
      requires index < |fields|
      modifies this
      ensures var t := MoveTarget(index, up);
        if 0 <= t < |old(fields)| then fields == Swap(old(fields), index, t) && editing == Some(t)
        else fields == old(fields) && editing == old(editing)
      ensures name == old(name) && slug == old(slug)
    {
      var t := MoveTarget(index, up);
      if t < 0 || t >= |fields| {
        return;
      }
      var copy := new BuilderField[|fields|](k requires 0 <= k < |fields| reads this => fields[k]);
      copy[index], copy[t] := copy[t], copy[index];
      fields := copy[..];
      editing := Some(t);
    }

    /** "+ Add Option" on a field: one more option, labelled after the count. */
    method AddOption(index: nat)
      requires index < |fields|
      modifies this
      ensures |fields| == |old(fields)|
      ensures fields[index] == old(fields)[index].(options := Some(OptionsWithOneMore(old(fields)[index].options)))
      ensures forall k :: 0 <= k < |fields| && k != index ==> fields[k] == old(fields)[k]
      ensures name == old(name) && slug == old(slug) && editing == old(editing)
    {
      var f := fields[index];
      fields := fields[index := f.(options := Some(OptionsWithOneMore(f.options)))];
    }

    /** `handleSubmit`'s checks on the current state. */
    function SubmitOutcomeNow(): (r: SubmitOutcome)
      reads this
      ensures r == SubmitCheck(name, slug, fields)
    {
      SubmitCheck(name, slug, fields)
    }
  }
}
