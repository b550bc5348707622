/**
 * The product editor's form state and the payload it sends on save: comma
 * lists of tags and industries, a category whose change clears the chosen
 * filter type, optional texts and dimensions that are sent as null when empty,
 * and the list of specification values with their unit overrides and positions.
 */
module ProductForm {
  import opened Text
  import opened Seqs

  datatype Category = HeavyDuty | Automotive

  /** A dimension as the form may hold it: null or undefined, the empty text, or a number. */
  datatype DimValue = NullDim | BlankDim | NumDim(x: real)

  /** A spec value's position as held: a number, or anything that is not a number. */
  datatype PositionInput = NumberPosition(x: real) | NoPosition

  datatype SpecValueInput = SpecValueInput(parameterId: string, value: string, unitOverride: Option<string>, position: PositionInput)

  datatype FilterTypeOption = FilterTypeOption(id: string, name: string, category: Category, fullSlug: string)

  /** The form's fields that the editor changes (the JSON-edited lists are not part of this model). */
  datatype ProductInput = ProductInput(
    code: string, name: string, description: Option<string>, category: Option<Category>,
    filterTypeId: Option<string>, status: Option<string>, manufacturer: Option<string>,
    thread: Option<string>, model: Option<string>, tags: seq<string>, industries: seq<string>,
    heightMm: DimValue, odMm: DimValue, idMm: DimValue, specValues: seq<SpecValueInput>)

  datatype SpecValuePayload = SpecValuePayload(parameterId: string, value: string, unitOverride: Option<string>, position: int)

  datatype ProductPayload = ProductPayload(
    code: string, name: string, description: Option<string>, category: Option<Category>,
    filterTypeId: Option<string>, status: Option<string>, manufacturer: Option<string>,
    thread: Option<string>, model: Option<string>, tags: seq<string>, industries: seq<string>,
    heightMm: Option<real>, odMm: Option<real>, idMm: Option<real>, specValues: seq<SpecValuePayload>)

  // ---------------------------------------------------------------------
  // Comma lists
  // ---------------------------------------------------------------------

  /** `value.split(',').map((s) => s.trim()).filter(Boolean)` */
  function ParseList(text: string): (items: seq<string>)
  {
    SplitTrimmed(text, ',')
  }

  /** Every parsed entry is non-empty, trimmed and without a comma. */
  lemma ParseListEntries(text: string)
    ensures forall k :: 0 <= k < |ParseList(text)| ==>
      ParseList(text)[k] != [] && Trim(ParseList(text)[k]) == ParseList(text)[k] && ',' !in ParseList(text)[k]
  {
    SplitTrimmedEntries(text, ',');
  }

  /** The pieces of `items.join(', ')` between the commas: the first entry, then each later one after a space. */
  function Spaced(items: seq<string>): (r: seq<string>)
    ensures |r| == |items|
    ensures |items| > 0 ==> r[0] == items[0]
    ensures forall k :: 0 < k < |items| ==> r[k] == " " + items[k]
  {
    seq(|items|, k requires 0 <= k < |items| => if k == 0 then items[0] else " " + items[k])
  }

  /** `items.join(', ')`, the text the input shows. */
  function ShowList(items: seq<string>): string
  {
    Join(Spaced(items), ',')
  }

  /** Trimming a trimmed non-empty text with a space in front gives the text back. */
  lemma TrimAfterSpace(t: string)
    requires t != [] && Trim(t) == t
    ensures Trim(" " + t) == t
  {
    assert !IsJsSpace(t[0]) && !IsJsSpace(t[|t| - 1]);
    assert (" " + t)[1..] == t;
    assert TrimStartWith(" " + t, IsJsSpace) == TrimStartWith(t, IsJsSpace);
    assert TrimStartWith(t, IsJsSpace) == t;
    assert TrimEndWith(t, IsJsSpace) == t;
  }

  /** Showing a parsed list and parsing the shown text gives the same list back. */
  lemma ShowThenParse(items: seq<string>)
    requires forall k :: 0 <= k < |items| ==> items[k] != [] && Trim(items[k]) == items[k] && ',' !in items[k]
    ensures ParseList(ShowList(items)) == items
  {
    var spaced := Spaced(items);
    forall k | 0 <= k < |spaced| ensures ',' !in spaced[k] {
      if k > 0 {
        assert spaced[k] == " " + items[k];
      }
    }
    if items == [] {
      assert Split([], ',') == [[]];
    } else {
      SplitJoin(spaced, ',');
      forall k | 0 <= k < |items| ensures Trim(spaced[k]) == items[k] {
        if k > 0 {
          TrimAfterSpace(items[k]);
        }
      }
      assert TrimAll(spaced) == items;
      NonEmptyOfFull(items);
    }
  }

  /** The tags input: the typed text replaces the tags. */
  function SetTags(form: ProductInput, text: string): (r: ProductInput)
    ensures r.tags == ParseList(text) && r.(tags := form.tags) == form
  {
    form.(tags := ParseList(text))
  }

  /** The industries input: the typed text replaces the industries. */
  function SetIndustries(form: ProductInput, text: string): (r: ProductInput)
    ensures r.industries == ParseList(text) && r.(industries := form.industries) == form
  {
    form.(industries := ParseList(text))
  }

  // ---------------------------------------------------------------------
  // Category and filter type
  // ---------------------------------------------------------------------

  /** Choosing a category ("—" is `None`) clears the filter type; nothing else changes. */
  function ChangeCategory(form: ProductInput, choice: Option<Category>): (r: ProductInput)
    ensures r.category == choice && r.filterTypeId.None?
    ensures r.(category := form.category, filterTypeId := form.filterTypeId) == form
  {
    form.(category := choice, filterTypeId := None)
  }

  /** The filter types offered: those of the chosen category, or all when none is chosen, in list order. */
  function FilterTypeChoices(category: Option<Category>, filterTypes: seq<FilterTypeOption>): (r: seq<FilterTypeOption>)
    ensures category.None? ==> r == filterTypes
    ensures category.Some? ==> forall k :: 0 <= k < |r| ==> r[k].category == category.value
    ensures category.Some? ==> forall k :: 0 <= k < |filterTypes| && filterTypes[k].category == category.value ==> filterTypes[k] in r
    ensures IsSubsequence(r, filterTypes)
  {
    if category.None? then
      SubsequenceRefl(filterTypes);
      filterTypes
    else
      FilterIsSubsequence(filterTypes, (ft: FilterTypeOption) => ft.category == category.value);
      Filter(filterTypes, (ft: FilterTypeOption) => ft.category == category.value)
  }

  // ---------------------------------------------------------------------
  // The spec values
  // ---------------------------------------------------------------------

  /** "+ Add spec": the first parameter (or none), empty value and unit, position ten times the count. */
  function AddSpecValue(values: seq<SpecValueInput>, parameterIds: seq<string>): (r: seq<SpecValueInput>)
    ensures |r| == |values| + 1 && r[..|values|] == values
    ensures r[|values|].parameterId == (if parameterIds == [] then "" else parameterIds[0])
    ensures r[|values|].value == "" && r[|values|].unitOverride == Some("")
    ensures r[|values|].position == NumberPosition((|values| * 10) as real)
  {
    values + [SpecValueInput(if parameterIds == [] then "" else parameterIds[0], "", Some(""), NumberPosition((|values| * 10) as real))]
  }

  /** One edit of one spec value's inputs; a blank position input counts as 0. */
  datatype SpecEdit = SetParameter(id: string) | SetValue(v: string) | SetUnit(u: string) | SetPosition(typed: Option<real>)

  function ApplySpecEdit(sv: SpecValueInput, e: SpecEdit): (r: SpecValueInput)
    ensures e.SetParameter? ==> r == sv.(parameterId := e.id)
    ensures e.SetValue? ==> r == sv.(value := e.v)
    ensures e.SetUnit? ==> r == sv.(unitOverride := Some(e.u))
    ensures e.SetPosition? ==> r == sv.(position := NumberPosition(if e.typed.None? then 0.0 else e.typed.value))
  {
    match e
    case SetParameter(id) => sv.(parameterId := id)
    case SetValue(v) => sv.(value := v)
    case SetUnit(u) => sv.(unitOverride := Some(u))
    case SetPosition(typed) => sv.(position := NumberPosition(if typed.None? then 0.0 else typed.value))
  }

  /** Whether two edits set the same input. */
  predicate SameInput(e1: SpecEdit, e2: SpecEdit)
  {
    (e1.SetParameter? && e2.SetParameter?) || (e1.SetValue? && e2.SetValue?) ||
    (e1.SetUnit? && e2.SetUnit?) || (e1.SetPosition? && e2.SetPosition?)
  }

  /**
   * Repeating an edit changes nothing more, a later edit of the same input
   * overrides an earlier one, and edits of different inputs commute.
   */
  lemma SpecEditLaws(sv: SpecValueInput, e1: SpecEdit, e2: SpecEdit)
    ensures ApplySpecEdit(ApplySpecEdit(sv, e1), e1) == ApplySpecEdit(sv, e1)
    ensures SameInput(e1, e2) ==> ApplySpecEdit(ApplySpecEdit(sv, e1), e2) == ApplySpecEdit(sv, e2)
    ensures !SameInput(e1, e2) ==> ApplySpecEdit(ApplySpecEdit(sv, e1), e2) == ApplySpecEdit(ApplySpecEdit(sv, e2), e1)
  {
  }

  /** `next = [...specValues]; next[idx] = { ...next[idx], field: v }` */
  method EditSpecValue(values: seq<SpecValueInput>, idx: int, e: SpecEdit) returns (r: seq<SpecValueInput>)
    requires 0 <= idx < |values|
    ensures |r| == |values|
    ensures r[idx] == ApplySpecEdit(values[idx], e)
    ensures forall k :: 0 <= k < |values| && k != idx ==> r[k] == values[k]
  {
    var next := new SpecValueInput[|values|](k requires 0 <= k < |values| => values[k]);
    next[idx] := ApplySpecEdit(next[idx], e);
    r := next[..];
  }

  /** Adding a spec value and removing it again restores the list. */
  lemma AddThenRemove(values: seq<SpecValueInput>, parameterIds: seq<string>)
    ensures RemoveAt(AddSpecValue(values, parameterIds), |values|) == values
  {
    var added := AddSpecValue(values, parameterIds);
    assert RemoveAt(added, |values|)[..|values|] == added[..|values|];
  }

  // ---------------------------------------------------------------------
  // The payload
  // ---------------------------------------------------------------------

  /** `x || null` on optional text. */
  function OrNull(x: Option<string>): (r: Option<string>)
    ensures r.Some? ==> r.value != ""
    ensures x.Some? && x.value != "" ==> r == x
    ensures !(x.Some? && x.value != "") ==> r.None?
  {
    if x.Some? && x.value != "" then x else None
  }

  /** Blank and missing text are sent alike, and a text already sent passes through unchanged. */
  lemma OrNullLaws(x: Option<string>)
    ensures OrNull(Some("")) == OrNull(None)
    ensures OrNull(OrNull(x)) == OrNull(x)
    ensures OrNull(x).None? <==> x.None? || x == Some("")
  {
  }

  /** `Math.trunc`: the integer part, rounded toward zero. */
  function Trunc(x: real): (n: int)
    ensures x >= 0.0 ==> 0 <= n && n as real <= x < n as real + 1.0
    ensures x < 0.0 ==> n <= 0 && n as real - 1.0 < x <= n as real
  {
    if x >= 0.0 then x.Floor else -((-x).Floor)
  }

  /** A dimension as sent: null for null, undefined or '', else the number. */
  function DimPayload(d: DimValue): (r: Option<real>)
    ensures r.None? <==> !d.NumDim?
    ensures d.NumDim? ==> r == Some(d.x)
  {
    if d.NumDim? then Some(d.x) else None
  }

  /** One spec value as sent: an empty unit override is null; a position is truncated, or 0 when not a number. */
  function SpecPayload(sv: SpecValueInput): (r: SpecValuePayload)
    ensures r.parameterId == sv.parameterId && r.value == sv.value
    ensures r.unitOverride == OrNull(sv.unitOverride)
    ensures sv.position.NoPosition? ==> r.position == 0
    ensures sv.position.NumberPosition? ==> r.position == Trunc(sv.position.x)
  {
    SpecValuePayload(sv.parameterId, sv.value, OrNull(sv.unitOverride),
      if sv.position.NumberPosition? then Trunc(sv.position.x) else 0)
  }

  /** The body of the save request. */
  function Payload(form: ProductInput): (p: ProductPayload)
    ensures p.code == form.code && p.name == form.name && p.tags == form.tags && p.industries == form.industries
    ensures p.category == form.category
    ensures p.description == OrNull(form.description) && p.filterTypeId == OrNull(form.filterTypeId)
    ensures p.status == OrNull(form.status) && p.manufacturer == OrNull(form.manufacturer)
    ensures p.thread == OrNull(form.thread) && p.model == OrNull(form.model)
    ensures p.heightMm == DimPayload(form.heightMm) && p.odMm == DimPayload(form.odMm) && p.idMm == DimPayload(form.idMm)
    ensures |p.specValues| == |form.specValues|
    ensures forall k :: 0 <= k < |form.specValues| ==> p.specValues[k] == SpecPayload(form.specValues[k])
  {
    ProductPayload(form.code, form.name, OrNull(form.description), form.category,
      OrNull(form.filterTypeId), OrNull(form.status), OrNull(form.manufacturer),
      OrNull(form.thread), OrNull(form.model), form.tags, form.industries,
      DimPayload(form.heightMm), DimPayload(form.odMm), DimPayload(form.idMm),
      seq(|form.specValues|, k requires 0 <= k < |form.specValues| => SpecPayload(form.specValues[k])))
  }

  /** The payload never carries an empty optional text or an empty unit override. */
  lemma PayloadHasNoEmptyText(form: ProductInput)
    ensures var p := Payload(form);
      (p.description.Some? ==> p.description.value != "") && (p.status.Some? ==> p.status.value != "") &&
      (p.manufacturer.Some? ==> p.manufacturer.value != "") && (p.thread.Some? ==> p.thread.value != "") &&
      (p.model.Some? ==> p.model.value != "") && (p.filterTypeId.Some? ==> p.filterTypeId.value != "") &&
      forall k :: 0 <= k < |p.specValues| ==> p.specValues[k].unitOverride != Some("")
  {
    var p := Payload(form);
    forall k | 0 <= k < |p.specValues| ensures p.specValues[k].unitOverride != Some("") {
      assert p.specValues[k] == SpecPayload(form.specValues[k]);
    }
  }

  /** A spec value added by the button is sent at position ten times its index, with no unit override. */
  lemma AddedSpecPayload(form: ProductInput, parameterIds: seq<string>)
    ensures var added := AddSpecValue(form.specValues, parameterIds);
      var p := Payload(form.(specValues := added));
      p.specValues[|form.specValues|].position == |form.specValues| * 10 &&
      p.specValues[|form.specValues|].unitOverride.None?
  {
    var added := AddSpecValue(form.specValues, parameterIds);
    var n := |form.specValues|;
    var sent := SpecPayload(added[n]);
    assert added[n].position == NumberPosition((n * 10) as real);
    assert Trunc((n * 10) as real) == n * 10;
    assert sent.position == n * 10 && sent.unitOverride.None?;
    assert Payload(form.(specValues := added)).specValues[n] == sent;
  }

  /** A whole-number position is sent as that number, of either sign. */
  lemma WholePositionKept(sv: SpecValueInput, n: int)
    requires sv.position == NumberPosition(n as real)
    ensures SpecPayload(sv).position == n
  {
    if n < 0 {
      assert -(n as real) == (-n) as real;
    }
  }

  /**
   * A form whose optional texts and dimensions are blank is saved exactly as
   * one where they are missing.
   */
  lemma BlankLikeMissing(form: ProductInput)
    ensures Payload(form.(description := Some(""), status := Some(""), manufacturer := Some(""),
        thread := Some(""), model := Some(""), filterTypeId := Some(""),
        heightMm := BlankDim, odMm := BlankDim, idMm := BlankDim)) ==
      Payload(form.(description := None, status := None, manufacturer := None,
        thread := None, model := None, filterTypeId := None,
        heightMm := NullDim, odMm := NullDim, idMm := NullDim))
  {
  }
}
