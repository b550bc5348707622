/**
 * The specifications section of the product editor: a list of values, each
 * naming a parameter, with a value text, an optional unit override and a
 * position. Entries are appended blank, edited one field at a time on a copy
 * of the list, or removed; the parameter choices are grouped by category, a
 * missing or empty category counting as "Other".
 */
module SpecValues {
  import opened Text
  import opened Seqs
  import opened Grouping

  datatype SpecValue = SpecValue(parameterId: string, value: string, unitOverride: Option<string>, position: int)

  datatype ParameterChoice = ParameterChoice(id: string, name: string, unit: Option<string>, category: Option<string>)

  /** "+ Add Spec": a blank entry at the end whose position is the old length. */
  function AddSpecValue(values: seq<SpecValue>): (r: seq<SpecValue>)
    ensures |r| == |values| + 1 && r[..|values|] == values
    ensures r[|values|] == SpecValue("", "", Some(""), |values|)
  {
    values + [SpecValue("", "", Some(""), |values|)]
  }

  /** Positions 0, 1, 2, ... in list order. */
  predicate NumberedInOrder(values: seq<SpecValue>)
  {
    forall i :: 0 <= i < |values| ==> values[i].position == i
  }

  /** Adding keeps a list whose positions follow its order in that shape. */
  lemma AddKeepsNumbering(values: seq<SpecValue>)
    requires NumberedInOrder(values)
    ensures NumberedInOrder(AddSpecValue(values))
  {
  }

  /** One field of one entry, as the inputs set it; a position that does not parse, or parses to 0, is 0. */
  datatype SpecValueEdit = SetParameter(id: string) | SetValue(v: string) | SetUnit(u: string) | SetPosition(parsed: Option<int>)

  function ApplyEdit(sv: SpecValue, e: SpecValueEdit): (r: SpecValue)
    ensures e.SetParameter? ==> r == sv.(parameterId := e.id)
    ensures e.SetValue? ==> r == sv.(value := e.v)
    ensures e.SetUnit? ==> r == sv.(unitOverride := Some(e.u))
    ensures e.SetPosition? ==> r == sv.(position := if e.parsed.None? then 0 else e.parsed.value)
  {
    match e
    case SetParameter(id) => sv.(parameterId := id)
    case SetValue(v) => sv.(value := v)
    case SetUnit(u) => sv.(unitOverride := Some(u))
    case SetPosition(parsed) => sv.(position := if parsed.None? then 0 else parsed.value)
  }

  /** Whether two edits set the same field. */
  predicate SameField(e1: SpecValueEdit, e2: SpecValueEdit)
  {
    (e1.SetParameter? && e2.SetParameter?) || (e1.SetValue? && e2.SetValue?) ||
    (e1.SetUnit? && e2.SetUnit?) || (e1.SetPosition? && e2.SetPosition?)
  }

  /**
   * Repeating an edit changes nothing more, a later edit of the same field
   * overrides an earlier one, and edits of different fields commute.
   */
  lemma EditLaws(sv: SpecValue, e1: SpecValueEdit, e2: SpecValueEdit)
    ensures ApplyEdit(ApplyEdit(sv, e1), e1) == ApplyEdit(sv, e1)
    ensures SameField(e1, e2) ==> ApplyEdit(ApplyEdit(sv, e1), e2) == ApplyEdit(sv, e2)
    ensures !SameField(e1, e2) ==> ApplyEdit(ApplyEdit(sv, e1), e2) == ApplyEdit(ApplyEdit(sv, e2), e1)
  {
  }

  /** `updated = [...specValues]; updated[index] = { ...updated[index], [field]: value }` */
  method UpdateSpecValue(values: seq<SpecValue>, index: int, e: SpecValueEdit) returns (r: seq<SpecValue>)
    requires 0 <= index < |values|
    ensures |r| == |values|
    ensures r[index] == ApplyEdit(values[index], e)
    ensures forall k :: 0 <= k < |values| && k != index ==> r[k] == values[k]
  {
    var updated := new SpecValue[|values|](k requires 0 <= k < |values| => values[k]);
    updated[index] := ApplyEdit(updated[index], e);
    r := updated[..];
  }

  /** Removing the entry just added gives the list back. */
  lemma AddThenRemove(values: seq<SpecValue>)
    ensures RemoveAt(AddSpecValue(values), |values|) == values
  {
    var added := AddSpecValue(values);
    assert RemoveAt(added, |values|)[..|values|] == added[..|values|];
  }

  /** `param.category || 'Other'` */
  function OtherKey(p: ParameterChoice): (k: string)
    ensures p.category.Some? && p.category.value != "" ==> k == p.category.value
    ensures !(p.category.Some? && p.category.value != "") ==> k == "Other"
  {
    if p.category.Some? && p.category.value != "" then p.category.value else "Other"
  }

  /** The heading is never empty, and is 'Other' exactly when the category is missing, empty or 'Other' itself. */
  lemma OtherMerged(p: ParameterChoice)
    ensures OtherKey(p) != ""
    ensures OtherKey(p) == "Other" <==> p.category.None? || p.category == Some("") || p.category == Some("Other")
  {
  }

  /** `parametersByCategory`, filled by the `reduce` one parameter at a time. */
  method ParametersByCategory(params: seq<ParameterChoice>) returns (groups: seq<Group<string, ParameterChoice>>)
    ensures groups == GroupBy(params, OtherKey)
  {
    groups := GroupItems(params, OtherKey);
  }

  /** Every parameter is offered under exactly one heading, its category or "Other", in input order. */
  lemma GroupedUnderOther(params: seq<ParameterChoice>)
    ensures DistinctKeys(GroupBy(params, OtherKey))
    ensures forall j :: 0 <= j < |GroupBy(params, OtherKey)| ==>
      GroupBy(params, OtherKey)[j].members == Filter(params, HasKey(OtherKey, GroupBy(params, OtherKey)[j].key))
    ensures forall k, j :: 0 <= k < |params| && 0 <= j < |GroupBy(params, OtherKey)| ==>
      (params[k] in GroupBy(params, OtherKey)[j].members <==> GroupBy(params, OtherKey)[j].key == OtherKey(params[k]))
    ensures forall k :: 0 <= k < |params| ==>
      exists j :: 0 <= j < |GroupBy(params, OtherKey)| && GroupBy(params, OtherKey)[j].key == OtherKey(params[k])
  {
    var groups := GroupBy(params, OtherKey);
    GroupKeysDistinct(params, OtherKey);
    GroupMembers(params, OtherKey);
    forall k, j | 0 <= k < |params| && 0 <= j < |groups|
      ensures params[k] in groups[j].members <==> groups[j].key == OtherKey(params[k])
    {
      var test := HasKey(OtherKey, groups[j].key);
      if params[k] in groups[j].members {
        var m :| 0 <= m < |groups[j].members| && groups[j].members[m] == params[k];
        assert test(groups[j].members[m]);
      }
    }
    forall k | 0 <= k < |params|
      ensures exists j :: 0 <= j < |groups| && groups[j].key == OtherKey(params[k])
    {
      GroupCovers(params, OtherKey, k);
    }
  }
}
