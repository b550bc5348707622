/**
 * The cross-references section of the product editor: OEM numbers and
 * competitor part numbers, each with a brand, a part number, a reference type
 * chosen from a fixed list, a "preferred" flag and optional notes. Entries are
 * appended blank, edited one field at a time on a copy of the list, or removed.
 */
module CrossReferences {
  import opened Text
  import opened Seqs

  datatype CrossReference = CrossReference(refBrandName: string, refCode: string, referenceType: string, isPreferred: bool, notes: Option<string>)

  datatype ReferenceType = Oem | Competitor | Supersedes | SupersededBy

  /** The types the select offers, in display order. */
  const ReferenceTypes: seq<string> := ["OEM", "Competitor", "Supersedes", "Superseded By"]

  /** The text a type is stored and shown as. */
  function TypeName(t: ReferenceType): (name: string)
    ensures name in ReferenceTypes
  {
    match t
    case Oem => "OEM"
    case Competitor => "Competitor"
    case Supersedes => "Supersedes"
    case SupersededBy => "Superseded By"
  }

  /** The type a stored text names, if it is one of the offered ones. */
  function ParseType(s: string): (t: Option<ReferenceType>)
    ensures t.Some? <==> s in ReferenceTypes
  {
    if s == "OEM" then Some(Oem)
    else if s == "Competitor" then Some(Competitor)
    else if s == "Supersedes" then Some(Supersedes)
    else if s == "Superseded By" then Some(SupersededBy)
    else None
  }

  /** The offered texts and the types correspond one to one. */
  lemma TypeNamesRoundTrip(t: ReferenceType, s: string)
    ensures ParseType(TypeName(t)) == Some(t)
    ensures ParseType(s).Some? ==> TypeName(ParseType(s).value) == s
    ensures |ReferenceTypes| == 4 && NoDuplicates(ReferenceTypes)
  {
  }

  /** "+ Add Reference": a blank OEM reference, not preferred, with empty notes. */
  function AddCrossReference(refs: seq<CrossReference>): (r: seq<CrossReference>)
    ensures |r| == |refs| + 1 && r[..|refs|] == refs
    ensures r[|refs|] == CrossReference("", "", TypeName(Oem), false, Some(""))
  {
    refs + [CrossReference("", "", "OEM", false, Some(""))]
  }

  /** One field of one entry, as the inputs set it; the type comes from the select. */
  datatype ReferenceEdit = SetBrand(brand: string) | SetCode(code: string) | SetType(t: ReferenceType) | SetPreferred(b: bool) | SetNotes(text: string)

  function ApplyEdit(ref: CrossReference, e: ReferenceEdit): (r: CrossReference)
    ensures e.SetBrand? ==> r == ref.(refBrandName := e.brand)
    ensures e.SetCode? ==> r == ref.(refCode := e.code)
    ensures e.SetType? ==> r == ref.(referenceType := TypeName(e.t))
    ensures e.SetPreferred? ==> r == ref.(isPreferred := e.b)
    ensures e.SetNotes? ==> r == ref.(notes := Some(e.text))
  {
    match e
    case SetBrand(brand) => ref.(refBrandName := brand)
    case SetCode(code) => ref.(refCode := code)
    case SetType(t) => ref.(referenceType := TypeName(t))
    case SetPreferred(b) => ref.(isPreferred := b)
    case SetNotes(text) => ref.(notes := Some(text))
  }

  /** Whether two edits set the same field. */
  predicate SameField(e1: ReferenceEdit, e2: ReferenceEdit)
  {
    (e1.SetBrand? && e2.SetBrand?) || (e1.SetCode? && e2.SetCode?) || (e1.SetType? && e2.SetType?) ||
    (e1.SetPreferred? && e2.SetPreferred?) || (e1.SetNotes? && e2.SetNotes?)
  }

  /**
   * Repeating an edit changes nothing more, a later edit of the same field
   * overrides an earlier one, and edits of different fields commute.
   */
  lemma EditLaws(ref: CrossReference, e1: ReferenceEdit, e2: ReferenceEdit)
    ensures ApplyEdit(ApplyEdit(ref, e1), e1) == ApplyEdit(ref, e1)
    ensures SameField(e1, e2) ==> ApplyEdit(ApplyEdit(ref, e1), e2) == ApplyEdit(ref, e2)
    ensures !SameField(e1, e2) ==> ApplyEdit(ApplyEdit(ref, e1), e2) == ApplyEdit(ApplyEdit(ref, e2), e1)
  {
  }

  /** `updated = [...crossReferences]; updated[index] = { ...updated[index], [field]: value }` */
  method UpdateCrossReference(refs: seq<CrossReference>, index: int, e: ReferenceEdit) returns (r: seq<CrossReference>)
    requires 0 <= index < |refs|
    ensures |r| == |refs|
    ensures r[index] == ApplyEdit(refs[index], e)
    ensures forall k :: 0 <= k < |refs| && k != index ==> r[k] == refs[k]
  {
    var updated := new CrossReference[|refs|](k requires 0 <= k < |refs| => refs[k]);
    updated[index] := ApplyEdit(updated[index], e);
    r := updated[..];
  }

  /** Every entry's type is one of the offered ones. */
  predicate TypesOffered(refs: seq<CrossReference>)
  {
    forall k :: 0 <= k < |refs| ==> refs[k].referenceType in ReferenceTypes
  }

  /** Adding, editing and removing entries keep every type among the offered ones. */
  lemma EditsKeepTypesOffered(refs: seq<CrossReference>, index: int, e: ReferenceEdit, edited: seq<CrossReference>)
    requires TypesOffered(refs)
    requires 0 <= index < |refs| && |edited| == |refs| && edited[index] == ApplyEdit(refs[index], e)
    requires forall k :: 0 <= k < |refs| && k != index ==> edited[k] == refs[k]
    ensures TypesOffered(AddCrossReference(refs))
    ensures TypesOffered(RemoveAt(refs, index))
    ensures TypesOffered(edited)
  {
    var removed := RemoveAt(refs, index);
    forall k | 0 <= k < |removed| ensures removed[k].referenceType in ReferenceTypes {
      if k < index {
        assert removed[k] == removed[..index][k];
      } else {
        assert removed[k] == removed[index..][k - index];
        assert refs[k + 1] == (refs[..index] + [refs[index]] + removed[index..])[k + 1];
      }
    }
  }

  /** Removing the entry just added gives the list back. */
  lemma AddThenRemove(refs: seq<CrossReference>)
    ensures RemoveAt(AddCrossReference(refs), |refs|) == refs
  {
    var added := AddCrossReference(refs);
    assert RemoveAt(added, |refs|)[..|refs|] == added[..|refs|];
  }
}
