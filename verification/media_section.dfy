/**
 * The media list of the product editor: each entry refers to an uploaded
 * asset, may be the primary image, has a position and an optional caption.
 * Every action hands a new list to the form: remove one entry, make one entry
 * the only primary one, change one caption, or move one entry a place up or
 * down, after which positions are renumbered from 0.
 */
module MediaSection {
  import opened Seqs
  import opened Text

  datatype MediaItem = MediaItem(assetId: string, isPrimary: bool, position: int, caption: Option<string>)

  /** `mediaItems.map((m, i) => ({ ...m, isPrimary: i === index }))` */
  function SetPrimaryMedia(items: seq<MediaItem>, index: int): (r: seq<MediaItem>)
    ensures |r| == |items|
    ensures forall i :: 0 <= i < |items| ==> r[i] == items[i].(isPrimary := i == index)
  {
    seq(|items|, i requires 0 <= i < |items| => items[i].(isPrimary := i == index))
  }

  /** How many entries are marked primary. */
  function CountPrimary(items: seq<MediaItem>): nat
  {
    if items == [] then 0 else (if items[0].isPrimary then 1 else 0) + CountPrimary(items[1..])
  }

  /** When exactly the entry at `index` is primary, there is one primary entry, or none for an index out of range. */
  lemma {:induction false} CountOnlyPrimary(items: seq<MediaItem>, index: int)
    requires forall i :: 0 <= i < |items| ==> (items[i].isPrimary <==> i == index)
    ensures CountPrimary(items) == if 0 <= index < |items| then 1 else 0
    decreases |items|
  {
    if items != [] {
      assert forall i :: 0 <= i < |items| - 1 ==> items[1..][i] == items[i + 1];
      CountOnlyPrimary(items[1..], index - 1);
    }
  }

  /** After "set primary" the chosen entry is the one primary entry; nothing else about the entries changes. */
  lemma SetPrimaryLeavesOne(items: seq<MediaItem>, index: int)
    requires 0 <= index < |items|
    ensures CountPrimary(SetPrimaryMedia(items, index)) == 1
    ensures SetPrimaryMedia(items, index)[index].isPrimary
    ensures forall i :: 0 <= i < |items| ==>
      SetPrimaryMedia(items, index)[i].(isPrimary := items[i].isPrimary) == items[i]
  {
    CountOnlyPrimary(SetPrimaryMedia(items, index), index);
  }

  /** `updated[index] = { ...updated[index], caption }` on a copy of the list. */
  method UpdateCaption(items: seq<MediaItem>, index: int, caption: string) returns (r: seq<MediaItem>)
    requires 0 <= index < |items|
    ensures |r| == |items|
    ensures r[index] == items[index].(caption := Some(caption))
    ensures forall k :: 0 <= k < |items| && k != index ==> r[k] == items[k]
  {
    var a := new MediaItem[|items|](k requires 0 <= k < |items| => items[k]);
    a[index] := a[index].(caption := Some(caption));
    r := a[..];
  }

  /** The entries with positions 0, 1, 2, ... and nothing else changed. */
  predicate IsRenumbering(items: seq<MediaItem>, r: seq<MediaItem>)
  {
    |r| == |items| && forall i :: 0 <= i < |items| ==> r[i] == items[i].(position := i)
  }

  /** `updated.forEach((item, i) => { item.position = i; })` */
  method Renumber(a: array<MediaItem>)
    modifies a
    ensures IsRenumbering(old(a[..]), a[..])
  {
    var i := 0;
    while i < a.Length
      invariant 0 <= i <= a.Length
      invariant forall k :: 0 <= k < i ==> a[k] == old(a[k]).(position := k)
      invariant forall k :: i <= k < a.Length ==> a[k] == old(a[k])
    {
      a[i] := a[i].(position := i);
      i := i + 1;
    }
  }

  /** `moveUp`: nothing at the top; otherwise the entry swaps with the one above and all are renumbered. */
  method MoveUp(items: seq<MediaItem>, index: int) returns (r: seq<MediaItem>)
    requires 0 <= index < |items|
    ensures index == 0 ==> r == items
    ensures index > 0 ==> IsRenumbering(Swap(items, index - 1, index), r)
  {
    if index == 0 {
      return items;
    }
    var a := new MediaItem[|items|](k requires 0 <= k < |items| => items[k]);
    a[index - 1], a[index] := a[index], a[index - 1];
    assert a[..] == Swap(items, index - 1, index);
    Renumber(a);
    r := a[..];
  }

  /** `moveDown`: nothing at the bottom; otherwise the entry swaps with the one below and all are renumbered. */
  method MoveDown(items: seq<MediaItem>, index: int) returns (r: seq<MediaItem>)
    requires 0 <= index < |items|
    ensures index == |items| - 1 ==> r == items
    ensures index < |items| - 1 ==> IsRenumbering(Swap(items, index, index + 1), r)
  {
    if index == |items| - 1 {
      return items;
    }
    var a := new MediaItem[|items|](k requires 0 <= k < |items| => items[k]);
    a[index], a[index + 1] := a[index + 1], a[index];
    assert a[..] == Swap(items, index, index + 1);
    Renumber(a);
    r := a[..];
  }

  /** Moving an entry up and then moving it down again gives back the list, renumbered. */
  lemma MoveUpThenDown(items: seq<MediaItem>, index: int, up: seq<MediaItem>, down: seq<MediaItem>)
    requires 0 < index < |items|
    requires IsRenumbering(Swap(items, index - 1, index), up)
    requires IsRenumbering(Swap(up, index - 1, index), down)
    ensures IsRenumbering(items, down)
  {
    forall i | 0 <= i < |items|
      ensures down[i] == items[i].(position := i)
    {
      if i == index - 1 {
        assert down[i] == up[index].(position := i);
      } else if i == index {
        assert down[i] == up[index - 1].(position := i);
      } else {
        assert down[i] == up[i].(position := i);
      }
    }
  }
}
