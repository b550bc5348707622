/**
 * The breadcrumbs of the file manager: a Root entry that opens the top
 * folder, then one entry per non-empty segment of the current folder path.
 * Each entry opens the folder made of the segments up to it; the last entry
 * is the current folder and is not clickable.
 */
module FolderBreadcrumbs {
  import opened Text

  /** One entry: the segment shown, the folder it opens, and whether it is a button. */
  datatype FolderCrumb = FolderCrumb(part: string, path: string, clickable: bool)

  /** The Root entry opens the top folder, the empty path. */
  const RootTarget: string := ""

  /** `currentFolder ? currentFolder.split('/').filter(Boolean) : []` */
  function PathParts(folder: string): (parts: seq<string>)
    ensures folder == "" ==> parts == []
    ensures forall k :: 0 <= k < |parts| ==> parts[k] != [] && '/' !in parts[k]
  {
    if folder == "" then []
    else
      var pieces := Split(folder, '/');
      var parts := NonEmpty(pieces);
      assert forall k :: 0 <= k < |parts| ==> parts[k] in pieces;
      parts
  }

  /** A folder without '/' is one segment, unless it is empty. */
  lemma PathPartsOfSegment(segment: string)
    requires '/' !in segment
    ensures PathParts(segment) == if segment == "" then [] else [segment]
  {
    if segment != "" {
      SplitNoSep(segment, '/');
      NonEmptyOfFull([segment]);
    }
  }

  /** The segments of `a/b` are those of `a` followed by those of `b`: the empty ones are dropped, the order is kept. */
  lemma PathPartsOfJoin(a: string, b: string)
    ensures PathParts(a + "/" + b) == PathParts(a) + PathParts(b)
  {
    SplitConcat(a, b, '/');
    NonEmptyAppend(Split(a, '/'), Split(b, '/'));
    assert Split("", '/') == [[]];
  }

  /** The entry of segment `i`: it opens `pathParts.slice(0, i + 1).join('/')` and is a button unless last. */
  function CrumbAt(parts: seq<string>, i: nat): FolderCrumb
    requires i < |parts|
  {
    FolderCrumb(parts[i], Join(parts[..i + 1], '/'), i != |parts| - 1)
  }

  /** The entries after Root, one per segment in order. */
  function Crumbs(folder: string): (crumbs: seq<FolderCrumb>)
    ensures |crumbs| == |PathParts(folder)|
    ensures forall i :: 0 <= i < |crumbs| ==> crumbs[i].part == PathParts(folder)[i]
    ensures forall i :: 0 <= i < |crumbs| ==> (crumbs[i].clickable <==> i < |crumbs| - 1)
  {
    var parts := PathParts(folder);
    seq(|parts|, i requires 0 <= i < |parts| => CrumbAt(parts, i))
  }

  /** Opening entry `i` leads to a folder whose segments are exactly the first `i + 1` segments. */
  lemma CrumbOpensPrefix(folder: string, i: nat)
    requires i < |Crumbs(folder)|
    ensures PathParts(Crumbs(folder)[i].path) == PathParts(folder)[..i + 1]
  {
    var parts := PathParts(folder);
    var prefix := parts[..i + 1];
    assert Crumbs(folder)[i].path == Join(prefix, '/');
    SplitJoin(prefix, '/');
    NonEmptyOfFull(prefix);
    assert prefix[0] in parts;
    JoinNonEmpty(prefix, '/');
  }

  /** Each entry's folder extends the previous entry's folder by one segment. */
  lemma CrumbExtendsPrevious(folder: string, i: nat)
    requires 0 < i < |Crumbs(folder)|
    ensures Crumbs(folder)[i].path == Crumbs(folder)[i - 1].path + "/" + PathParts(folder)[i]
  {
    var parts := PathParts(folder);
    assert parts[..i + 1] == parts[..i] + [parts[i]];
    JoinSnoc(parts[..i], parts[i], '/');
  }

  /** For a path without leading, trailing or doubled '/', the last entry opens the current folder itself. */
  lemma LastCrumbIsCurrent(folder: string)
    requires folder != ""
    requires forall k :: 0 <= k < |Split(folder, '/')| ==> Split(folder, '/')[k] != []
    ensures |Crumbs(folder)| >= 1
    ensures Crumbs(folder)[|Crumbs(folder)| - 1].path == folder
    ensures !Crumbs(folder)[|Crumbs(folder)| - 1].clickable
  {
    var pieces := Split(folder, '/');
    NonEmptyOfFull(pieces);
    JoinSplit(folder, '/');
    assert pieces[..|pieces|] == pieces;
  }

  /** Joining pieces whose first is non-empty gives non-empty text. */
  lemma JoinNonEmpty(parts: seq<string>, c: char)
    requires |parts| >= 1 && parts[0] != []
    ensures Join(parts, c) != []
  {
  }
}
