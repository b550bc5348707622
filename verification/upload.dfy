/**
 * The administrator's file upload: the request must come from an
 * administrator and carry a file of at most 50 MB whose type is one of the
 * allowed media types; the stored object's key is the folder followed by a
 * cleaned-up file name. The session, the storage service, the database and
 * the clock are inputs; the file-name-to-type lookup is a parameter.
 */
module Upload {
  import opened Text

  /** `50 * 1024 * 1024` bytes. */
  const MaxFileSize: nat := 52428800

  const AllowedTypes: seq<string> := [
    "image/jpeg", "image/png", "image/webp", "image/gif", "image/svg+xml",
    "video/mp4", "video/webm",
    "application/pdf"]

  /** The multipart file: its name, its size in bytes and the type the browser sent. */
  datatype UploadedFile = UploadedFile(name: string, size: nat, fileType: string)

  /** The form fields `file`, `folder`, `altText` and `tags` (absent when not sent). */
  datatype UploadForm = UploadForm(file: Option<UploadedFile>, folder: Option<string>, altText: Option<string>, tags: Option<string>)

  /** The media record that is saved and returned. */
  datatype Asset = Asset(
    filename: string, s3Path: string, mimeType: string, fileSize: nat,
    altText: Option<string>, tags: seq<string>, folder: string)

  /** 401, the three 400 answers, or the stored asset. */
  datatype Response = Unauthorized | NoFile | TooLarge | TypeNotAllowed | Stored(asset: Asset)

  /** `x as string || ''` */
  function OrEmpty(x: Option<string>): (s: string)
    ensures x.Some? ==> s == x.value
    ensures x.None? ==> s == ""
  {
    if x.Some? then x.value else ""
  }

  /** A field that was not sent and a field sent empty are treated alike. */
  lemma AbsentLikeEmpty(x: Option<string>)
    ensures OrEmpty(x) == "" <==> x.None? || x == Some("")
  {
  }

  /** `mime.lookup(file.name) || file.type`: the type known for the name, else the type the browser sent. */
  function MimeType(lookup: string -> Option<string>, file: UploadedFile): (t: string)
    ensures lookup(file.name).Some? && lookup(file.name).value != "" ==> t == lookup(file.name).value
    ensures !(lookup(file.name).Some? && lookup(file.name).value != "") ==> t == file.fileType
  {
    var known := lookup(file.name);
    if known.Some? && known.value != "" then known.value else file.fileType
  }

  /**
   * The type comes from one of the two sources; when the name has a known
   * type the type the browser sent does not matter, and otherwise it is used
   * as it is.
   */
  lemma TypeFromNameFirst(lookup: string -> Option<string>, file: UploadedFile, sentType: string)
    ensures MimeType(lookup, file) == file.fileType || Some(MimeType(lookup, file)) == lookup(file.name)
    ensures lookup(file.name).Some? && lookup(file.name).value != "" ==>
      MimeType(lookup, file.(fileType := sentType)) == MimeType(lookup, file)
    ensures lookup(file.name).None? ==> MimeType(lookup, file.(fileType := sentType)) == sentType
  {
  }

  /** `mime.extension(type)` for the allowed types: the first extension registered for each. */
  function ExtensionFor(mimeType: string): (ext: string)
    requires mimeType in AllowedTypes
    ensures ext != "" && '.' !in ext
  {
    if mimeType == "image/jpeg" then "jpeg"
    else if mimeType == "image/png" then "png"
    else if mimeType == "image/webp" then "webp"
    else if mimeType == "image/gif" then "gif"
    else if mimeType == "image/svg+xml" then "svg"
    else if mimeType == "video/mp4" then "mp4"
    else if mimeType == "video/webm" then "webm"
    else "pdf"
  }

  /** Names given to pasted or dragged content: empty, `blob` or `image.png`. */
  predicate IsPlaceholderName(name: string)
  {
    name == "" || name == "blob" || name == "image.png"
  }

  /** The class `[^a-zA-Z0-9-]` replaced by `_`, for one code unit. */
  function SanitiseChar(c: char): (d: char)
    ensures IsAlnum(d) || d == '-' || d == '_'
    ensures d == c <==> IsAlnum(c) || c == '-' || c == '_'
  {
    if IsAlnum(c) || c == '-' then c else '_'
  }

  /** What the replacement makes of one character: `__` for a surrogate pair, since each of its two code units is replaced. */
  function SanitiseUnits(c: char): (r: string)
    ensures |r| == if IsAstral(c) then 2 else 1
    ensures forall k :: 0 <= k < |r| ==> r[k] == SanitiseChar(c)
  {
    if IsAstral(c) then "__" else [SanitiseChar(c)]
  }

  /** `s.replace(/[^a-zA-Z0-9-]/g, '_')`: one character of the result per UTF-16 code unit of `s`. */
  function Sanitise(s: string): (r: string)
    ensures |r| == Utf16Length(s)
    ensures forall k :: 0 <= k < |r| ==> IsAlnum(r[k]) || r[k] == '-' || r[k] == '_'
  {
    if s == [] then [] else SanitiseUnits(s[0]) + Sanitise(s[1..])
  }

  /** A character outside the Basic Multilingual Plane becomes two '_'. */
  lemma SanitiseSurrogatePair()
    ensures Sanitise("\U{1F600}") == "__"
  {
  }

  /** Sanitising a concatenation sanitises its parts. */
  lemma {:induction false} SanitiseAppend(a: string, b: string)
    ensures Sanitise(a + b) == Sanitise(a) + Sanitise(b)
  {
    if a != [] {
      SanitiseAppend(a[1..], b);
      assert (a + b)[1..] == a[1..] + b;
    } else {
      assert a + b == b;
    }
  }

  /** Text without surrogate pairs keeps its length, and each character is sanitised in place. */
  lemma {:induction false} SanitisePlain(s: string)
    requires forall k :: 0 <= k < |s| ==> !IsAstral(s[k])
    ensures |Sanitise(s)| == |s|
    ensures forall k :: 0 <= k < |s| ==> Sanitise(s)[k] == SanitiseChar(s[k])
  {
    if s != [] {
      assert forall k :: 1 <= k < |s| ==> s[k] == s[1..][k - 1];
      SanitisePlain(s[1..]);
    }
  }

  /** The result has no surrogate pairs: its JavaScript length is its character count. */
  lemma SanitisedIsPlain(s: string)
    ensures Utf16Length(Sanitise(s)) == |Sanitise(s)| == Utf16Length(s)
  {
    var r := Sanitise(s);
    assert forall k :: 0 <= k < |r| ==> !IsAstral(r[k]);
    Utf16LengthCountsChars(r);
  }

  /**
   * The naming branch as written: split on '.', pop the last piece as the
   * extension, sanitise the rest joined back with '.', then put them together
   * with a '.' between.
   */
  function NameAsWritten(name: string): string
  {
    var parts := Split(name, '.');
    var extension := parts[|parts| - 1];
    var baseName := Sanitise(Join(parts[..|parts| - 1], '.'));
    baseName + "." + extension
  }

  /** A name with a '.': the part before the last '.' is sanitised, the '.' and the extension are kept. */
  lemma {:induction false} DottedNameAsWritten(name: string)
    requires '.' in name
    ensures var ext := LastPart(name, '.');
      |ext| < |name| &&
      NameAsWritten(name) == Sanitise(name[..|name| - |ext| - 1]) + "." + ext
  {
    var parts := Split(name, '.');
    SplitSeveral(name, '.');
    var init := parts[..|parts| - 1];
    var ext := parts[|parts| - 1];
    assert parts == init + [ext];
    JoinSplit(name, '.');
    JoinSnoc(init, ext, '.');
    assert name == Join(init, '.') + "." + ext;
    assert Join(init, '.') == name[..|name| - |ext| - 1];
  }

  /** As written, a name without a '.' comes out as '.' followed by the whole name, unsanitised. */
  lemma {:induction false} UndottedNameAsWritten(name: string)
    requires '.' !in name
    ensures NameAsWritten(name) == "." + name
    ensures |NameAsWritten(name)| == |name| + 1
  {
    SplitNoSep(name, '.');
  }

  /** For instance `my file` becomes `.my file`: one character longer, its space kept. */
  lemma UndottedNameCounterexample()
    ensures NameAsWritten("my file") == ".my file"
  {
    var name := "my file";
    assert '.' !in name by {
      assert forall k :: 0 <= k < |name| ==> name[k] != '.';
    }
    UndottedNameAsWritten(name);
    assert "." + name == ".my file";
  }

  /** The length of the part that is sanitised: up to the last '.', or the whole name without one. */
  function BaseLength(name: string): (b: nat)
    ensures b <= |name|
    ensures '.' !in name ==> b == |name|
    ensures '.' in name ==> b < |name| && name[b] == '.' && '.' !in name[b + 1..]
  {
    if '.' in name then
      LastPartShape(name, '.');
      |name| - |LastPart(name, '.')| - 1
    else |name|
  }

  /** The evidently intended naming: a name without a '.' is sanitised as a whole instead of gaining a leading '.'. */
  function SanitisedName(name: string): string
  {
    if '.' in name then NameAsWritten(name) else Sanitise(name)
  }

  /**
   * The intended property: the part before the last '.' (all of the name
   * without one) is sanitised, that '.' and the extension are kept, and the
   * name keeps its JavaScript length; without surrogate pairs each character
   * is sanitised in place.
   */
  lemma SanitisedNameShape(name: string)
    ensures SanitisedName(name) == Sanitise(name[..BaseLength(name)]) + name[BaseLength(name)..]
    ensures Utf16Length(SanitisedName(name)) == Utf16Length(name)
    ensures (forall k :: 0 <= k < |name| ==> !IsAstral(name[k])) ==>
      |SanitisedName(name)| == |name| &&
      forall k :: 0 <= k < |name| ==>
        SanitisedName(name)[k] == if k < BaseLength(name) then SanitiseChar(name[k]) else name[k]
  {
    var b := BaseLength(name);
    SanitisedNameSplits(name);
    SanitisedPrefixShape(name, b);
  }

  lemma SanitisedNameSplits(name: string)
    ensures SanitisedName(name) == Sanitise(name[..BaseLength(name)]) + name[BaseLength(name)..]
  {
    var b := BaseLength(name);
    if '.' in name {
      DottedNameAsWritten(name);
      LastPartShape(name, '.');
      var ext := LastPart(name, '.');
      assert name == name[..b] + "." + ext;
      assert name[b..] == "." + ext;
    } else {
      assert name[b..] == [];
      assert name[..b] == name;
    }
  }

  /** Sanitising the first `b` characters and keeping the rest keeps the JavaScript length, and without surrogate pairs works in place. */
  lemma SanitisedPrefixShape(name: string, b: nat)
    requires b <= |name|
    ensures Utf16Length(Sanitise(name[..b]) + name[b..]) == Utf16Length(name)
    ensures (forall k :: 0 <= k < |name| ==> !IsAstral(name[k])) ==>
      |Sanitise(name[..b]) + name[b..]| == |name| &&
      forall k :: 0 <= k < |name| ==>
        (Sanitise(name[..b]) + name[b..])[k] == if k < b then SanitiseChar(name[k]) else name[k]
  {
    assert name == name[..b] + name[b..];
    Utf16LengthAppend(name[..b], name[b..]);
    Utf16LengthAppend(Sanitise(name[..b]), name[b..]);
    SanitisedIsPlain(name[..b]);
    if forall k :: 0 <= k < |name| ==> !IsAstral(name[k]) {
      SanitisePlain(name[..b]);
    }
  }

  /** The stored file name: a generated one for placeholder names, else the sanitised name. */
  function FinalName(name: string, mimeType: string, now: nat): (finalName: string)
    requires mimeType in AllowedTypes
    ensures IsPlaceholderName(name) ==> finalName == "file-" + NatToString(now) + "." + ExtensionFor(mimeType)
    ensures !IsPlaceholderName(name) ==> finalName == SanitisedName(name)
  {
    if IsPlaceholderName(name) then "file-" + NatToString(now) + "." + ExtensionFor(mimeType)
    else SanitisedName(name)
  }

  /**
   * A generated name ends in '.' and the extension of the type, after the last
   * '.'; any other name keeps its length, with the characters before its last
   * '.' (all of them without one) sanitised.
   */
  lemma FinalNameShape(name: string, mimeType: string, now: nat)
    requires mimeType in AllowedTypes
    ensures IsPlaceholderName(name) ==> LastPart(FinalName(name, mimeType, now), '.') == ExtensionFor(mimeType)
    ensures !IsPlaceholderName(name) ==>
      FinalName(name, mimeType, now) == Sanitise(name[..BaseLength(name)]) + name[BaseLength(name)..]
    ensures !IsPlaceholderName(name) ==> Utf16Length(FinalName(name, mimeType, now)) == Utf16Length(name)
    ensures !IsPlaceholderName(name) && (forall k :: 0 <= k < |name| ==> !IsAstral(name[k])) ==>
      |FinalName(name, mimeType, now)| == |name| &&
      forall k :: 0 <= k < |name| ==>
        FinalName(name, mimeType, now)[k] == if k < BaseLength(name) then SanitiseChar(name[k]) else name[k]
  {
    if IsPlaceholderName(name) {
      var head := "file-" + NatToString(now);
      var ext := ExtensionFor(mimeType);
      assert '.' !in head by {
        assert forall i :: 5 <= i < |head| ==> head[i] == NatToString(now)[i - 5];
      }
      SplitAfter(head, ext, '.');
      SplitNoSep(ext, '.');
      assert FinalName(name, mimeType, now) == head + ['.'] + ext;
    } else {
      SanitisedNameShape(name);
    }
  }

  /** `folder ? folder + '/' + finalName : finalName` */
  function S3Key(folder: string, finalName: string): (key: string)
    ensures folder == "" ==> key == finalName
    ensures folder != "" ==>
      (|key| == |folder| + 1 + |finalName| &&
       key[..|folder|] == folder && key[|folder|] == '/' && key[|folder| + 1..] == finalName)
  {
    if folder == "" then finalName else folder + "/" + finalName
  }

  /** `tags ? tags.split(',').map(t => t.trim()) : []`: empty entries are kept. */
  function TagList(tags: string): (r: seq<string>)
    ensures tags == "" ==> r == []
    ensures tags != "" ==> |r| == |Split(tags, ',')|
    ensures tags != "" ==> forall k :: 0 <= k < |r| ==> r[k] == Trim(Split(tags, ',')[k])
    ensures forall k :: 0 <= k < |r| ==> Trim(r[k]) == r[k] && ',' !in r[k]
  {
    if tags == "" then []
    else
      var parts := Split(tags, ',');
      var r := TrimAll(parts);
      forall k | 0 <= k < |r| ensures Trim(r[k]) == r[k] && ',' !in r[k] {
        TrimIdempotent(parts[k]);
        TrimKeepsOut(parts[k], ',');
      }
      r
  }

  /** Trimming adds no character. */
  lemma TrimKeepsOut(s: string, c: char)
    requires c !in s
    ensures c !in Trim(s)
  {
  }

  /** POST: the checks in order (session, file present, size, type), then the asset record. */
  function HandleUpload(isAdmin: bool, form: UploadForm, lookup: string -> Option<string>, now: nat): (r: Response)
    ensures !isAdmin <==> r == Unauthorized
    ensures isAdmin ==> (r == NoFile <==> form.file.None?)
    ensures isAdmin && form.file.Some? ==> (r == TooLarge <==> form.file.value.size > MaxFileSize)
    ensures isAdmin && form.file.Some? && form.file.value.size <= MaxFileSize ==>
      (r == TypeNotAllowed <==> MimeType(lookup, form.file.value) !in AllowedTypes)
    ensures r.Stored? ==>
      form.file.Some? && r.asset.filename == form.file.value.name &&
      r.asset.fileSize == form.file.value.size <= MaxFileSize &&
      r.asset.mimeType == MimeType(lookup, form.file.value) && r.asset.mimeType in AllowedTypes &&
      r.asset.folder == OrEmpty(form.folder) &&
      r.asset.s3Path == S3Key(OrEmpty(form.folder), FinalName(form.file.value.name, r.asset.mimeType, now)) &&
      (r.asset.altText.Some? <==> OrEmpty(form.altText) != "") &&
      (r.asset.altText.Some? ==> r.asset.altText.value == OrEmpty(form.altText)) &&
      r.asset.tags == TagList(OrEmpty(form.tags))
  {
    if !isAdmin then Unauthorized
    else if form.file.None? then NoFile
    else
      var file := form.file.value;
      if file.size > MaxFileSize then TooLarge
      else
        var mimeType := MimeType(lookup, file);
        if mimeType !in AllowedTypes then TypeNotAllowed
        else
          var folder := OrEmpty(form.folder);
          var altText := OrEmpty(form.altText);
          var key := S3Key(folder, FinalName(file.name, mimeType, now));
          Stored(Asset(file.name, key, mimeType, file.size,
            if altText == "" then None else Some(altText), TagList(OrEmpty(form.tags)), folder))
  }
}
