/** The drop zone of the desktop app: a file chosen in the dialog is stored as it is,
    a dropped file only when it passes the `accept` list of the input. */
module Uploader {

  import opened Wrappers

  // JavaScript string operations.

  /** `String.prototype.split(sep)` for a one-character separator: the pieces between
      the separators, one more than there are separators. */
  function Split(s: string, sep: char): (r: seq<string>)
    ensures |r| >= 1
    ensures forall i :: 0 <= i < |r| ==> sep !in r[i]
    decreases |s|
  {
    if s == [] then [[]]
    else
      var rest := Split(s[1..], sep);
      if s[0] == sep then [[]] + rest
      else [[s[0]] + rest[0]] + rest[1..]
  }

  /** The pieces joined back with the separator. */
  function Join(pieces: seq<string>, sep: char): string
    requires |pieces| >= 1
    decreases |pieces|
  {
    if |pieces| == 1 then pieces[0] else pieces[0] + [sep] + Join(pieces[1..], sep)
  }

  /** Splitting loses nothing: joining the pieces gives the text back. */
  lemma {:induction false} SplitJoin(s: string, sep: char)
    ensures Join(Split(s, sep), sep) == s
    decreases |s|
  {
    if s != [] {
      var rest := Split(s[1..], sep);
      SplitJoin(s[1..], sep);
      if s[0] == sep {
        assert Split(s, sep)[1..] == rest;
      } else if |rest| == 1 {
        assert Split(s, sep) == [[s[0]] + rest[0]];
      } else {
        var pieces := Split(s, sep);
        assert pieces[1..] == rest[1..];
        assert Join(rest, sep) == rest[0] + [sep] + Join(rest[1..], sep);
        assert s == [s[0]] + s[1..];
      }
    }
  }

  /** The white space and line terminators `String.prototype.trim` removes. */
  predicate IsJsSpace(c: char) {
    || c == ' ' || c == '\t' || c == '\n' || c == '\r' || c == '\U{000B}' || c == '\U{000C}'
    || c == '\U{00A0}' || c == '\U{1680}' || ('\U{2000}' <= c <= '\U{200A}')
    || c == '\U{2028}' || c == '\U{2029}' || c == '\U{202F}' || c == '\U{205F}'
    || c == '\U{3000}' || c == '\U{FEFF}'
  }

  function TrimStart(s: string): (r: string)
    ensures |r| <= |s| && r == s[|s| - |r|..]
    ensures r == [] || !IsJsSpace(r[0])
    ensures forall i :: 0 <= i < |s| - |r| ==> IsJsSpace(s[i])
    decreases |s|
  {
    if s != [] && IsJsSpace(s[0]) then TrimStart(s[1..]) else s
  }

  function TrimEnd(s: string): (r: string)
    ensures |r| <= |s| && r == s[..|r|]
    ensures r == [] || !IsJsSpace(r[|r| - 1])
    ensures forall i :: |r| <= i < |s| ==> IsJsSpace(s[i])
    decreases |s|
  {
    if s != [] && IsJsSpace(s[|s| - 1]) then TrimEnd(s[..|s| - 1]) else s
  }

  /** `String.prototype.trim`. */
  function Trim(s: string): string
  {
    TrimEnd(TrimStart(s))
  }

  function StartsWith(s: string, prefix: string): bool {
    |prefix| <= |s| && s[..|prefix|] == prefix
  }

  function EndsWith(s: string, suffix: string): bool {
    |suffix| <= |s| && s[|s| - |suffix|..] == suffix
  }

  /** Text without the separator is a single piece. */
  lemma {:induction false} SplitWithoutSeparator(s: string, sep: char)
    requires sep !in s
    ensures Split(s, sep) == [s]
    decreases |s|
  {
    if s != [] {
      SplitWithoutSeparator(s[1..], sep);
      assert [s[0]] + s[1..] == s;
    }
  }

  /** Text with no white space at its ends is its own trim. */
  lemma {:induction false} TrimmedAlready(s: string)
    requires s == [] || (!IsJsSpace(s[0]) && !IsJsSpace(s[|s| - 1]))
    ensures Trim(s) == s
  {
  }

  /** `s.replace("*", "")`: only the first star goes. */
  function RemoveFirstStar(s: string): (r: string)
    ensures '*' !in s ==> r == s
    ensures '*' in s ==> |r| == |s| - 1
    decreases |s|
  {
    if s == [] then []
    else if s[0] == '*' then s[1..]
    else [s[0]] + RemoveFirstStar(s[1..])
  }

  /** The star removed is the first one. */
  lemma {:induction false} RemoveStarAt(s: string, i: nat)
    requires i < |s| && s[i] == '*' && forall k :: 0 <= k < i ==> s[k] != '*'
    ensures RemoveFirstStar(s) == s[..i] + s[i + 1..]
    decreases i
  {
    if i > 0 {
      RemoveStarAt(s[1..], i - 1);
      assert s[1..][..i - 1] == s[1..i];
      assert s[1..][i..] == s[i + 1..];
      assert [s[0]] + s[1..i] == s[..i];
    }
  }

  // The validator.

  /** A file as the browser describes it. */
  datatype FileInfo = FileInfo(name: string, mime: string)

  /** One accept entry, already trimmed: a leading dot names an extension of the file
      name; anything else is a MIME type, matched exactly or, with its first star
      removed, as a prefix. */
  function EntryMatches(entry: string, file: FileInfo): (r: bool)
    ensures entry == [] ==> r
    ensures !StartsWith(entry, ".") && '*' !in entry ==> (r <==> StartsWith(file.mime, entry))
  {
    if StartsWith(entry, ".") then EndsWith(file.name, entry)
    else file.mime == entry || StartsWith(file.mime, RemoveFirstStar(entry))
  }

  /** The callback of `validTypes.some`, on the untrimmed piece. */
  predicate PieceMatches(piece: string, file: FileInfo) {
    EntryMatches(Trim(piece), file)
  }

  /** `validTypes.some(..)`. */
  function SomeEntryMatches(pieces: seq<string>, file: FileInfo): bool
    decreases |pieces|
  {
    if pieces == [] then false
    else PieceMatches(pieces[0], file) || SomeEntryMatches(pieces[1..], file)
  }

  /** Some piece, trimmed, matches the file. */
  predicate AnyPieceMatches(pieces: seq<string>, file: FileInfo) {
    exists i :: 0 <= i < |pieces| && PieceMatches(pieces[i], file)
  }

  /** `some` is the existential over the pieces. */
  lemma {:induction false} SomeIsExists(pieces: seq<string>, file: FileInfo)
    ensures SomeEntryMatches(pieces, file) <==> AnyPieceMatches(pieces, file)
    decreases |pieces|
  {
    if pieces != [] {
      SomeIsExists(pieces[1..], file);
      assert forall i :: 1 <= i < |pieces| ==> pieces[i] == pieces[1..][i - 1];
      if exists i :: 0 <= i < |pieces| && PieceMatches(pieces[i], file) {
        var i :| 0 <= i < |pieces| && PieceMatches(pieces[i], file);
        if i > 0 {
          assert PieceMatches(pieces[1..][i - 1], file);
        }
      }
    }
  }

  /** `validateFileType(file)`; `accept` is the input's attribute, which allows every
      file when it is absent or empty. */
  function ValidateFileType(accept: Option<string>, file: FileInfo): (r: bool)
    ensures accept.None? || accept.value == [] ==> r
  {
    if accept.None? || accept.value == [] then true
    else SomeEntryMatches(Split(accept.value, ','), file)
  }

  /** With a non-empty accept list, a file is valid exactly when one of the trimmed
      comma-separated entries matches it. */
  lemma {:induction false} ValidIffSomeEntry(accept: string, file: FileInfo)
    requires accept != []
    ensures ValidateFileType(Some(accept), file) <==> AnyPieceMatches(Split(accept, ','), file)
  {
    var pieces := Split(accept, ',');
    assert ValidateFileType(Some(accept), file) == SomeEntryMatches(pieces, file);
    SomeIsExists(pieces, file);
  }

  /** A list of one trimmed entry accepts what that entry matches. */
  lemma {:induction false} SingleEntry(entry: string, file: FileInfo)
    requires entry != [] && ',' !in entry && !IsJsSpace(entry[0]) && !IsJsSpace(entry[|entry| - 1])
    ensures ValidateFileType(Some(entry), file) == EntryMatches(entry, file)
  {
    SplitWithoutSeparator(entry, ',');
    TrimmedAlready(entry);
    assert [entry][1..] == [];
    assert SomeEntryMatches([entry], file) == PieceMatches(entry, file);
  }

  /** An empty entry, such as the one after a trailing comma, matches every file. */
  lemma {:induction false} EmptyEntryAcceptsAll(accept: string, file: FileInfo)
    requires |accept| > 0 && accept[|accept| - 1] == ','
    ensures ValidateFileType(Some(accept), file)
  {
    var pieces := Split(accept, ',');
    LastPieceAfterComma(accept);
    assert PieceMatches(pieces[|pieces| - 1], file) by {
      TrimmedAlready(pieces[|pieces| - 1]);
      assert EntryMatches([], file);
    }
    assert AnyPieceMatches(pieces, file);
    SomeIsExists(pieces, file);
  }

  /** The piece after a final separator is empty. */
  lemma {:induction false} LastPieceAfterComma(s: string)
    requires |s| > 0 && s[|s| - 1] == ','
    ensures Split(s, ',')[|Split(s, ',')| - 1] == []
    decreases |s|
  {
    if |s| == 1 {
      assert s[1..] == [];
    } else {
      LastPieceAfterComma(s[1..]);
    }
  }

  // The entry "*/*" loses only its first star and matches no ordinary MIME type, while
  // "image/*" matches every image type. Each is a whole accept list by `SingleEntry`.
  lemma {:induction false} StarPatterns(any: string, image: string, geo: FileInfo, png: FileInfo)
    requires any == "*/*" && image == "image/*"
    requires geo == FileInfo("map.geojson", "application/geo+json") && png == FileInfo("a.png", "image/png")
    ensures !EntryMatches(any, geo)
    ensures EntryMatches(image, png)
  {
    assert RemoveFirstStar(any) == "/*" by {
      RemoveStarAt(any, 0);
    }
    assert geo.mime[0] != '/';
    assert RemoveFirstStar(image) == "image/" by {
      RemoveStarAt(image, 6);
    }
    assert png.mime[..6] == "image/";
  }

  /** Extensions are compared as written: ".geojson" matches "map.geojson" but not
      "map.GEOJSON". */
  lemma {:induction false} ExtensionCaseSensitive(ext: string, lower: FileInfo, upper: FileInfo)
    requires ext == ".geojson" && lower == FileInfo("map.geojson", "") && upper == FileInfo("map.GEOJSON", "")
    ensures EntryMatches(ext, lower)
    ensures !EntryMatches(ext, upper)
  {
    assert lower.name[3..] == ext;
    assert upper.name[4] != ext[1];
  }

  /** The component's two signals. */
  class UploaderState {
    var file: Option<FileInfo>
    var dragging: bool
    /** The messages sent to the logger, when the page provides one. */
    var logged: seq<string>
    const hasLogger: bool
    const accept: Option<string>

    constructor (accept: Option<string>, hasLogger: bool)
      ensures file == None && !dragging && logged == []
      ensures this.accept == accept && this.hasLogger == hasLogger
    {
      file, dragging, logged := None, false, [];
      this.accept, this.hasLogger := accept, hasLogger;
    }

    /** `onChange`: the first chosen file is stored without validation (an absent file
        list counts as empty). */
    method OnChange(files: seq<FileInfo>)
      modifies this`file
      ensures |files| > 0 ==> file == Some(files[0])
      ensures |files| == 0 ==> file == old(file)
    {
      if |files| > 0 {
        file := Some(files[0]);
      }
    }

    /** `onDrop`: dragging ends; the first dropped file is stored when it is valid and
        reported as invalid otherwise. */
    method OnDrop(files: seq<FileInfo>)
      modifies this`file, this`dragging, this`logged
      ensures !dragging
      ensures |files| > 0 && ValidateFileType(accept, files[0]) ==> file == Some(files[0]) && logged == old(logged)
      ensures |files| > 0 && !ValidateFileType(accept, files[0]) ==>
        file == old(file) && logged == old(logged) + (if hasLogger then ["Invalid file type!"] else [])
      ensures |files| == 0 ==> file == old(file) && logged == old(logged)
    {
      dragging := false;
      if |files| > 0 {
        var dropped := files[0];
        if ValidateFileType(accept, dropped) {
          file := Some(files[0]);
        } else if hasLogger {
          logged := logged + ["Invalid file type!"];
        }
      }
    }

    method OnDragOver()
      modifies this`dragging
      ensures dragging
    {
      dragging := true;
    }

    method HandleDragLeave()
      modifies this`dragging
      ensures !dragging
    {
      dragging := false;
    }
  }

  /** A stored dropped file always passes the validator; a chosen one need not. */
  method DropStoresOnlyValid(state: UploaderState, files: seq<FileInfo>)
    modifies state`file, state`dragging, state`logged
    ensures state.file != old(state.file) ==> state.file.Some? && ValidateFileType(state.accept, state.file.value)
  {
    state.OnDrop(files);
  }
}
