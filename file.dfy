/**
 * File attachments (file.go): streaming a response body into a file that a
 * caller-supplied creator provides, re-opening it to read a 261-byte header,
 * and renaming it after the detected file type. The filesystem is a map
 * from path to bytes; the signature matcher (filetype.Match) and the
 * creator policy are inputs.
 */
module Files {
  import opened Wrappers
  import opened Http
  import opened MediaTypes

  /** An afero.Fs: the files it holds, by path. */
  class FileSystem {
    var files: map<string, seq<Byte>>

    constructor (files: map<string, seq<Byte>>)
      ensures this.files == files
    {
      this.files := files;
    }
  }

  /** types.Type of the signature database: a MIME type and a file extension. */
  datatype FileType = FileType(mime: string, extension: string)

  /** FileAttachment; a nil DestFS is None, an unset FileType is None. */
  datatype FileAttachment = FileAttachment(
    contentType: Option<PageType>,
    targetURL: Option<Url>,
    destFS: Option<FileSystem>,
    destPath: string,
    fileType: Option<FileType>,
    valid: bool)
  {
    function URL(): Option<Url> { targetURL }

    function IsValid(): bool { valid }

    function Type(): Option<PageType> { contentType }

    /** Delete: removes DestPath from DestFS (a missing file is ignored, as is
        Remove's error) and nothing else. */
    method Delete()
      requires destFS.Some?
      modifies destFS.value
      ensures destFS.value.files == Deleted(old(destFS.value.files), destPath)
    {
      destFS.value.files := destFS.value.files - {destPath};
    }
  }

  /** The files left after removing `path`. */
  function Deleted(files: map<string, seq<Byte>>, path: string): (r: map<string, seq<Byte>>)
    ensures path !in r
    ensures forall p :: p != path ==> (p in r <==> p in files) && (p in r ==> r[p] == files[p])
  {
    files - {path}
  }

  /** Moving the file at `from` to `to`; nothing happens when `from` is absent. */
  function Renamed(files: map<string, seq<Byte>>, from: string, to: string): (r: map<string, seq<Byte>>)
    ensures from in files ==> to in r && r[to] == files[from]
    ensures from in files && from != to ==> from !in r
    ensures forall p :: p != from && p != to ==> (p in r <==> p in files) && (p in r ==> r[p] == files[p])
  {
    if from in files then (files - {from})[to := files[from]] else files
  }

  /** path.Ext: the suffix of the last path element that starts at its last
      dot, or "" when that element has no dot. */
  function PathExt(p: string): (e: string)
    ensures |e| <= |p| && e == p[|p| - |e|..]
    ensures e != [] ==> e[0] == '.' && forall i :: 1 <= i < |e| ==> e[i] != '.' && e[i] != '/'
    ensures e == [] ==> forall i :: 0 <= i < |p| && '/' !in p[i..] ==> p[i] != '.'
  {
    if p == [] || p[|p| - 1] == '/' then []
    else if p[|p| - 1] == '.' then "."
    else
      var init := p[..|p| - 1];
      var e := PathExt(init);
      if e == [] then
        assert forall i :: 0 <= i < |init| && '/' !in p[i..] ==> '/' !in init[i..] by {
          forall i | 0 <= i < |init| && '/' !in p[i..] ensures '/' !in init[i..] {
            assert init[i..] == p[i..|p| - 1];
          }
        }
        []
      else
        assert e + [p[|p| - 1]] == p[|p| - |e| - 1..];
        e + [p[|p| - 1]]
  }

  /** The path without its extension. */
  function Stem(p: string): (s: string)
    ensures s + PathExt(p) == p
  {
    var e := PathExt(p);
    assert p[..|p| - |e|] + p[|p| - |e|..] == p;
    p[..|p| - |e|]
  }

  /** The renamed path of file.go: the old extension is replaced by "." and the detected one. */
  function NewPath(current: string, extension: string): string {
    Stem(current) + "." + extension
  }

  /** After a dot, an extension free of dots and slashes is what path.Ext reports. */
  lemma {:induction false} PathExtAfterDot(stem: string, extension: string)
    requires '.' !in extension && '/' !in extension
    ensures PathExt(stem + "." + extension) == "." + extension
  {
    if extension != [] {
      var init := extension[..|extension| - 1];
      PathExtAfterDot(stem, init);
      assert (stem + "." + extension)[..|stem + "." + extension| - 1] == stem + "." + init;
      assert "." + init + [extension[|extension| - 1]] == "." + extension;
    }
  }

  /** The renamed path keeps the stem and ends in "." plus the detected extension. */
  lemma NewPathExtension(current: string, extension: string)
    requires '.' !in extension && '/' !in extension
    ensures PathExt(NewPath(current, extension)) == "." + extension
    ensures Stem(NewPath(current, extension)) == Stem(current)
  {
    PathExtAfterDot(Stem(current), extension);
    var n := NewPath(current, extension);
    assert Stem(n) + PathExt(n) == n;
  }

  /** The bytes filetype.Match gets to see. */
  const SniffLength: nat := 261

  /** The header buffer after one read: the first bytes of the file, zero
      padded when the file is shorter than the buffer. */
  function SniffWindow(content: seq<Byte>): (head: seq<Byte>)
    ensures |head| == SniffLength
    ensures forall i :: 0 <= i < SniffLength ==> head[i] == if i < |content| then content[i] else 0
  {
    if |content| >= SniffLength then content[..SniffLength]
    else content + seq(SniffLength - |content|, _ => 0)
  }

  /** What io.Copy writes: the whole body, or what was read before the stream broke. */
  function Copied(body: Body): (written: seq<Byte>)
    ensures |written| <= |body.bytes| && written == body.bytes[..|written|]
    ensures body.readFailure.None? ==> written == body.bytes
  {
    match body.readFailure
    case None => body.bytes
    case Some(f) => if f.afterBytes < |body.bytes| then body.bytes[..f.afterBytes] else body.bytes
  }

  /** CreateFile's answer: the filesystem and the name of the created file, or a failure. */
  datatype CreateAnswer = Created(fs: FileSystem, name: string) | CreateFailed(reason: string)

  /** A FileAttachmentCreator, known by its answers for this URL and type. */
  datatype Creator = Creator(create: CreateAnswer, autoAssignExtension: bool)

  /** The triple (bool, Attachment, error) of DownloadFileFromHTTPResp. */
  datatype DownloadResult = DownloadResult(ok: bool, attachment: Option<FileAttachment>, err: Option<string>)

  /** The filesystem a creator writes to, if any. */
  function Touched(creator: Option<Creator>): set<FileSystem> {
    if creator.Some? && creator.value.create.Created? then {creator.value.create.fs} else {}
  }

  function FilesOf(creator: Option<Creator>): map<string, seq<Byte>>
    reads Touched(creator)
  {
    if creator.Some? && creator.value.create.Created? then creator.value.create.fs.files else map[]
  }

  /** The download protocol as a function of its inputs and the files before the call:
      the result triple and the files afterwards. */
  function DownloadSpec(
    creator: Option<Creator>, url: Option<Url>, resp: Option<Response>, typ: Option<PageType>,
    files: map<string, seq<Byte>>, reopenError: Option<string>, matcher: seq<Byte> -> Option<FileType>)
    : (DownloadResult, map<string, seq<Byte>>)
  {
    if url.None? then (DownloadResult(false, None, Some("url is nil in resource.DownloadFile")), files)
    else if resp.None? then (DownloadResult(false, None, Some("http.Response is nil in resource.DownloadFile")), files)
    else
      var base := FileAttachment(typ, url, None, "", None, false);
      if creator.None? then
        (DownloadResult(false, Some(base), Some("FileAttachmentCreator is nil in resource.DownloadFile")), files)
      else
        match creator.value.create
        case CreateFailed(reason) =>
          (DownloadResult(false, Some(base), Some("Unable to create file in resource.DownloadFile: " + reason)), files)
        case Created(fs, name) =>
          CopySpec(base.(destFS := Some(fs), destPath := name), resp.value.body,
                   creator.value.autoAssignExtension, files, reopenError, matcher)
  }

  /** The steps once the file exists: copy the body into it, then sniff the type. */
  function CopySpec(
    att: FileAttachment, body: Body, autoAssignExtension: bool, files: map<string, seq<Byte>>,
    reopenError: Option<string>, matcher: seq<Byte> -> Option<FileType>)
    : (DownloadResult, map<string, seq<Byte>>)
  {
    var files1 := files[att.destPath := Copied(body)];
    if body.readFailure.Some? then
      (DownloadResult(false, Some(att),
                      Some("Copy error during file download in resource.DownloadFile: " + body.readFailure.value.reason)),
       files1)
    else SniffSpec(att, autoAssignExtension, files1, reopenError, matcher)
  }

  /** The steps after a complete copy: re-open, read the header, match, rename. */
  function SniffSpec(
    att: FileAttachment, autoAssignExtension: bool, files: map<string, seq<Byte>>,
    reopenError: Option<string>, matcher: seq<Byte> -> Option<FileType>)
    : (DownloadResult, map<string, seq<Byte>>)
    requires att.destPath in files
  {
    if !autoAssignExtension then
      (DownloadResult(true, Some(att.(valid := true)), None), files)
    else if reopenError.Some? then
      (DownloadResult(false, Some(att), Some("Unable to inspect file type in resource.DownloadFile: " + reopenError.value)),
       files)
    else
      match matcher(SniffWindow(files[att.destPath]))
      case None => (DownloadResult(true, Some(att.(valid := true)), None), files)
      case Some(ft) =>
        var newPath := NewPath(att.destPath, ft.extension);
        (DownloadResult(true, Some(att.(fileType := Some(ft), destPath := newPath, valid := true)), None),
         Renamed(files, att.destPath, newPath))
  }

  /** DownloadFileFromHTTPResp. `reopenError` is the outcome of re-opening the
      written file (fs.Open), which the map model of a filesystem cannot produce. */
  method DownloadFileFromHTTPResp(
    creator: Option<Creator>, url: Option<Url>, resp: Option<Response>, typ: Option<PageType>,
    reopenError: Option<string>, matcher: seq<Byte> -> Option<FileType>)
    returns (ok: bool, attachment: Option<FileAttachment>, err: Option<string>)
    modifies Touched(creator)
    ensures DownloadSpec(creator, url, resp, typ, old(FilesOf(creator)), reopenError, matcher)
         == (DownloadResult(ok, attachment, err), FilesOf(creator))
  {
    if url.None? {
      return false, None, Some("url is nil in resource.DownloadFile");
    }
    if resp.None? {
      return false, None, Some("http.Response is nil in resource.DownloadFile");
    }
    var result := FileAttachment(typ, url, None, "", None, false);
    if creator.None? {
      return false, Some(result), Some("FileAttachmentCreator is nil in resource.DownloadFile");
    }
    if creator.value.create.CreateFailed? {
      return false, Some(result), Some("Unable to create file in resource.DownloadFile: " + creator.value.create.reason);
    }
    var fs := creator.value.create.fs;
    result := result.(destFS := Some(fs), destPath := creator.value.create.name);
    ok, attachment, err := CopyBody(result, resp.value.body, creator.value.autoAssignExtension, fs, reopenError, matcher);
  }

  /** The middle of DownloadFileFromHTTPResp: io.Copy of the body into the created file. */
  method CopyBody(
    att: FileAttachment, body: Body, autoAssignExtension: bool, fs: FileSystem,
    reopenError: Option<string>, matcher: seq<Byte> -> Option<FileType>)
    returns (ok: bool, attachment: Option<FileAttachment>, err: Option<string>)
    modifies fs
    ensures CopySpec(att, body, autoAssignExtension, old(fs.files), reopenError, matcher)
         == (DownloadResult(ok, attachment, err), fs.files)
  {
    fs.files := fs.files[att.destPath := Copied(body)];
    if body.readFailure.Some? {
      return false, Some(att), Some("Copy error during file download in resource.DownloadFile: " + body.readFailure.value.reason);
    }
    ok, attachment, err := Sniff(att, autoAssignExtension, fs, reopenError, matcher);
  }

  /** The tail of DownloadFileFromHTTPResp once the body is in the file. */
  method Sniff(
    att: FileAttachment, autoAssignExtension: bool, fs: FileSystem,
    reopenError: Option<string>, matcher: seq<Byte> -> Option<FileType>)
    returns (ok: bool, attachment: Option<FileAttachment>, err: Option<string>)
    requires att.destPath in fs.files
    modifies fs
    ensures SniffSpec(att, autoAssignExtension, old(fs.files), reopenError, matcher)
         == (DownloadResult(ok, attachment, err), fs.files)
  {
    var result := att;
    if autoAssignExtension {
      if reopenError.Some? {
        return false, Some(result), Some("Unable to inspect file type in resource.DownloadFile: " + reopenError.value);
      }
      var head := ReadHeader(fs.files[result.destPath]);
      var fileType := matcher(head);
      if fileType.Some? {
        result := result.(fileType := fileType);
        var currentPath := result.destPath;
        var newPath := Stem(currentPath) + "." + fileType.value.extension;
        fs.files := Renamed(fs.files, currentPath, newPath);
        result := result.(destPath := newPath);
      }
    }
    result := result.(valid := true);
    return true, Some(result), None;
  }

  /** The header read: a zeroed 261-byte buffer that one Read fills from the start of the file. */
  method ReadHeader(content: seq<Byte>) returns (head: seq<Byte>)
    ensures head == SniffWindow(content)
  {
    var buffer := new Byte[SniffLength](_ => 0);
    var n := if |content| < SniffLength then |content| else SniffLength;
    for i := 0 to n
      invariant forall k :: 0 <= k < i ==> buffer[k] == content[k]
      invariant forall k :: i <= k < SniffLength ==> buffer[k] == 0
    {
      buffer[i] := content[i];
    }
    head := buffer[..];
  }

  /** A nil URL or a nil response fails at once, with no attachment and no file touched. */
  lemma DownloadNilInputs(
    creator: Option<Creator>, url: Option<Url>, resp: Option<Response>, typ: Option<PageType>,
    files: map<string, seq<Byte>>, reopenError: Option<string>, matcher: seq<Byte> -> Option<FileType>)
    requires url.None? || resp.None?
    ensures var (r, after) := DownloadSpec(creator, url, resp, typ, files, reopenError, matcher);
            !r.ok && r.attachment.None? && r.err.Some? && after == files
  {
  }

  /** Without a creator the attachment holds only the URL and the declared type, and is not valid. */
  lemma DownloadNilCreator(
    url: Option<Url>, resp: Option<Response>, typ: Option<PageType>,
    files: map<string, seq<Byte>>, reopenError: Option<string>, matcher: seq<Byte> -> Option<FileType>)
    requires url.Some? && resp.Some?
    ensures var (r, after) := DownloadSpec(None, url, resp, typ, files, reopenError, matcher);
            && !r.ok && r.err.Some? && after == files
            && r.attachment == Some(FileAttachment(typ, url, None, "", None, false))
  {
  }

  predicate OkIffNoError(r: DownloadResult) {
    && (r.ok <==> r.err.None?)
    && (r.ok ==> r.attachment.Some? && r.attachment.value.valid)
    && (!r.ok ==> r.attachment.None? || !r.attachment.value.valid)
  }

  /** The flag and the error exclude each other: success always brings a valid
      attachment, and a failure never does. */
  lemma DownloadOkIffNoError(
    creator: Option<Creator>, url: Option<Url>, resp: Option<Response>, typ: Option<PageType>,
    files: map<string, seq<Byte>>, reopenError: Option<string>, matcher: seq<Byte> -> Option<FileType>)
    ensures OkIffNoError(DownloadSpec(creator, url, resp, typ, files, reopenError, matcher).0)
  {
    if url.None? || resp.None? || creator.None? || creator.value.create.CreateFailed? {
      EarlyExitsFail(creator, url, resp, typ, files, reopenError, matcher);
    } else if resp.value.body.readFailure.Some? {
      DownloadCopyFailureKeepsPartialFile(creator.value, url.value, resp.value, typ, files, reopenError, matcher);
    } else {
      var att := FileAttachment(typ, url, Some(creator.value.create.fs), creator.value.create.name, None, false);
      var files1 := files[creator.value.create.name := Copied(resp.value.body)];
      assert DownloadSpec(creator, url, resp, typ, files, reopenError, matcher).0
          == CopySpec(att, resp.value.body, creator.value.autoAssignExtension, files, reopenError, matcher).0
          == SniffSpec(att, creator.value.autoAssignExtension, files1, reopenError, matcher).0;
      SniffOkIffNoError(att, creator.value.autoAssignExtension, files1, reopenError, matcher);
    }
  }

  /** The exits before the file is created all fail and touch no file. */
  lemma EarlyExitsFail(
    creator: Option<Creator>, url: Option<Url>, resp: Option<Response>, typ: Option<PageType>,
    files: map<string, seq<Byte>>, reopenError: Option<string>, matcher: seq<Byte> -> Option<FileType>)
    requires url.None? || resp.None? || creator.None? || creator.value.create.CreateFailed?
    ensures var (r, after) := DownloadSpec(creator, url, resp, typ, files, reopenError, matcher);
            && !r.ok && r.err.Some? && after == files
            && (r.attachment.Some? ==> !r.attachment.value.valid && r.attachment.value.destFS.None?)
  {
  }

  lemma SniffOkIffNoError(
    att: FileAttachment, autoAssignExtension: bool, files: map<string, seq<Byte>>,
    reopenError: Option<string>, matcher: seq<Byte> -> Option<FileType>)
    requires att.destPath in files && !att.valid
    ensures OkIffNoError(SniffSpec(att, autoAssignExtension, files, reopenError, matcher).0)
  {
  }

  /** A broken body stream leaves the bytes read so far in the created file and an invalid attachment. */
  lemma DownloadCopyFailureKeepsPartialFile(
    creator: Creator, url: Url, resp: Response, typ: Option<PageType>,
    files: map<string, seq<Byte>>, reopenError: Option<string>, matcher: seq<Byte> -> Option<FileType>)
    requires creator.create.Created? && resp.body.readFailure.Some?
    ensures var (r, after) := DownloadSpec(Some(creator), Some(url), Some(resp), typ, files, reopenError, matcher);
            && !r.ok && r.attachment.Some? && !r.attachment.value.valid
            && r.attachment.value.destPath == creator.create.name
            && after == files[creator.create.name := Copied(resp.body)]
            && |after[creator.create.name]| <= |resp.body.bytes|
  {
  }

  /** After a complete copy and a successful match the file is moved to the
      stem plus "." plus the detected extension, keeping its bytes; files
      other than the old and new path are untouched. */
  lemma DownloadRenamesToDetectedType(
    creator: Creator, url: Url, resp: Response, typ: Option<PageType>,
    files: map<string, seq<Byte>>, matcher: seq<Byte> -> Option<FileType>)
    requires creator.create.Created? && creator.autoAssignExtension
    requires resp.body.readFailure.None?
    requires matcher(SniffWindow(resp.body.bytes)).Some?
    requires var ext := matcher(SniffWindow(resp.body.bytes)).value.extension; '.' !in ext && '/' !in ext
    ensures var (r, after) := DownloadSpec(Some(creator), Some(url), Some(resp), typ, files, None, matcher);
            var ft := matcher(SniffWindow(resp.body.bytes)).value;
            var name := creator.create.name;
            && r.ok && r.attachment.Some?
            && r.attachment.value.valid && r.attachment.value.fileType == Some(ft)
            && r.attachment.value.destFS == Some(creator.create.fs)
            && r.attachment.value.destPath == NewPath(name, ft.extension)
            && PathExt(r.attachment.value.destPath) == "." + ft.extension
            && r.attachment.value.destPath in after && after[r.attachment.value.destPath] == resp.body.bytes
            && (forall p :: p != name && p != r.attachment.value.destPath ==>
                  (p in after <==> p in files) && (p in after ==> after[p] == files[p]))
  {
    var ft := matcher(SniffWindow(resp.body.bytes)).value;
    NewPathExtension(creator.create.name, ft.extension);
  }

  /** With auto-extension off, or when the header matches nothing, the file keeps
      the created name, no file type is recorded, and the download still succeeds. */
  lemma DownloadKeepsPathWithoutMatch(
    creator: Creator, url: Url, resp: Response, typ: Option<PageType>,
    files: map<string, seq<Byte>>, matcher: seq<Byte> -> Option<FileType>)
    requires creator.create.Created? && resp.body.readFailure.None?
    requires !creator.autoAssignExtension || matcher(SniffWindow(resp.body.bytes)).None?
    ensures var (r, after) := DownloadSpec(Some(creator), Some(url), Some(resp), typ, files, None, matcher);
            && r == DownloadResult(true, Some(FileAttachment(typ, Some(url), Some(creator.create.fs), creator.create.name, None, true)), None)
            && after == files[creator.create.name := resp.body.bytes]
  {
  }

  /** The attachment scenario of the test suite: a PDF body, auto-extension on and
      a matcher that recognises it leave a non-empty file whose path ends in
      ".pdf"; Delete then removes exactly that path. */
  lemma DownloadPdfThenDelete(
    creator: Creator, url: Url, resp: Response, typ: Option<PageType>,
    files: map<string, seq<Byte>>, matcher: seq<Byte> -> Option<FileType>)
    requires creator.create.Created? && creator.autoAssignExtension
    requires resp.body.readFailure.None? && |resp.body.bytes| > 0
    requires matcher(SniffWindow(resp.body.bytes)) == Some(FileType("application/pdf", "pdf"))
    ensures var (r, after) := DownloadSpec(Some(creator), Some(url), Some(resp), typ, files, None, matcher);
            && r.ok && r.attachment.Some? && r.attachment.value.valid
            && PathExt(r.attachment.value.destPath) == ".pdf"
            && r.attachment.value.destPath in after && |after[r.attachment.value.destPath]| > 0
            && r.attachment.value.destPath !in Deleted(after, r.attachment.value.destPath)
  {
    DownloadRenamesToDetectedType(creator, url, resp, typ, files, matcher);
  }
}
