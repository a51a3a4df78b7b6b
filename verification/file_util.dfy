/** Naming and recording of an uploaded file before its bytes are written
    (`FileUtil` in both the `file` and the `common` packages). The disk write,
    the directory creation and the random UUID are outside the model: the UUID
    arrives as a parameter and the write's outcome as a flag. */
module FileUtil {
  import opened Common

  /** What `saveFile` reports for one stored file. */
  datatype UploadResult = UploadResult(
    originalFilename: Option<string>,
    storedFilename: string,
    filePath: Option<string>,
    fileSize: Option<int>,
    contentType: Option<string>)

  /** The parts of a `MultipartFile` the upload reads. */
  datatype Upload = Upload(originalFilename: Option<string>, size: nat, contentType: Option<string>)

  /** The fixed upload directory of the `common` package's helper. */
  const CommonUploadDir: string := "C:/workspace/simple_side/doll_gacha/uploads/"

  /** `s.lastIndexOf(c)`, with -1 for "absent". */
  function LastIndexOf(s: string, c: char): (k: int)
    ensures -1 <= k < |s|
    ensures k >= 0 ==> s[k] == c
    ensures forall i :: k < i < |s| ==> s[i] != c
    ensures k == -1 <==> c !in s
  {
    if s == [] then -1
    else if s[|s| - 1] == c then |s| - 1
    else LastIndexOf(s[..|s| - 1], c)
  }

  /** `extractExtension`: the suffix from the last '.', or "" for a null name
      or one without a dot. */
  function ExtractExtension(filename: Option<string>): (ext: string)
    ensures ext == "" <==> filename.None? || '.' !in filename.value
    ensures ext != "" ==> ext[0] == '.' && '.' !in ext[1..]
    ensures ext != "" ==> |ext| <= |filename.value| && filename.value[|filename.value| - |ext|..] == ext
  {
    if filename.None? || '.' !in filename.value then ""
    else filename.value[LastIndexOf(filename.value, '.')..]
  }

  /** `generateUniqueFilename`: the random UUID followed by the extension. */
  function UniqueFilename(uuid: string, ext: string): (name: string)
    ensures |name| == |uuid| + |ext| && name[|uuid|..] == ext && name[..|uuid|] == uuid
  {
    uuid + ext
  }

  /** A stored name keeps the original's extension: extracting the extension
      from the stored name gives back the original's, provided the UUID has no
      dot (a UUID's text is hex digits and hyphens). */
  lemma {:induction false} StoredNameKeepsExtension(uuid: string, filename: Option<string>)
    requires '.' !in uuid
    ensures ExtractExtension(Some(UniqueFilename(uuid, ExtractExtension(filename))))
      == ExtractExtension(filename)
  {
    var ext := ExtractExtension(filename);
    var name := UniqueFilename(uuid, ext);
    if ext == "" {
      assert name == uuid;
    } else {
      assert name[|uuid|] == '.';
      var k := LastIndexOf(name, '.');
      assert k == |uuid|;
      assert name[k..] == ext;
    }
  }

  /** The shared front half of `saveFile`: reject a null or empty upload,
      otherwise name the stored copy and report it under `filePath`. */
  function SaveWith(file: Option<Upload>, uuid: string, written: bool, filePath: string -> string)
    : (r: Result<UploadResult>)
    ensures file.None? || file.value.size == 0 ==> r.Err? && r.error.InvalidArgument?
    ensures r.Ok? <==> file.Some? && file.value.size > 0 && written
    ensures r.Ok? ==>
      (r.value.originalFilename == file.value.originalFilename
       && r.value.storedFilename == uuid + ExtractExtension(file.value.originalFilename)
       && r.value.filePath == Some(filePath(r.value.storedFilename))
       && r.value.fileSize == Some(file.value.size)
       && r.value.contentType == file.value.contentType)
  {
    if file.None? || file.value.size == 0 then Err(InvalidArgument("empty file"))
    else if !written then Err(IoFailure("file write"))
    else
      var stored := UniqueFilename(uuid, ExtractExtension(file.value.originalFilename));
      Ok(UploadResult(file.value.originalFilename, stored, Some(filePath(stored)),
                      Some(file.value.size), file.value.contentType))
  }

  /** `saveFile` of the `common` package: the path is the fixed directory
      string followed by the stored name. */
  function SaveFileCommon(file: Option<Upload>, uuid: string, written: bool): (r: Result<UploadResult>)
    ensures file.None? || file.value.size == 0 ==> r.Err? && r.error.InvalidArgument?
    ensures r.Ok? <==> file.Some? && file.value.size > 0 && written
    ensures r.Ok? ==>
      (r.value.originalFilename == file.value.originalFilename
       && r.value.filePath == Some(CommonUploadDir + r.value.storedFilename)
       && uuid <= r.value.storedFilename
       && r.value.storedFilename[|uuid|..] == ExtractExtension(file.value.originalFilename))
  {
    SaveWith(file, uuid, written, (stored: string) => CommonUploadDir + stored)
  }

  /** `saveFile` of the `file` package: the path is the stored name resolved
      against the configured directory, given here already made absolute and
      normalised. */
  function SaveFile(file: Option<Upload>, uuid: string, written: bool, uploadRoot: string)
    : (r: Result<UploadResult>)
    ensures file.None? || file.value.size == 0 ==> r.Err? && r.error.InvalidArgument?
    ensures r.Ok? <==> file.Some? && file.value.size > 0 && written
    ensures r.Ok? ==>
      (r.value.originalFilename == file.value.originalFilename
       && r.value.filePath == Some(uploadRoot + "/" + r.value.storedFilename)
       && uuid <= r.value.storedFilename
       && r.value.storedFilename[|uuid|..] == ExtractExtension(file.value.originalFilename))
  {
    SaveWith(file, uuid, written, (stored: string) => uploadRoot + "/" + stored)
  }
}
