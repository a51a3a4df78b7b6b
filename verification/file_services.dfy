/** The file service: path lookup by reference, recording uploaded files,
    lookup and deletion by id. The file table is a sequence of records. */
module FileServices {
  import opened Common
  import opened Files
  import opened FileUtil

  /** The optional `usage` argument: null or empty means no filter, anything
      else must name a `Usage`. */
  function ParseUsageFilter(usage: Option<string>): (r: Result<Option<Usage>>)
    ensures usage.None? || usage == Some("") ==> r == Ok(None)
    ensures r.Ok? && r.value.Some? ==> usage == Some(UsageName(r.value.value))
    ensures forall u: Usage :: usage == Some(UsageName(u)) ==> r == Ok(Some(u))
  {
    if usage.None? || usage.value == "" then Ok(None)
    else
      match UsageValueOf(usage.value)
      case Ok(u) => Ok(Some(u))
      case Err(e) => Err(e)
  }

  /** The served URL of each file, in order. */
  function Urls(files: seq<FileEntity>): (r: seq<string>)
    ensures |r| == |files|
    ensures forall i :: 0 <= i < |files| ==> r[i] == UploadUrl(files[i])
  {
    seq(|files|, i requires 0 <= i < |files| => UploadUrl(files[i]))
  }

  /** `getFilePaths(refId, refType, usage)`. The reference type is parsed
      first, so its failure takes precedence over a bad usage. */
  function GetFilePaths(files: seq<FileEntity>, refId: Option<int>, refType: Option<string>,
                        usage: Option<string>): (r: Result<seq<string>>)
    ensures RefTypeValueOf(refType).Err? ==> r == Err(RefTypeValueOf(refType).error)
    ensures r.Err? <==> RefTypeValueOf(refType).Err? || ParseUsageFilter(usage).Err?
    ensures r.Ok? ==> r.value == Urls(SearchFiles(files, refId, Some(RefTypeValueOf(refType).value),
                                                  ParseUsageFilter(usage).value))
  {
    match RefTypeValueOf(refType)
    case Err(e) => Err(e)
    case Ok(t) =>
      match ParseUsageFilter(usage)
      case Err(e) => Err(e)
      case Ok(u) => Ok(Urls(SearchFiles(files, refId, Some(t), u)))
  }

  /** When no file matches, the lookup succeeds with no paths; when some file
      matches the reference and both filters, its URL is among the paths. */
  lemma GetFilePathsContents(files: seq<FileEntity>, refId: int, t: RefType, u: Option<Usage>)
    ensures var r := GetFilePaths(files, Some(refId), Some(RefTypeName(t)),
                                  if u.None? then None else Some(UsageName(u.value)));
      r.Ok?
      && ((forall i :: 0 <= i < |files| ==>
             !(files[i].refId == Some(refId) && files[i].refType == Some(t) && OptEq(u, files[i].usage)))
          ==> r.value == [])
      && (forall i :: 0 <= i < |files| ==>
            (files[i].refId == Some(refId) && files[i].refType == Some(t) && OptEq(u, files[i].usage)
             ==> UploadUrl(files[i]) in r.value))
  {
    var found := SearchFiles(files, Some(refId), Some(t), u);
    var r := GetFilePaths(files, Some(refId), Some(RefTypeName(t)),
                          if u.None? then None else Some(UsageName(u.value)));
    assert r == Ok(Urls(found));
    forall i | 0 <= i < |files| && files[i].refId == Some(refId) && files[i].refType == Some(t)
      && OptEq(u, files[i].usage)
      ensures UploadUrl(files[i]) in r.value
    {
      var j :| 0 <= j < |found| && found[j] == files[i];
      assert r.value[j] == UploadUrl(files[i]);
    }
    if forall i :: 0 <= i < |files| ==>
         !(files[i].refId == Some(refId) && files[i].refType == Some(t) && OptEq(u, files[i].usage))
    {
      assert found == [];
    }
  }

  /** The record `saveFiles` builds for one upload. */
  function Record(id: int, up: UploadResult, refId: Option<int>, refType: Option<RefType>,
                  usage: Option<Usage>): FileEntity {
    FileEntity(id, up.originalFilename, up.storedFilename, up.filePath, up.fileSize,
               up.contentType, refId, refType, usage)
  }

  /** `f` is the record stored for upload `up` under `id`, and `path` its URL. */
  predicate SavedAs(f: FileEntity, path: string, id: int, up: UploadResult, refId: Option<int>,
                    refType: Option<RefType>, usage: Option<Usage>) {
    f.id == id && f.refId == refId && f.refType == refType && f.usage == usage
    && f.storedFileName == up.storedFilename && f.originalFileName == up.originalFilename
    && f.filePath == up.filePath && f.fileSize == up.fileSize && f.contentType == up.contentType
    && path == UploadUrl(f)
  }

  /** `saveFiles`: one record per upload, appended in order under fresh ids
      `nextId, nextId + 1, ...`, and one `/uploads/` path per upload. */
  method SaveFiles(table: seq<FileEntity>, nextId: int, uploads: seq<UploadResult>,
                   refId: Option<int>, refType: Option<RefType>, usage: Option<Usage>)
    returns (table': seq<FileEntity>, paths: seq<string>)
    ensures |paths| == |uploads|
    ensures |table'| == |table| + |uploads|
    ensures table'[..|table|] == table
    ensures forall i :: 0 <= i < |uploads| ==>
      SavedAs(table'[|table| + i], paths[i], nextId + i, uploads[i], refId, refType, usage)
  {
    table' := table;
    paths := [];
    var i := 0;
    while i < |uploads|
      invariant 0 <= i <= |uploads|
      invariant |paths| == i
      invariant |table'| == |table| + i
      invariant table'[..|table|] == table
      invariant forall j :: 0 <= j < i ==>
        SavedAs(table'[|table| + j], paths[j], nextId + j, uploads[j], refId, refType, usage)
    {
      var f := Record(nextId + i, uploads[i], refId, refType, usage);
      var before := table';
      table' := table' + [f];
      assert forall j :: 0 <= j < |before| ==> table'[j] == before[j];
      paths := paths + [UploadsPrefix + uploads[i].storedFilename];
      i := i + 1;
    }
  }

  /** `getFileById`: the record with that id, or null. */
  function GetFileById(table: seq<FileEntity>, id: int): (r: Option<FileEntity>)
    ensures r.Some? ==> r.value in table && r.value.id == id
    ensures r.None? <==> forall i :: 0 <= i < |table| ==> table[i].id != id
  {
    if table == [] then None
    else if table[0].id == id then Some(table[0])
    else GetFileById(table[1..], id)
  }

  /** Ids are primary keys: no two records share one. */
  predicate UniqueIds(table: seq<FileEntity>) {
    forall i, j :: 0 <= i < j < |table| ==> table[i].id != table[j].id
  }

  function Without(table: seq<FileEntity>, id: int): seq<FileEntity> {
    Filter(table, (f: FileEntity) => f.id != id)
  }

  /** `deleteFile`: an absent id is an error; otherwise that record goes and
      every other record stays, in order. */
  function DeleteFile(table: seq<FileEntity>, id: int): (r: Result<seq<FileEntity>>)
    ensures r.Err? <==> GetFileById(table, id).None?
    ensures r.Err? ==> r.error.NotFound?
    ensures r.Ok? ==> forall i :: 0 <= i < |r.value| ==> r.value[i] in table && r.value[i].id != id
    ensures r.Ok? ==> forall i :: 0 <= i < |table| && table[i].id != id ==> table[i] in r.value
    ensures r.Ok? && UniqueIds(table) ==> |r.value| == |table| - 1
  {
    if GetFileById(table, id).None? then Err(NotFound("file"))
    else
      WithoutUnique(table, id);
      Ok(Without(table, id))
  }

  /** Removing a key that occurs exactly once shortens a table by one. */
  lemma {:induction false} WithoutUnique(table: seq<FileEntity>, id: int)
    requires exists i :: 0 <= i < |table| && table[i].id == id
    ensures UniqueIds(table) ==> |Without(table, id)| == |table| - 1
  {
    if UniqueIds(table) {
      assert table == [table[0]] + table[1..];
      assert UniqueIds(table[1..]) by {
        forall i, j | 0 <= i < j < |table[1..]| ensures table[1..][i].id != table[1..][j].id {
          assert table[1..][i] == table[i + 1] && table[1..][j] == table[j + 1];
        }
      }
      if table[0].id == id {
        assert forall k :: 0 <= k < |table[1..]| ==> table[1..][k].id != id by {
          forall k | 0 <= k < |table[1..]| ensures table[1..][k].id != id {
            assert table[1..][k] == table[k + 1];
          }
        }
        KeepAll(table[1..], id);
      } else {
        var i :| 0 <= i < |table| && table[i].id == id;
        assert table[1..][i - 1].id == id;
        WithoutUnique(table[1..], id);
      }
    }
  }

  lemma {:induction false} KeepAll(table: seq<FileEntity>, id: int)
    requires forall k :: 0 <= k < |table| ==> table[k].id != id
    ensures |Without(table, id)| == |table|
  {
    if table != [] {
      KeepAll(table[1..], id);
    }
  }
}
