/** Uploaded-file records and the queries over them
    (`FileRepositoryCustomImpl`, `FileRepository.findByRefIdInAndRefType`). */
module Files {
  import opened Common
  import Collect

  datatype RefType = DOLL_SHOP | COMMUNITY | REVIEW | DOLL
  datatype Usage = THUMBNAIL | IMAGES | ATTACHMENT

  function RefTypeName(t: RefType): string {
    match t
    case DOLL_SHOP => "DOLL_SHOP"
    case COMMUNITY => "COMMUNITY"
    case REVIEW => "REVIEW"
    case DOLL => "DOLL"
  }

  function UsageName(u: Usage): string {
    match u
    case THUMBNAIL => "THUMBNAIL"
    case IMAGES => "IMAGES"
    case ATTACHMENT => "ATTACHMENT"
  }

  /** `RefType.valueOf(s)`: null throws, an unknown name is rejected. */
  function RefTypeValueOf(s: Option<string>): (r: Result<RefType>)
    ensures s.None? ==> r.Err?
    ensures r.Ok? ==> s == Some(RefTypeName(r.value))
    ensures forall t: RefType :: s == Some(RefTypeName(t)) ==> r == Ok(t)
  {
    match s
    case None => Err(NullReference("refType"))
    case Some(n) =>
      if n == "DOLL_SHOP" then Ok(DOLL_SHOP)
      else if n == "COMMUNITY" then Ok(COMMUNITY)
      else if n == "REVIEW" then Ok(REVIEW)
      else if n == "DOLL" then Ok(DOLL)
      else Err(InvalidArgument("No enum constant RefType." + n))
  }

  /** `Usage.valueOf(s)` on a non-null name. */
  function UsageValueOf(n: string): (r: Result<Usage>)
    ensures r.Ok? ==> n == UsageName(r.value)
    ensures forall u: Usage :: n == UsageName(u) ==> r == Ok(u)
  {
    if n == "THUMBNAIL" then Ok(THUMBNAIL)
    else if n == "IMAGES" then Ok(IMAGES)
    else if n == "ATTACHMENT" then Ok(ATTACHMENT)
    else Err(InvalidArgument("No enum constant Usage." + n))
  }

  datatype FileEntity = FileEntity(
    id: int,
    originalFileName: Option<string>,
    storedFileName: string,
    filePath: Option<string>,
    fileSize: Option<int>,
    contentType: Option<string>,
    refId: Option<int>,
    refType: Option<RefType>,
    usage: Option<Usage>)

  const UploadsPrefix: string := "/uploads/"

  /** The public URL under which a stored file is served. */
  function UploadUrl(f: FileEntity): string {
    UploadsPrefix + f.storedFileName
  }

  /** A nullable filter argument: null means "no condition". */
  predicate OptEq<T(==)>(filter: Option<T>, column: Option<T>) {
    filter.None? || column == filter
  }

  /** SQL `refId in (ids)`: a NULL column matches nothing. */
  predicate RefIdIn(refId: Option<int>, ids: seq<Option<int>>) {
    refId.Some? && refId in ids
  }

  /** `searchFiles(refId, refType, usage)`: every null filter is dropped;
      rows come back in table order. */
  function SearchFiles(files: seq<FileEntity>, refId: Option<int>, refType: Option<RefType>,
                       usage: Option<Usage>): (r: seq<FileEntity>)
    ensures forall i :: 0 <= i < |r| ==>
      (r[i] in files && OptEq(refId, r[i].refId) && OptEq(refType, r[i].refType) && OptEq(usage, r[i].usage))
    ensures forall i :: 0 <= i < |files| ==>
      (OptEq(refId, files[i].refId) && OptEq(refType, files[i].refType) && OptEq(usage, files[i].usage)
       ==> files[i] in r)
    ensures refId.None? && refType.None? && usage.None? ==> r == files
  {
    if files == [] then []
    else
      var f := files[0];
      var rest := SearchFiles(files[1..], refId, refType, usage);
      assert files == [f] + files[1..];
      if OptEq(refId, f.refId) && OptEq(refType, f.refType) && OptEq(usage, f.usage)
      then [f] + rest else rest
  }

  /** The first file of `files`, in table order, whose reference is `refId`
      and that passes the type and usage filters. */
  function FirstFileFor(files: seq<FileEntity>, refId: int, refType: Option<RefType>,
                        usage: Option<Usage>): (r: Option<FileEntity>)
    ensures r.Some? ==>
      (r.value in files && r.value.refId == Some(refId)
       && OptEq(refType, r.value.refType) && OptEq(usage, r.value.usage))
    ensures r.None? <==> forall i :: 0 <= i < |files| ==>
      !(files[i].refId == Some(refId) && OptEq(refType, files[i].refType) && OptEq(usage, files[i].usage))
  {
    if files == [] then None
    else if files[0].refId == Some(refId) && OptEq(refType, files[0].refType) && OptEq(usage, files[0].usage)
    then Some(files[0])
    else FirstFileFor(files[1..], refId, refType, usage)
  }

  /** The (refId, url) pairs of the files the batch query returns. */
  function PathPairs(files: seq<FileEntity>, refIds: seq<Option<int>>, refType: Option<RefType>,
                     usage: Option<Usage>): (r: seq<(int, string)>)
    ensures |r| <= |files|
  {
    if files == [] then []
    else
      var f := files[0];
      (if RefIdIn(f.refId, refIds) && OptEq(refType, f.refType) && OptEq(usage, f.usage)
       then [(f.refId.value, UploadUrl(f))] else [])
      + PathPairs(files[1..], refIds, refType, usage)
  }

  lemma {:induction false} PathPairsFirst(files: seq<FileEntity>, refIds: seq<Option<int>>,
                                          refType: Option<RefType>, usage: Option<Usage>, k: int)
    ensures Collect.FirstValue(PathPairs(files, refIds, refType, usage), k)
      == (if Some(k) in refIds then
            match FirstFileFor(files, k, refType, usage)
            case None => None
            case Some(f) => Some(UploadUrl(f))
          else None)
  {
    if files != [] {
      var f := files[0];
      var head := if RefIdIn(f.refId, refIds) && OptEq(refType, f.refType) && OptEq(usage, f.usage)
                  then [(f.refId.value, UploadUrl(f))] else [];
      var tail := PathPairs(files[1..], refIds, refType, usage);
      assert PathPairs(files, refIds, refType, usage) == head + tail;
      Collect.FirstValueAfter(head, tail, k);
      PathPairsFirst(files[1..], refIds, refType, usage, k);
    }
  }

  /** `findFilePathMapByRefIds`: one url per requested reference id that has a
      matching file, taken from the first such file in query order. */
  function FindFilePathMapByRefIds(files: seq<FileEntity>, refIds: seq<Option<int>>,
                                   refType: Option<RefType>, usage: Option<Usage>): (m: map<int, string>)
    ensures forall k :: k in m ==> Some(k) in refIds
    ensures forall k :: k in m <==> Some(k) in refIds && FirstFileFor(files, k, refType, usage).Some?
    ensures forall k :: k in m ==> m[k] == UploadUrl(FirstFileFor(files, k, refType, usage).value)
  {
    var pairs := PathPairs(files, refIds, refType, usage);
    var m := Collect.ToMapFirstWins(pairs);
    forall k ensures (k in m <==> Some(k) in refIds && FirstFileFor(files, k, refType, usage).Some?)
      && (k in m ==> m[k] == UploadUrl(FirstFileFor(files, k, refType, usage).value))
    {
      PathPairsFirst(files, refIds, refType, usage, k);
    }
    m
  }

  /** `findByRefIdInAndRefType(ids, type)`, in table order. */
  function FindByRefIdInAndRefType(files: seq<FileEntity>, refIds: seq<Option<int>>, refType: RefType)
    : (r: seq<FileEntity>)
    ensures forall i :: 0 <= i < |r| ==> r[i] in files && RefIdIn(r[i].refId, refIds) && r[i].refType == Some(refType)
    ensures forall i :: 0 <= i < |files| ==>
      (RefIdIn(files[i].refId, refIds) && files[i].refType == Some(refType) ==> files[i] in r)
  {
    Filter(files, (f: FileEntity) => RefIdIn(f.refId, refIds) && f.refType == Some(refType))
  }

  /** The URLs of the files attached to entity `id` under `refType`, in
      table order: the reference answer for per-item file grouping. */
  function AttachedUrls(files: seq<FileEntity>, refType: RefType, id: int): (r: seq<string>)
    ensures |r| <= |files|
  {
    if files == [] then []
    else
      (if files[0].refId == Some(id) && files[0].refType == Some(refType)
       then [UploadUrl(files[0])] else [])
      + AttachedUrls(files[1..], refType, id)
  }

  /** (refId, url) for each file that has a reference id, in order. */
  function RefPairs(fs: seq<FileEntity>): seq<(int, string)> {
    if fs == [] then []
    else
      (if fs[0].refId.Some? then [(fs[0].refId.value, UploadUrl(fs[0]))] else [])
      + RefPairs(fs[1..])
  }

  /** Grouping the batch result by reference id gives, for every requested
      id, exactly the URLs of that id's files in table order. */
  lemma {:induction false} GroupedUrls(files: seq<FileEntity>, refIds: seq<Option<int>>,
                                       refType: RefType, k: int)
    requires Some(k) in refIds
    ensures Collect.ValuesOf(RefPairs(FindByRefIdInAndRefType(files, refIds, refType)), k)
      == AttachedUrls(files, refType, k)
  {
    if files != [] {
      var f := files[0];
      var rest := FindByRefIdInAndRefType(files[1..], refIds, refType);
      GroupedUrls(files[1..], refIds, refType, k);
      if RefIdIn(f.refId, refIds) && f.refType == Some(refType) {
        assert FindByRefIdInAndRefType(files, refIds, refType) == [f] + rest;
        assert ([f] + rest)[1..] == rest;
        var pairs := RefPairs([f] + rest);
        assert pairs == [(f.refId.value, UploadUrl(f))] + RefPairs(rest);
        assert pairs[1..] == RefPairs(rest);
      } else {
        assert FindByRefIdInAndRefType(files, refIds, refType) == rest;
      }
    }
  }
}
