/** Community posts: the create form's validation, the keyword search with
    its paged listing, the detail view that splits a post's files into
    images and attachments, and the author-guarded edit and soft delete. */
module Community {
  import opened Common
  import opened Users
  import opened Files
  import opened Paging
  import opened Sorting

  /** A stored post. Only the fields the service reads or writes. */
  datatype Post = Post(
    id: Option<int>,
    author: Option<UserEntity>,
    title: Option<string>,
    content: Option<string>,
    viewCount: int,
    isDeleted: bool,
    createdAt: Option<int>)

  /** The entity methods whose code is not part of this model:
      `softDelete` and `incrementViewCount` are passed in. */
  datatype PostOps = PostOps(softDelete: Post -> Result<Post>, incrementViewCount: Post -> Post)

  // ---------------------------------------------------------------- create

  datatype CreateForm = CreateForm(title: Option<string>, content: Option<string>)

  const MaxTitleLength: nat := 200

  /** The bean-validation constraints on the create form, by field. A null
      title satisfies the size constraint but not the blank one. */
  function Violations(form: CreateForm): (r: set<string>)
    ensures "title" in r <==> !NotBlank(form.title) || (form.title.Some? && |form.title.value| > MaxTitleLength)
    ensures "content" in r <==> !NotBlank(form.content)
    ensures r <= {"title", "content"}
  {
    (if NotBlank(form.title) && |form.title.value| <= MaxTitleLength then {} else {"title"})
    + (if NotBlank(form.content) then {} else {"content"})
  }

  /** An empty title is rejected whatever the content. */
  lemma EmptyTitleRejected(content: Option<string>)
    ensures "title" in Violations(CreateForm(Some(""), content))
  {
  }

  /** The size bound is inclusive: 200 characters pass, 201 do not. */
  lemma TitleLengthBoundary(t: string, content: string)
    requires !IsBlank(t) && !IsBlank(content)
    ensures |t| <= MaxTitleLength ==> Violations(CreateForm(Some(t), Some(content))) == {}
    ensures |t| > MaxTitleLength ==> Violations(CreateForm(Some(t), Some(content))) == {"title"}
  {
  }

  /** `toEntity(user)`: a live post with no views. */
  function ToEntity(form: CreateForm, user: UserEntity): (p: Post)
    ensures p.author == Some(user) && p.title == form.title && p.content == form.content
    ensures p.viewCount == 0 && !p.isDeleted && p.id.None?
  {
    Post(None, Some(user), form.title, form.content, 0, false, None)
  }

  /** `createCommunity`: the author is looked up by username; the saved post
      receives `nextId` and the creation time `now`. */
  function CreatePost(users: seq<UserEntity>, posts: seq<Post>, form: CreateForm, username: string,
                      nextId: int, now: int): (r: Result<(seq<Post>, int)>)
    ensures r.Err? <==> FindByUsername(users, username).None?
    ensures r.Err? ==> r.error.NotFound?
    ensures r.Ok? ==>
      && r.value.1 == nextId
      && |r.value.0| == |posts| + 1 && r.value.0[..|posts|] == posts
      && var p := r.value.0[|posts|];
         p.id == Some(nextId) && p.author.Some? && p.author.value in users
         && WrittenBy(p, username) && p.title == form.title && p.content == form.content
         && p.viewCount == 0 && !p.isDeleted && p.createdAt == Some(now)
  {
    match FindByUsername(users, username)
    case None => Err(NotFound("user"))
    case Some(user) =>
      var saved := ToEntity(form, user).(id := Some(nextId), createdAt := Some(now));
      Ok((posts + [saved], nextId))
  }

  /** The author check posts share with comments and reviews. */
  predicate WrittenBy(p: Post, username: string) {
    IsWrittenBy(p.author, username)
  }

  // ---------------------------------------------------------------- search

  /** The condition `searchCondition` builds, on the trimmed keyword. */
  datatype Condition = TitleContains(keyword: string) | NicknameContains(keyword: string)

  /** `searchCondition(searchType, keyword)`: no condition for a null or
      blank keyword; otherwise the search type picks the column, an unknown
      type adds no condition, and a null type fails the switch. */
  function SearchCondition(searchType: Option<string>, keyword: Option<string>): (r: Result<Option<Condition>>)
    ensures r.Err? <==> NotBlank(keyword) && searchType.None?
    ensures r.Err? ==> r.error.NullReference?
    ensures r.Ok? && r.value.Some? ==>
      NotBlank(keyword) && r.value.value.keyword == Trim(keyword.value) && r.value.value.keyword != ""
    ensures r.Ok? && r.value.Some? ==>
      (r.value.value.TitleContains? <==> searchType == Some("title"))
      && (r.value.value.NicknameContains? <==> searchType == Some("nickname"))
    ensures r == Ok(None) <==>
      !NotBlank(keyword) || (searchType.Some? && searchType.value != "title" && searchType.value != "nickname")
  {
    if keyword.None? || IsBlank(keyword.value) then Ok(None)
    else
      var k := Trim(keyword.value);
      match searchType
      case None => Err(NullReference("searchType"))
      case Some(t) =>
        if t == "title" then Ok(Some(TitleContains(k)))
        else if t == "nickname" then Ok(Some(NicknameContains(k)))
        else Ok(None)
  }

  predicate Holds(cond: Option<Condition>, p: Post) {
    match cond
    case None => true
    case Some(TitleContains(k)) => ContainsIgnoreCase(p.title, k)
    case Some(NicknameContains(k)) => p.author.Some? && ContainsIgnoreCase(p.author.value.nickname, k)
  }

  /** The rows the count query sees: live posts satisfying the condition. */
  predicate Counted(cond: Option<Condition>, p: Post) {
    !p.isDeleted && Holds(cond, p)
  }

  /** The rows the content query sees: the count's rows that also survive
      the inner join with their author. */
  predicate Listed(cond: Option<Condition>, p: Post) {
    Counted(cond, p) && p.author.Some?
  }

  function CreatedAtKey(p: Post): SortKey {
    IntKey(p.createdAt)
  }

  /** What the count query reports. */
  function MatchCount(posts: seq<Post>, cond: Option<Condition>): nat {
    Count(posts, (p: Post) => Counted(cond, p))
  }

  /** The content query before paging: listed rows, newest first. */
  function OrderedMatches(posts: seq<Post>, cond: Option<Condition>): (r: seq<Post>)
    ensures SortedBy(r, CreatedAtKey, false)
    ensures forall i :: 0 <= i < |r| ==> r[i] in posts && Listed(cond, r[i])
    ensures forall i :: 0 <= i < |posts| ==> (Listed(cond, posts[i]) ==> posts[i] in r)
    ensures |r| == Count(posts, (p: Post) => Listed(cond, p))
  {
    var m := Filter(posts, (p: Post) => Listed(cond, p));
    SortByMembers(m, CreatedAtKey, false);
    FilterCount(posts, (p: Post) => Listed(cond, p));
    SortBy(m, CreatedAtKey, false)
  }

  /** Whether the count query can be built. It selects posts without joining
      their author, so a condition on the author's nickname refers to an
      alias the query never declares, and the query is refused. */
  predicate CountQueryResolves(cond: Option<Condition>) {
    !(cond.Some? && cond.value.NicknameContains?)
  }

  /** `searchCommunity(searchType, keyword, pageable)`: the count query runs
      first, then the content query pages through the joined rows. */
  function SearchPosts(posts: seq<Post>, searchType: Option<string>, keyword: Option<string>,
                       req: PageRequest): (r: Result<Page<Post>>)
    ensures r.Err? <==>
      SearchCondition(searchType, keyword).Err?
      || !CountQueryResolves(SearchCondition(searchType, keyword).value)
    ensures SearchCondition(searchType, keyword).Err? ==> r == Err(SearchCondition(searchType, keyword).error)
    ensures r.Err? && SearchCondition(searchType, keyword).Ok? ==> r.error.InvalidQuery?
    ensures r.Ok? ==>
      var cond := SearchCondition(searchType, keyword).value;
      && |r.value.content| <= req.size
      && (forall i :: 0 <= i < |r.value.content| ==>
            req.Offset() + i < |OrderedMatches(posts, cond)|
            && r.value.content[i] == OrderedMatches(posts, cond)[req.Offset() + i])
      && (r.value.content == [] || req.Offset() + req.size <= MatchCount(posts, cond)
          ==> r.value.total == MatchCount(posts, cond))
      && (r.value.content != [] && req.Offset() + req.size > MatchCount(posts, cond)
          ==> r.value.total == req.Offset() + |r.value.content|)
  {
    match SearchCondition(searchType, keyword)
    case Err(e) => Err(e)
    case Ok(cond) =>
      if !CountQueryResolves(cond) then Err(InvalidQuery("userEntity"))
      else
        var ordered := OrderedMatches(posts, cond);
        var window := Slice(ordered, req.Offset(), req.size);
        assert forall i :: 0 <= i < |window| ==> window[i] == ordered[req.Offset() + i];
        Ok(PageOf(window, req, MatchCount(posts, cond)))
  }

  /** The summary row of the listing: a post with no images or attachments. */
  datatype FileInfo = FileInfo(fileId: int, originalFileName: Option<string>, fileSize: Option<int>,
                               downloadUrl: string)
  datatype PostView = PostView(post: Post, imageUrls: seq<string>, attachments: seq<FileInfo>)

  function ListRow(p: Post): (v: PostView)
    ensures v.post == p && v.imageUrls == [] && v.attachments == []
  {
    PostView(p, [], [])
  }

  /** `getCommunityList`: an empty page is answered with total 0; otherwise
      the rows become summaries in the same order under the same total. */
  function ListPosts(posts: seq<Post>, searchType: Option<string>, keyword: Option<string>,
                     req: PageRequest): (r: Result<Page<PostView>>)
    ensures r.Err? <==> SearchPosts(posts, searchType, keyword, req).Err?
    ensures r.Err? ==> r.error == SearchPosts(posts, searchType, keyword, req).error
    ensures r.Ok? ==>
      var page := SearchPosts(posts, searchType, keyword, req).value;
      && |r.value.content| == |page.content|
      && (forall i :: 0 <= i < |page.content| ==> r.value.content[i] == ListRow(page.content[i]))
      && (page.content == [] ==> r.value.total == 0)
      && (page.content != [] ==> r.value.total == page.total)
  {
    match SearchPosts(posts, searchType, keyword, req)
    case Err(e) => Err(e)
    case Ok(page) =>
      if page.content == [] then Ok(EmptyPage())
      else
        var rows := seq(|page.content|, i requires 0 <= i < |page.content| => ListRow(page.content[i]));
        assert page.content != [] && page.total >= req.Offset() + |page.content| by {
          assert page == PageOf(page.content, req, page.total);
        }
        Ok(PageOf(rows, req, page.total))
  }

  /** Every listed row is a live post that satisfies the search, and the
      rows appear newest first. */
  lemma {:induction false} ListedRowsMatch(posts: seq<Post>, searchType: Option<string>, keyword: Option<string>,
                                          req: PageRequest)
    requires ListPosts(posts, searchType, keyword, req).Ok?
    ensures var cond := SearchCondition(searchType, keyword).value;
      var rows := ListPosts(posts, searchType, keyword, req).value.content;
      && (forall i :: 0 <= i < |rows| ==> rows[i].post in posts && Listed(cond, rows[i].post))
      && (forall i, j :: 0 <= i < j < |rows| ==> Before(CreatedAtKey, false, rows[i].post, rows[j].post))
  {
    var cond := SearchCondition(searchType, keyword).value;
    var ordered := OrderedMatches(posts, cond);
    var page := SearchPosts(posts, searchType, keyword, req).value;
    var rows := ListPosts(posts, searchType, keyword, req).value.content;
    forall i | 0 <= i < |rows| ensures rows[i].post in posts && Listed(cond, rows[i].post) {
      assert rows[i].post == ordered[req.Offset() + i];
    }
    forall i, j | 0 <= i < j < |rows| ensures Before(CreatedAtKey, false, rows[i].post, rows[j].post) {
      assert rows[i].post == ordered[req.Offset() + i] && rows[j].post == ordered[req.Offset() + j];
    }
  }

  /** A blank or missing keyword lists every live post with an author,
      whatever the search type, even a null one. */
  lemma BlankKeywordIgnoresType(posts: seq<Post>, t1: Option<string>, t2: Option<string>,
                                keyword: Option<string>, req: PageRequest)
    requires !NotBlank(keyword)
    ensures ListPosts(posts, t1, keyword, req) == ListPosts(posts, t2, keyword, req)
    ensures ListPosts(posts, t1, keyword, req).Ok?
  {
  }

  /** An unrecognised search type behaves as if no keyword were given. */
  lemma UnknownTypeListsAll(posts: seq<Post>, t: string, keyword: string, req: PageRequest)
    requires t != "title" && t != "nickname"
    ensures ListPosts(posts, Some(t), Some(keyword), req) == ListPosts(posts, None, None, req)
  {
  }

  /** A nickname search with a real keyword never produces a page: its count
      query is refused. A title search with the same keyword succeeds. */
  lemma NicknameSearchFails(posts: seq<Post>, keyword: string, req: PageRequest)
    requires !IsBlank(keyword)
    ensures ListPosts(posts, Some("nickname"), Some(keyword), req) == Err(InvalidQuery("userEntity"))
    ensures ListPosts(posts, Some("title"), Some(keyword), req).Ok?
  {
  }

  // ---------------------------------------------------------------- single post

  /** `findByIdWithUser(id)`: the post with that id, provided it has an
      author (the fetch join is an inner join); null otherwise. */
  function FindWithUser(posts: seq<Post>, id: int): (r: Option<nat>)
    ensures r.Some? ==> r.value < |posts| && posts[r.value].id == Some(id) && posts[r.value].author.Some?
    ensures r.Some? ==> forall j :: 0 <= j < r.value ==> !(posts[j].id == Some(id) && posts[j].author.Some?)
    ensures r.None? <==> forall k :: 0 <= k < |posts| ==> !(posts[k].id == Some(id) && posts[k].author.Some?)
  {
    if posts == [] then None
    else if posts[0].id == Some(id) && posts[0].author.Some? then Some(0)
    else match FindWithUser(posts[1..], id)
      case None => None
      case Some(k) => Some(k + 1)
  }

  /** `/api/files/download/{id}`. */
  function DownloadUrl(fileId: int): string {
    "/api/files/download/" + IntToString(fileId)
  }

  function AttachmentInfo(f: FileEntity): (i: FileInfo)
    ensures i.fileId == f.id && i.originalFileName == f.originalFileName && i.fileSize == f.fileSize
  {
    FileInfo(f.id, f.originalFileName, f.fileSize, DownloadUrl(f.id))
  }

  predicate OfUsage(u: Usage, f: FileEntity) {
    f.usage == Some(u)
  }

  function FilesOfUsage(fs: seq<FileEntity>, u: Usage): (r: seq<FileEntity>)
    ensures |r| == Count(fs, (f: FileEntity) => OfUsage(u, f))
    ensures forall i :: 0 <= i < |r| ==> r[i] in fs && OfUsage(u, r[i])
    ensures forall i :: 0 <= i < |fs| && OfUsage(u, fs[i]) ==> fs[i] in r
  {
    FilterCount(fs, (f: FileEntity) => OfUsage(u, f));
    Filter(fs, (f: FileEntity) => OfUsage(u, f))
  }

  /** The image URLs of a post's files: one per IMAGES file, in table order. */
  function ImageUrls(fs: seq<FileEntity>): (r: seq<string>)
    ensures |r| == |FilesOfUsage(fs, IMAGES)|
    ensures forall i :: 0 <= i < |r| ==> r[i] == UploadUrl(FilesOfUsage(fs, IMAGES)[i])
  {
    var imgs := FilesOfUsage(fs, IMAGES);
    seq(|imgs|, i requires 0 <= i < |imgs| => UploadUrl(imgs[i]))
  }

  /** The attachment entries of a post's files: one per ATTACHMENT file, in
      table order. */
  function Attachments(fs: seq<FileEntity>): (r: seq<FileInfo>)
    ensures |r| == |FilesOfUsage(fs, ATTACHMENT)|
    ensures forall i :: 0 <= i < |r| ==> r[i] == AttachmentInfo(FilesOfUsage(fs, ATTACHMENT)[i])
  {
    var atts := FilesOfUsage(fs, ATTACHMENT);
    seq(|atts|, i requires 0 <= i < |atts| => AttachmentInfo(atts[i]))
  }

  /** The files attached to post `id`. */
  function PostFiles(files: seq<FileEntity>, id: int): seq<FileEntity> {
    FindByRefIdInAndRefType(files, [Some(id)], COMMUNITY)
  }

  /** `getCommunityDetail`: a missing or deleted post fails; otherwise its
      view count is incremented once, and the view lists its image URLs and
      its attachments. */
  function PostDetail(posts: seq<Post>, files: seq<FileEntity>, id: int, ops: PostOps)
    : (r: Result<(seq<Post>, PostView)>)
    ensures r.Err? <==> FindWithUser(posts, id).None? || posts[FindWithUser(posts, id).value].isDeleted
    ensures r.Err? ==> r.error.NotFound?
    ensures r.Ok? ==>
      var k := FindWithUser(posts, id).value;
      && r.value.0 == posts[k := ops.incrementViewCount(posts[k])]
      && r.value.1.post == ops.incrementViewCount(posts[k])
      && r.value.1.imageUrls == ImageUrls(PostFiles(files, id))
      && r.value.1.attachments == Attachments(PostFiles(files, id))
  {
    match FindWithUser(posts, id)
    case None => Err(NotFound("post"))
    case Some(k) =>
      if posts[k].isDeleted then Err(NotFound("post"))
      else
        var viewed := ops.incrementViewCount(posts[k]);
        var fs := PostFiles(files, id);
        Ok((posts[k := viewed], PostView(viewed, ImageUrls(fs), Attachments(fs))))
  }

  /** The i-th image URL of the detail view (see `PostDetail`) is the
      upload URL of the post's i-th IMAGES file, a file attached to it. */
  lemma ImagesComeFromPostFiles(files: seq<FileEntity>, id: int)
    ensures var imgs := FilesOfUsage(PostFiles(files, id), IMAGES);
      forall i :: 0 <= i < |ImageUrls(PostFiles(files, id))| ==>
        && imgs[i] in files && imgs[i].refId == Some(id) && imgs[i].refType == Some(COMMUNITY)
        && imgs[i].usage == Some(IMAGES) && ImageUrls(PostFiles(files, id))[i] == UploadUrl(imgs[i])
  {
    UsageFilesBelong(files, id, IMAGES);
  }

  /** The i-th attachment of the detail view describes the post's i-th
      ATTACHMENT file, a file attached to it. */
  lemma AttachmentsComeFromPostFiles(files: seq<FileEntity>, id: int)
    ensures var atts := FilesOfUsage(PostFiles(files, id), ATTACHMENT);
      forall i :: 0 <= i < |Attachments(PostFiles(files, id))| ==>
        && atts[i] in files && atts[i].refId == Some(id) && atts[i].refType == Some(COMMUNITY)
        && atts[i].usage == Some(ATTACHMENT) && Attachments(PostFiles(files, id))[i] == AttachmentInfo(atts[i])
  {
    UsageFilesBelong(files, id, ATTACHMENT);
  }

  /** A file of any other usage (a thumbnail) appears in neither list, so
      the two lists together are as long as the post's IMAGES and
      ATTACHMENT files. */
  lemma {:induction false} DetailSplitsFiles(files: seq<FileEntity>, id: int)
    ensures |ImageUrls(PostFiles(files, id))| + |Attachments(PostFiles(files, id))|
      == Count(PostFiles(files, id), (f: FileEntity) => OfUsage(IMAGES, f) || OfUsage(ATTACHMENT, f))
  {
    var fs := PostFiles(files, id);
    DisjointCount(fs, (f: FileEntity) => OfUsage(IMAGES, f), (f: FileEntity) => OfUsage(ATTACHMENT, f),
                  (f: FileEntity) => OfUsage(IMAGES, f) || OfUsage(ATTACHMENT, f));
  }

  /** The files of one usage among a post's files are attached to that post. */
  lemma UsageFilesBelong(files: seq<FileEntity>, id: int, u: Usage)
    ensures var us := FilesOfUsage(PostFiles(files, id), u);
      forall i :: 0 <= i < |us| ==>
        us[i] in files && us[i].refId == Some(id) && us[i].refType == Some(COMMUNITY) && us[i].usage == Some(u)
  {
    var fs := PostFiles(files, id);
    var us := FilesOfUsage(fs, u);
    forall i | 0 <= i < |us|
      ensures us[i] in files && us[i].refId == Some(id) && us[i].refType == Some(COMMUNITY)
    {
      var j :| 0 <= j < |fs| && fs[j] == us[i];
      assert RefIdIn(us[i].refId, [Some(id)]);
    }
  }

  /** A file attached to the post, of usage `u`, is among its files of that
      usage. */
  lemma InUsageFiles(files: seq<FileEntity>, id: int, u: Usage, f: FileEntity)
    requires f in files && f.refId == Some(id) && f.refType == Some(COMMUNITY) && f.usage == Some(u)
    ensures f in FilesOfUsage(PostFiles(files, id), u)
  {
    var fs := PostFiles(files, id);
    var j :| 0 <= j < |files| && files[j] == f;
    assert RefIdIn(f.refId, [Some(id)]);
    var k :| 0 <= k < |fs| && fs[k] == f;
  }

  /** Conversely, every IMAGES file of the post shows up as an image URL. */
  lemma EveryImageListed(files: seq<FileEntity>, id: int)
    ensures forall f :: (f in files && f.refId == Some(id) && f.refType == Some(COMMUNITY)
                         && f.usage == Some(IMAGES)) ==> UploadUrl(f) in ImageUrls(PostFiles(files, id))
  {
    var imgs := FilesOfUsage(PostFiles(files, id), IMAGES);
    var urls := ImageUrls(PostFiles(files, id));
    forall f | f in files && f.refId == Some(id) && f.refType == Some(COMMUNITY) && f.usage == Some(IMAGES)
      ensures UploadUrl(f) in urls
    {
      InUsageFiles(files, id, IMAGES, f);
      var m :| 0 <= m < |imgs| && imgs[m] == f;
      assert urls[m] == UploadUrl(f);
    }
  }

  /** Every ATTACHMENT file of the post shows up as an attachment whose
      link is its download URL. */
  lemma EveryAttachmentListed(files: seq<FileEntity>, id: int)
    ensures forall f :: (f in files && f.refId == Some(id) && f.refType == Some(COMMUNITY)
                         && f.usage == Some(ATTACHMENT)) ==> AttachmentInfo(f) in Attachments(PostFiles(files, id))
    ensures forall f :: AttachmentInfo(f).downloadUrl == "/api/files/download/" + IntToString(f.id)
  {
    var atts := FilesOfUsage(PostFiles(files, id), ATTACHMENT);
    var infos := Attachments(PostFiles(files, id));
    forall f | f in files && f.refId == Some(id) && f.refType == Some(COMMUNITY) && f.usage == Some(ATTACHMENT)
      ensures AttachmentInfo(f) in infos
    {
      InUsageFiles(files, id, ATTACHMENT, f);
      var m :| 0 <= m < |atts| && atts[m] == f;
      assert infos[m] == AttachmentInfo(f);
    }
  }

  // ---------------------------------------------------------------- edit and delete

  /** `updateCommunity`: a missing or deleted post fails first, then a caller
      who is not the author; otherwise only title and content change. */
  function UpdatePost(posts: seq<Post>, id: int, title: Option<string>, content: Option<string>,
                      username: string): (r: Result<seq<Post>>)
    ensures FindWithUser(posts, id).None? ==> r == Err(NotFound("post"))
    ensures FindWithUser(posts, id).Some? && posts[FindWithUser(posts, id).value].isDeleted
      ==> r == Err(NotFound("post"))
    ensures r.Ok? <==>
      FindWithUser(posts, id).Some?
      && !posts[FindWithUser(posts, id).value].isDeleted
      && WrittenBy(posts[FindWithUser(posts, id).value], username)
    ensures r.Ok? ==>
      var k := FindWithUser(posts, id).value;
      && |r.value| == |posts|
      && r.value[k] == posts[k].(title := title, content := content)
      && (forall j :: 0 <= j < |posts| && j != k ==> r.value[j] == posts[j])
    ensures r.Err? && FindWithUser(posts, id).Some? && !posts[FindWithUser(posts, id).value].isDeleted
      ==> r.error == NotAuthor
  {
    match FindWithUser(posts, id)
    case None => Err(NotFound("post"))
    case Some(k) =>
      if posts[k].isDeleted then Err(NotFound("post"))
      else if !WrittenBy(posts[k], username) then Err(NotAuthor)
      else Ok(posts[k := posts[k].(title := title, content := content)])
  }

  /** `deleteCommunity`: a missing post fails first, then a caller who is
      not the author; the service does not look at the deleted flag itself
      and leaves that to the entity's `softDelete`. */
  function DeletePost(posts: seq<Post>, id: int, username: string, ops: PostOps): (r: Result<seq<Post>>)
    ensures FindWithUser(posts, id).None? ==> r == Err(NotFound("post"))
    ensures FindWithUser(posts, id).Some? && !WrittenBy(posts[FindWithUser(posts, id).value], username)
      ==> r == Err(NotAuthor)
    ensures FindWithUser(posts, id).Some? && WrittenBy(posts[FindWithUser(posts, id).value], username) ==>
      var k := FindWithUser(posts, id).value;
      match ops.softDelete(posts[k])
      case Err(e) => r == Err(e)
      case Ok(p) => r.Ok? && |r.value| == |posts| && r.value[k] == p
                    && (forall j :: 0 <= j < |posts| && j != k ==> r.value[j] == posts[j])
  {
    match FindWithUser(posts, id)
    case None => Err(NotFound("post"))
    case Some(k) =>
      if !WrittenBy(posts[k], username) then Err(NotAuthor)
      else match ops.softDelete(posts[k])
        case Err(e) => Err(e)
        case Ok(p) => Ok(posts[k := p])
  }

  /** On a deleted post the two guards disagree for a stranger: editing
      reports the post missing, deleting reports the caller not the author. */
  lemma DeletedPostGuardsDiffer(posts: seq<Post>, id: int, username: string, ops: PostOps,
                                title: Option<string>, content: Option<string>)
    requires FindWithUser(posts, id).Some?
    requires posts[FindWithUser(posts, id).value].isDeleted
    requires !WrittenBy(posts[FindWithUser(posts, id).value], username)
    ensures UpdatePost(posts, id, title, content, username) == Err(NotFound("post"))
    ensures DeletePost(posts, id, username, ops) == Err(NotAuthor)
  {
  }

  /** After a delete whose entity step sets the flag, the post can no longer
      be viewed or edited, and it drops out of every listing. */
  lemma {:induction false} DeletedPostIsGone(posts: seq<Post>, id: int, username: string, ops: PostOps,
                                             files: seq<FileEntity>, title: Option<string>, content: Option<string>)
    requires DeletePost(posts, id, username, ops).Ok?
    requires ops.softDelete(posts[FindWithUser(posts, id).value]).Ok?
    requires ops.softDelete(posts[FindWithUser(posts, id).value]).value
             == posts[FindWithUser(posts, id).value].(isDeleted := true)
    ensures PostDetail(DeletePost(posts, id, username, ops).value, files, id, ops).Err?
    ensures UpdatePost(DeletePost(posts, id, username, ops).value, id, title, content, username).Err?
    ensures forall cond: Option<Condition> ::
      !Listed(cond, DeletePost(posts, id, username, ops).value[FindWithUser(posts, id).value])
  {
    var k := FindWithUser(posts, id).value;
    var after := DeletePost(posts, id, username, ops).value;
    assert after[k].id == Some(id) && after[k].author.Some?;
    assert forall j :: 0 <= j < k ==> after[j] == posts[j];
    assert FindWithUser(after, id) == Some(k) by {
      FindWithUserFirst(after, id, k);
    }
  }

  /** `findByIdWithUser` answers the first joined row with that id. */
  lemma {:induction false} FindWithUserFirst(posts: seq<Post>, id: int, k: nat)
    requires k < |posts| && posts[k].id == Some(id) && posts[k].author.Some?
    requires forall j :: 0 <= j < k ==> !(posts[j].id == Some(id) && posts[j].author.Some?)
    ensures FindWithUser(posts, id) == Some(k)
  {
    if k > 0 {
      FindWithUserFirst(posts[1..], id, k - 1);
    }
  }
}
