/** Review listing, statistics, creation and deletion (`ReviewService`,
    `ReviewRepository`, `ReviewRepositoryImpl`). The tables are sequences in
    insertion order; ids are generated by the caller. */
module ReviewService {
  import opened Common
  import opened Users
  import opened Shops
  import opened Files
  import opened Reviews
  import opened Paging
  import opened Sorting
  import Collect
  import Aggregates

  /** A review as the API shows it, with its image URLs. */
  datatype ReviewView = ReviewView(review: ReviewEntity, imageUrls: seq<string>)

  /** The live reviews of one shop: the filter shared by every query here. */
  predicate LiveReviewOf(r: ReviewEntity, shopId: int) {
    r.shopId == Some(shopId) && !r.isDeleted
  }

  /** `ORDER BY createdAt DESC`. */
  function CreatedAtKey(r: ReviewEntity): SortKey {
    IntKey(r.createdAt)
  }

  /** The shop's live reviews that have an author (the fetch join drops the
      others), newest first. */
  function ListedReviews(reviews: seq<ReviewEntity>, shopId: int): (r: seq<ReviewEntity>)
    ensures SortedBy(r, CreatedAtKey, false)
    ensures forall i :: 0 <= i < |r| ==> r[i] in reviews && LiveReviewOf(r[i], shopId) && r[i].user.Some?
    ensures forall i :: 0 <= i < |reviews| ==>
      (LiveReviewOf(reviews[i], shopId) && reviews[i].user.Some? ==> reviews[i] in r)
  {
    var live := Filter(reviews, (x: ReviewEntity) => LiveReviewOf(x, shopId) && x.user.Some?);
    SortByMembers(live, CreatedAtKey, false);
    SortBy(live, CreatedAtKey, false)
  }

  /** `COUNT(r)` over the shop's live reviews. */
  function LiveCount(reviews: seq<ReviewEntity>, shopId: int): nat {
    Count(reviews, (x: ReviewEntity) => LiveReviewOf(x, shopId))
  }

  /** `findByDollShopIdWithUser(shopId, pageable)`: one window of the listed
      reviews, with the total Spring reports for it. */
  function FindByDollShopIdWithUser(reviews: seq<ReviewEntity>, shopId: int, req: PageRequest)
    : (p: Page<ReviewEntity>)
    ensures |p.content| <= req.size
    ensures SortedBy(p.content, CreatedAtKey, false)
    ensures forall i :: 0 <= i < |p.content| ==>
      p.content[i] in reviews && LiveReviewOf(p.content[i], shopId)
    ensures p.content == Slice(ListedReviews(reviews, shopId), req.Offset(), req.size)
  {
    var listed := ListedReviews(reviews, shopId);
    SortedSlice(listed, CreatedAtKey, false, req.Offset(), req.size);
    QueryPage(Slice(listed, req.Offset(), req.size), req, LiveCount(reviews, shopId))
  }

  /** When every live review has an author, the reported total is the
      number of live reviews, whichever page is asked for. */
  lemma FindByDollShopIdWithUserTotal(reviews: seq<ReviewEntity>, shopId: int, req: PageRequest)
    requires forall i :: 0 <= i < |reviews| && LiveReviewOf(reviews[i], shopId) ==> reviews[i].user.Some?
    ensures FindByDollShopIdWithUser(reviews, shopId, req).total == LiveCount(reviews, shopId)
  {
    var p := (x: ReviewEntity) => LiveReviewOf(x, shopId);
    var q := (x: ReviewEntity) => LiveReviewOf(x, shopId) && x.user.Some?;
    FilterSameCount(reviews, p, q);
    FilterCount(reviews, p);
    var listed := ListedReviews(reviews, shopId);
    assert |listed| == |Filter(reviews, q)|;
    QueryPageOfSlice(listed, req);
  }

  /** Two predicates that agree on a sequence select the same elements. */
  lemma {:induction false} FilterSameCount<T>(xs: seq<T>, p: T -> bool, q: T -> bool)
    requires forall i :: 0 <= i < |xs| ==> (p(xs[i]) <==> q(xs[i]))
    ensures Filter(xs, p) == Filter(xs, q)
  {
    if xs != [] {
      FilterSameCount(xs[1..], p, q);
    }
  }

  /** Pairs each review with the URLs of its REVIEW files, `[]` when it has
      none (`groupingBy` then `getOrDefault(id, List.of())`). */
  function AttachReviewUrls(files: seq<FileEntity>, entities: seq<ReviewEntity>): (views: seq<ReviewView>)
    ensures |views| == |entities|
    ensures forall i :: 0 <= i < |entities| ==>
      views[i].review == entities[i]
      && views[i].imageUrls == (if entities[i].id.None? then [] else AttachedUrls(files, REVIEW, entities[i].id.value))
  {
    var ids := seq(|entities|, i requires 0 <= i < |entities| => entities[i].id);
    var grouped := Collect.GroupingBy(RefPairs(FindByRefIdInAndRefType(files, ids, REVIEW)));
    var views := seq(|entities|, i requires 0 <= i < |entities| =>
      ReviewView(entities[i],
                 if entities[i].id.None? then [] else Collect.GetOrDefault(grouped, entities[i].id.value, [])));
    forall i | 0 <= i < |entities| && entities[i].id.Some?
      ensures views[i].imageUrls == AttachedUrls(files, REVIEW, entities[i].id.value)
    {
      var k := entities[i].id.value;
      assert ids[i] == Some(k);
      GroupedUrls(files, ids, REVIEW, k);
    }
    views
  }

  /** `ReviewService.getReviewsByDollShopIdPaged`: an empty page is reported
      with total 0; otherwise the page's reviews, in order, each with its
      image URLs, and the page's own total. */
  function GetReviewsByDollShopIdPaged(reviews: seq<ReviewEntity>, files: seq<FileEntity>,
                                       shopId: int, req: PageRequest): (p: Page<ReviewView>)
    ensures var rp := FindByDollShopIdWithUser(reviews, shopId, req);
      && (rp.content == [] ==> p == Page([], 0))
      && (rp.content != [] ==> p.total == rp.total)
      && |p.content| == |rp.content|
      && forall i :: 0 <= i < |p.content| ==>
           p.content[i].review == rp.content[i]
           && p.content[i].imageUrls == (if rp.content[i].id.None? then []
                                         else AttachedUrls(files, REVIEW, rp.content[i].id.value))
  {
    var rp := FindByDollShopIdWithUser(reviews, shopId, req);
    if rp.content == [] then Page([], 0)
    else PageOf(AttachReviewUrls(files, rp.content), req, rp.total)
  }

  /** `ReviewRepositoryImpl.findReviewsWithFilesByDollShopId`: a zero count
      gives the empty page; otherwise one window of the listed reviews with
      their image URLs and the full count as total. */
  function FindReviewsWithFilesByDollShopId(reviews: seq<ReviewEntity>, files: seq<FileEntity>,
                                            shopId: int, req: PageRequest): (p: Page<ReviewView>)
    ensures LiveCount(reviews, shopId) == 0 ==> p == Page([], 0)
    ensures |p.content| <= req.size
    ensures var window := Slice(ListedReviews(reviews, shopId), req.Offset(), req.size);
      LiveCount(reviews, shopId) > 0 ==>
        |p.content| == |window|
        && (forall i :: 0 <= i < |window| ==>
              p.content[i].review == window[i]
              && p.content[i].imageUrls == (if window[i].id.None? then []
                                            else AttachedUrls(files, REVIEW, window[i].id.value)))
    ensures LiveCount(reviews, shopId) > 0 && req.Offset() + req.size <= LiveCount(reviews, shopId)
      ==> p.total == LiveCount(reviews, shopId)
  {
    var total := LiveCount(reviews, shopId);
    if total == 0 then EmptyPage()
    else
      var window := Slice(ListedReviews(reviews, shopId), req.Offset(), req.size);
      PageOf(AttachReviewUrls(files, window), req, total)
  }

  /** When every live review has an author, the count and the listing agree,
      so the reported total is the count on every page: a short last page
      and a page past the end included. */
  lemma FindReviewsWithFilesTotal(reviews: seq<ReviewEntity>, files: seq<FileEntity>,
                                  shopId: int, req: PageRequest)
    requires forall i :: 0 <= i < |reviews| && LiveReviewOf(reviews[i], shopId) ==> reviews[i].user.Some?
    ensures FindReviewsWithFilesByDollShopId(reviews, files, shopId, req).total == LiveCount(reviews, shopId)
  {
    var p := (x: ReviewEntity) => LiveReviewOf(x, shopId);
    var q := (x: ReviewEntity) => LiveReviewOf(x, shopId) && x.user.Some?;
    FilterSameCount(reviews, p, q);
    FilterCount(reviews, p);
    var listed := ListedReviews(reviews, shopId);
    assert |listed| == |Filter(reviews, q)|;
    PageOfSliceKeepsTotal(listed, req);
  }

  /** The numbers `findStatsByDollShopId` selects and `getReviewStats` returns. */
  datatype ReviewStats = ReviewStats(
    totalReviews: nat,
    avgRating: Option<real>,
    avgMachineStrength: Option<real>,
    avgLargeDollCost: Option<real>,
    avgMediumDollCost: Option<real>,
    avgSmallDollCost: Option<real>)

  /** `ReviewStatsDTO.empty()`. */
  const EmptyStats := ReviewStats(0, Some(0.0), Some(0.0), Some(0.0), Some(0.0), Some(0.0))

  function Column(rs: seq<ReviewEntity>, col: ReviewEntity -> Option<int>): (c: seq<Option<int>>)
    ensures |c| == |rs| && forall i :: 0 <= i < |rs| ==> c[i] == col(rs[i])
  {
    seq(|rs|, i requires 0 <= i < |rs| => col(rs[i]))
  }

  /** The shop's live reviews, in table order. */
  function LiveReviews(reviews: seq<ReviewEntity>, shopId: int): seq<ReviewEntity> {
    Filter(reviews, (x: ReviewEntity) => LiveReviewOf(x, shopId))
  }

  /** `getReviewStats`: all zeros for a shop without live reviews; otherwise
      the count and the SQL averages of its live reviews (a cost average is
      null when no live review gives that cost). */
  function GetReviewStats(reviews: seq<ReviewEntity>, shopId: int): (s: ReviewStats)
    ensures s.totalReviews == LiveCount(reviews, shopId)
    ensures s.totalReviews == 0 ==> s == EmptyStats
    ensures var live := LiveReviews(reviews, shopId);
      s.totalReviews > 0 ==>
        s.avgRating == Aggregates.Avg(Column(live, (r: ReviewEntity) => r.rating))
        && s.avgMachineStrength == Aggregates.Avg(Column(live, (r: ReviewEntity) => r.machineStrength))
        && s.avgLargeDollCost == Aggregates.Avg(Column(live, (r: ReviewEntity) => r.largeDollCost))
        && s.avgMediumDollCost == Aggregates.Avg(Column(live, (r: ReviewEntity) => r.mediumDollCost))
        && s.avgSmallDollCost == Aggregates.Avg(Column(live, (r: ReviewEntity) => r.smallDollCost))
  {
    var live := LiveReviews(reviews, shopId);
    FilterCount(reviews, (x: ReviewEntity) => LiveReviewOf(x, shopId));
    if |live| == 0 then EmptyStats
    else
      ReviewStats(|live|,
                  Aggregates.Avg(Column(live, (r: ReviewEntity) => r.rating)),
                  Aggregates.Avg(Column(live, (r: ReviewEntity) => r.machineStrength)),
                  Aggregates.Avg(Column(live, (r: ReviewEntity) => r.largeDollCost)),
                  Aggregates.Avg(Column(live, (r: ReviewEntity) => r.mediumDollCost)),
                  Aggregates.Avg(Column(live, (r: ReviewEntity) => r.smallDollCost)))
  }

  /** With well-formed reviews, a shop that has reviews has an average
      rating, and it lies between 1 and 5. */
  lemma StatsRatingInRange(reviews: seq<ReviewEntity>, shopId: int)
    requires forall i :: 0 <= i < |reviews| ==> WellFormed(reviews[i])
    ensures var s := GetReviewStats(reviews, shopId);
      s.avgRating.Some? && 0.0 <= s.avgRating.value <= 5.0
      && (s.totalReviews > 0 ==> 1.0 <= s.avgRating.value)
  {
    var live := LiveReviews(reviews, shopId);
    var col := Column(live, (r: ReviewEntity) => r.rating);
    assert Aggregates.AllWithin(col, 1, 5) by {
      forall i | 0 <= i < |col| && col[i].Some? ensures 1 <= col[i].value <= 5 {
        assert live[i] in reviews;
      }
    }
    Aggregates.AvgWithin(col, 1, 5);
    if |live| > 0 {
      assert col[0].Some? by { assert live[0] in reviews; }
      PresentCountPositive(col);
    }
  }

  lemma PresentCountPositive(xs: seq<Option<int>>)
    requires xs != [] && xs[0].Some?
    ensures Aggregates.PresentCount(xs) > 0
  {
  }

  /** `findById` on the review table: the position of the review with that id. */
  function FindReview(reviews: seq<ReviewEntity>, id: int): (k: Option<nat>)
    ensures k.Some? ==> k.value < |reviews| && reviews[k.value].id == Some(id)
    ensures k.None? <==> forall i :: 0 <= i < |reviews| ==> reviews[i].id != Some(id)
  {
    if reviews == [] then None
    else if reviews[0].id == Some(id) then Some(0)
    else match FindReview(reviews[1..], id)
         case None => None
         case Some(j) => Some(j + 1)
  }

  /** The request supplies every `nullable = false` column that comes from
      it: content, rating and machine strength. */
  predicate FillsColumns(d: ReviewCreateDto) {
    d.content.Some? && d.rating.Some? && d.machineStrength.Some?
  }

  /** `createReview(username, dto)`: the user is looked up first, then the
      shop; the new review is appended under `nextId`, stamped `now` by
      `onCreate`. A null shop id is refused by `findById`. Nothing here
      validates the request, so a review without content, rating or
      machine strength reaches the insert, which its NOT NULL columns
      refuse. */
  function CreateReview(users: seq<UserEntity>, shops: seq<DollShop>, reviews: seq<ReviewEntity>,
                        username: string, d: ReviewCreateDto, nextId: int, now: int)
    : (r: Result<(seq<ReviewEntity>, ReviewEntity)>)
    ensures FindByUsername(users, username).None? ==> r == Err(NotFound("user"))
    ensures FindByUsername(users, username).Some? && d.dollShopId.None? ==> r.Err? && r.error.InvalidArgument?
    ensures (FindByUsername(users, username).Some? && d.dollShopId.Some?
             && FindShop(shops, d.dollShopId.value).None?) ==> r == Err(NotFound("shop"))
    ensures (FindByUsername(users, username).Some? && d.dollShopId.Some?
             && FindShop(shops, d.dollShopId.value).Some? && !FillsColumns(d))
            ==> r == Err(ConstraintViolation("reviews"))
    ensures r.Ok? <==>
      (FindByUsername(users, username).Some? && d.dollShopId.Some?
       && FindShop(shops, d.dollShopId.value).Some? && FillsColumns(d))
    ensures r.Ok? ==>
      var (table, saved) := r.value;
      table == reviews + [saved]
      && saved.id == Some(nextId) && !saved.isDeleted
      && saved.user == FindByUsername(users, username) && saved.shopId == d.dollShopId
      && EditOf(saved) == Edit(d.content, d.rating, d.machineStrength,
                               d.largeDollCost, d.mediumDollCost, d.smallDollCost)
      && saved.createdAt == Some(now) && saved.updatedAt == Some(now)
  {
    match FindByUsername(users, username)
    case None => Err(NotFound("user"))
    case Some(user) =>
      if d.dollShopId.None? then Err(InvalidArgument("The given id must not be null"))
      else
        match FindShop(shops, d.dollShopId.value)
        case None => Err(NotFound("shop"))
        case Some(shop) =>
          if !FillsColumns(d) then Err(ConstraintViolation("reviews"))
          else
            var saved := OnCreate(CreateToEntity(d, user, shop).(id := Some(nextId)), now);
            Ok((reviews + [saved], saved))
  }

  /** A review created from a valid request is well-formed and shows up in
      its shop's listing. */
  lemma CreatedReviewIsListed(users: seq<UserEntity>, shops: seq<DollShop>, reviews: seq<ReviewEntity>,
                              username: string, d: ReviewCreateDto, nextId: int, now: int)
    requires CreateViolations(d) == {}
    requires CreateReview(users, shops, reviews, username, d, nextId, now).Ok?
    ensures var (table, saved) := CreateReview(users, shops, reviews, username, d, nextId, now).value;
      WellFormed(saved) && saved in ListedReviews(table, d.dollShopId.value)
  {
    var (table, saved) := CreateReview(users, shops, reviews, username, d, nextId, now).value;
    var shop := FindShop(shops, d.dollShopId.value).value;
    ValidCreateIsWellFormed(d, FindByUsername(users, username).value, shop);
    assert table[|reviews|] == saved;
  }

  /** `deleteReview(id, username)`: missing review, then a review without
      author, then another author, then an already deleted review, in that
      order; otherwise only that review's deletion flag is set. */
  function DeleteReview(reviews: seq<ReviewEntity>, id: int, username: string)
    : (r: Result<seq<ReviewEntity>>)
    ensures FindReview(reviews, id).None? ==> r.Err? && r.error.NotFound?
    ensures r.Ok? <==>
      (FindReview(reviews, id).Some?
       && IsWrittenByName(reviews[FindReview(reviews, id).value], username)
       && !reviews[FindReview(reviews, id).value].isDeleted)
    ensures FindReview(reviews, id).Some? ==>
      var found := reviews[FindReview(reviews, id).value];
      && (found.user.None? ==> r == Err(NullReference("user")))
      && (found.user.Some? && found.user.value.username != username ==> r == Err(NotAuthor))
      && (IsWrittenByName(found, username) && found.isDeleted ==> r == Err(AlreadyDeleted))
    ensures r.Ok? ==>
      var k := FindReview(reviews, id).value;
      |r.value| == |reviews| && r.value[k].isDeleted
      && r.value[k].(isDeleted := false) == reviews[k]
      && forall j :: 0 <= j < |reviews| && j != k ==> r.value[j] == reviews[j]
  {
    match FindReview(reviews, id)
    case None => Err(NotFound("review"))
    case Some(k) =>
      var rv := reviews[k];
      if rv.user.None? then Err(NullReference("user"))
      else if rv.user.value.username != username then Err(NotAuthor)
      else if rv.isDeleted then Err(AlreadyDeleted)
      else Ok(reviews[k := rv.(isDeleted := true)])
  }

  /** Deleting is not idempotent: a second delete by the author is refused. */
  lemma DeleteTwiceFails(reviews: seq<ReviewEntity>, id: int, username: string)
    requires DeleteReview(reviews, id, username).Ok?
    ensures DeleteReview(DeleteReview(reviews, id, username).value, id, username) == Err(AlreadyDeleted)
  {
    var k := FindReview(reviews, id).value;
    var after := DeleteReview(reviews, id, username).value;
    FindReviewSameIds(reviews, after, id);
  }

  /** The lookup only sees ids, so a table with the same ids finds the same
      position. */
  lemma {:induction false} FindReviewSameIds(a: seq<ReviewEntity>, b: seq<ReviewEntity>, id: int)
    requires |a| == |b| && forall i :: 0 <= i < |a| ==> a[i].id == b[i].id
    ensures FindReview(a, id) == FindReview(b, id)
  {
    if a != [] {
      FindReviewSameIds(a[1..], b[1..], id);
    }
  }

  /** Committing a delete writes the flag and a fresh `updatedAt`, and keeps
      the creation time. */
  lemma DeleteCommit(reviews: seq<ReviewEntity>, id: int, username: string, now: int)
    requires DeleteReview(reviews, id, username).Ok?
    ensures var k := FindReview(reviews, id).value;
      var row := Flush(reviews[k], DeleteReview(reviews, id, username).value[k], now);
      row.isDeleted && row.updatedAt == Some(now) && row.createdAt == reviews[k].createdAt
      && row.(isDeleted := false, updatedAt := reviews[k].updatedAt) == reviews[k]
  {
  }
}
