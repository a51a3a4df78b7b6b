/** The older review code (`entity.Review`, `entity.ReviewImage`,
    `service.ReviewService`): a review with an owned list of images kept in
    step with each image's back-reference, unconditional timestamps, and a
    service without ownership or already-deleted checks. */
module LegacyReviews {
  import opened Common
  import opened Sorting

  /** A stored review. Author and shop are referenced by id. */
  datatype Review = Review(
    id: Option<int>,
    userId: int,
    shopId: int,
    content: Option<string>,
    rating: Option<int>,
    machineStrength: Option<int>,
    largeDollCost: Option<int>,
    mediumDollCost: Option<int>,
    smallDollCost: Option<int>,
    isDeleted: bool,
    createdAt: Option<int>,
    updatedAt: Option<int>)

  /** `@PrePersist onCreate`: both timestamps are set, whatever they held. */
  function OnCreate(r: Review, now: int): (r': Review)
    ensures r'.createdAt == Some(now) && r'.updatedAt == Some(now)
    ensures r'.(createdAt := r.createdAt, updatedAt := r.updatedAt) == r
  {
    r.(createdAt := Some(now), updatedAt := Some(now))
  }

  /** `@PreUpdate onUpdate`: only `updatedAt` moves. */
  function OnUpdate(r: Review, now: int): (r': Review)
    ensures r'.updatedAt == Some(now)
    ensures r'.(updatedAt := r.updatedAt) == r
  {
    r.(updatedAt := Some(now))
  }

  /** Unlike the current entity, a preset creation time does not survive
      persisting. */
  lemma OnCreateOverwrites(r: Review, now: int)
    requires r.createdAt.Some? && r.createdAt != Some(now)
    ensures OnCreate(r, now).createdAt != r.createdAt
  {
  }

  /** The row the database holds when a transaction commits, given the row
      as loaded (`stored`) and the managed object at commit (`current`): an
      unchanged object issues no UPDATE; a changed one passes through
      `onUpdate`, and `createdAt` (`updatable = false`) keeps its stored value. */
  function Flush(stored: Review, current: Review, now: int): (row: Review)
    ensures current == stored ==> row == stored
    ensures row.createdAt == stored.createdAt
    ensures current != stored ==>
      (row.updatedAt == Some(now)
       && row.(createdAt := current.createdAt, updatedAt := current.updatedAt) == current)
  {
    if current == stored then stored
    else OnUpdate(current, now).(createdAt := stored.createdAt)
  }

  /** The review-to-image association in memory: each review object's
      `images` list and each image object's `review` back-reference, with
      objects named by references. */
  datatype Graph = Graph(images: map<nat, seq<nat>>, owner: map<nat, Option<nat>>)

  predicate NoDuplicates(xs: seq<nat>) {
    forall i, j :: 0 <= i < j < |xs| ==> xs[i] != xs[j]
  }

  /** The bidirectional association is in step: an image is in a review's
      list exactly when its back-reference names that review, and no list
      holds an image twice. */
  predicate Consistent(g: Graph) {
    (forall r, k :: r in g.images && 0 <= k < |g.images[r]| ==>
       g.images[r][k] in g.owner && g.owner[g.images[r][k]] == Some(r))
    && (forall img :: img in g.owner && g.owner[img].Some? ==>
          g.owner[img].value in g.images && img in g.images[g.owner[img].value])
    && (forall r :: r in g.images ==> NoDuplicates(g.images[r]))
  }

  /** `addImage`: append to the list and point the image at this review. */
  function AddImage(g: Graph, review: nat, img: nat): (g': Graph)
    requires review in g.images && img in g.owner
    ensures g'.images.Keys == g.images.Keys && g'.owner.Keys == g.owner.Keys
    ensures g'.images[review] == g.images[review] + [img]
    ensures g'.owner[img] == Some(review)
    ensures forall r :: r in g.images && r != review ==> g'.images[r] == g.images[r]
    ensures forall i :: i in g.owner && i != img ==> g'.owner[i] == g.owner[i]
  {
    Graph(g.images[review := g.images[review] + [img]], g.owner[img := Some(review)])
  }

  /** `List.remove(Object)`: drops the first occurrence, if any. */
  function RemoveFirst(xs: seq<nat>, x: nat): (r: seq<nat>)
    ensures x !in xs ==> r == xs
    ensures x in xs ==> |r| == |xs| - 1
    ensures forall y :: y in r ==> y in xs
    ensures forall y :: y in xs && y != x ==> y in r
  {
    if xs == [] then []
    else if xs[0] == x then xs[1..]
    else [xs[0]] + RemoveFirst(xs[1..], x)
  }

  /** With no duplicates, removing an element removes every occurrence. */
  lemma {:induction false} RemoveFirstNoDuplicates(xs: seq<nat>, x: nat)
    requires NoDuplicates(xs)
    ensures x !in RemoveFirst(xs, x)
    ensures NoDuplicates(RemoveFirst(xs, x))
  {
    if xs != [] {
      assert NoDuplicates(xs[1..]) by {
        forall i, j | 0 <= i < j < |xs[1..]| ensures xs[1..][i] != xs[1..][j] {
          assert xs[1..][i] == xs[i + 1] && xs[1..][j] == xs[j + 1];
        }
      }
      if xs[0] == x {
        assert forall k :: 0 <= k < |xs[1..]| ==> xs[1..][k] == xs[k + 1];
      } else {
        RemoveFirstNoDuplicates(xs[1..], x);
        var rest := RemoveFirst(xs[1..], x);
        assert xs[0] !in xs[1..] by {
          forall k | 0 <= k < |xs[1..]| ensures xs[1..][k] != xs[0] {
            assert xs[1..][k] == xs[k + 1];
          }
        }
        assert xs[0] !in rest;
      }
    }
  }

  /** `removeImage`: drop the image from the list and clear its
      back-reference. */
  function RemoveImage(g: Graph, review: nat, img: nat): (g': Graph)
    requires review in g.images && img in g.owner
    ensures g'.images.Keys == g.images.Keys && g'.owner.Keys == g.owner.Keys
    ensures g'.images[review] == RemoveFirst(g.images[review], img)
    ensures g'.owner[img] == None
    ensures forall r :: r in g.images && r != review ==> g'.images[r] == g.images[r]
    ensures forall i :: i in g.owner && i != img ==> g'.owner[i] == g.owner[i]
  {
    Graph(g.images[review := RemoveFirst(g.images[review], img)], g.owner[img := None])
  }

  /** Adding an image that belongs to no review keeps the association in
      step. */
  lemma AddImagePreserves(g: Graph, review: nat, img: nat)
    requires Consistent(g) && review in g.images && img in g.owner
    requires g.owner[img].None?
    ensures Consistent(AddImage(g, review, img))
  {
    var g' := AddImage(g, review, img);
    assert img !in g.images[review];
    forall i, j | 0 <= i < j < |g'.images[review]| ensures g'.images[review][i] != g'.images[review][j] {
      if j == |g.images[review]| {
        assert g'.images[review][i] == g.images[review][i];
      }
    }
  }

  /** Removing an image from the review it belongs to keeps the association
      in step. */
  lemma RemoveImagePreserves(g: Graph, review: nat, img: nat)
    requires Consistent(g) && review in g.images && img in g.owner
    requires g.owner[img] == Some(review)
    ensures Consistent(RemoveImage(g, review, img))
  {
    var g' := RemoveImage(g, review, img);
    RemoveFirstNoDuplicates(g.images[review], img);
    forall r, k | r in g'.images && 0 <= k < |g'.images[r]|
      ensures g'.images[r][k] in g'.owner && g'.owner[g'.images[r][k]] == Some(r)
    {
      var y := g'.images[r][k];
      if r == review {
        assert y in g'.images[review];
        assert y in g.images[review] && y != img;
      } else {
        assert y in g.images[r];
        var k0 :| 0 <= k0 < |g.images[r]| && g.images[r][k0] == y;
        assert g.owner[y] == Some(r);
      }
    }
    forall i | i in g'.owner && g'.owner[i].Some?
      ensures g'.owner[i].value in g'.images && i in g'.images[g'.owner[i].value]
    {
      assert i != img && g'.owner[i] == g.owner[i];
    }
  }

  /** Adding an image that already belongs to another review leaves it in
      both lists while its back-reference names only the new one: the
      convenience method does not detach. */
  lemma AddingAttachedImageBreaksConsistency()
    ensures var g := Graph(map[0 := [7], 1 := []], map[7 := Some(0)]);
      && Consistent(g)
      && !Consistent(AddImage(g, 1, 7))
  {
    var g := Graph(map[0 := [7], 1 := []], map[7 := Some(0)]);
    var g' := AddImage(g, 1, 7);
    assert g'.images[0][0] == 7 && g'.owner[7] == Some(1);
  }

  /** `getReview`: by id, deleted or not; the position of the first row
      carrying that id. */
  function GetReview(reviews: seq<Review>, id: int): (r: Result<nat>)
    ensures r.Ok? ==> r.value < |reviews| && reviews[r.value].id == Some(id)
    ensures r.Ok? ==> forall j :: 0 <= j < r.value ==> reviews[j].id != Some(id)
    ensures r.Err? <==> forall k :: 0 <= k < |reviews| ==> reviews[k].id != Some(id)
    ensures r.Err? ==> r.error.NotFound?
  {
    if reviews == [] then Err(NotFound("review"))
    else if reviews[0].id == Some(id) then Ok(0)
    else match GetReview(reviews[1..], id)
      case Err(e) => Err(e)
      case Ok(k) => Ok(k + 1)
  }

  /** The six editable values of `data` written over `r`. */
  function WithEdits(r: Review, data: Review): Review {
    r.(content := data.content, rating := data.rating, machineStrength := data.machineStrength,
       largeDollCost := data.largeDollCost, mediumDollCost := data.mediumDollCost,
       smallDollCost := data.smallDollCost)
  }

  /** The `nullable = false` columns the caller supplies: a row missing
      any of them is refused by the database when it is written. */
  predicate FitsColumns(r: Review) {
    r.content.Some? && r.rating.Some? && r.machineStrength.Some?
  }

  /** `updateReview` and its commit at `now`: the six editable values are
      copied from `data`; there is no author check and a deleted review is
      edited all the same. An edit that changes a value refreshes
      `updatedAt`; one that changes nothing leaves the row as it was. An
      edit that writes NULL into `content`, `rating` or `machineStrength`
      fails at the flush and rolls the transaction back. */
  function UpdateReview(reviews: seq<Review>, id: int, data: Review, now: int): (r: Result<seq<Review>>)
    ensures GetReview(reviews, id).Err? ==> r == Err(GetReview(reviews, id).error) && r.error.NotFound?
    ensures GetReview(reviews, id).Ok? ==>
      var k := GetReview(reviews, id).value;
      (r.Err? <==> !FitsColumns(data) && WithEdits(reviews[k], data) != reviews[k])
    ensures GetReview(reviews, id).Ok? && FitsColumns(reviews[GetReview(reviews, id).value]) && !FitsColumns(data)
      ==> r == Err(ConstraintViolation("reviews"))
    ensures r.Ok? ==>
      var k := GetReview(reviews, id).value;
      && |r.value| == |reviews|
      && (forall j :: 0 <= j < |reviews| && j != k ==> r.value[j] == reviews[j])
      && r.value[k].content == data.content && r.value[k].rating == data.rating
      && r.value[k].machineStrength == data.machineStrength && r.value[k].largeDollCost == data.largeDollCost
      && r.value[k].mediumDollCost == data.mediumDollCost && r.value[k].smallDollCost == data.smallDollCost
      && r.value[k].id == reviews[k].id && r.value[k].userId == reviews[k].userId
      && r.value[k].shopId == reviews[k].shopId && r.value[k].isDeleted == reviews[k].isDeleted
      && r.value[k].createdAt == reviews[k].createdAt
      && (r.value[k].updatedAt == reviews[k].updatedAt || r.value[k].updatedAt == Some(now))
      && (r.value[k] != reviews[k] ==> r.value[k].updatedAt == Some(now))
      && (FitsColumns(reviews[k]) ==> FitsColumns(r.value[k]))
  {
    match GetReview(reviews, id)
    case Err(e) => Err(e)
    case Ok(k) =>
      var edited := WithEdits(reviews[k], data);
      if edited != reviews[k] && !FitsColumns(edited) then Err(ConstraintViolation("reviews"))
      else Ok(reviews[k := Flush(reviews[k], edited, now)])
  }

  /** Every stored row satisfies the NOT NULL columns. */
  predicate Writable(reviews: seq<Review>) {
    forall i :: 0 <= i < |reviews| ==> FitsColumns(reviews[i])
  }

  /** A committed update or create never leaves a row the database would
      have refused. */
  lemma EditsKeepTableWritable(reviews: seq<Review>, id: int, data: Review, nextId: int, now: int)
    requires Writable(reviews)
    ensures UpdateReview(reviews, id, data, now).Ok? ==> Writable(UpdateReview(reviews, id, data, now).value)
    ensures CreateReview(reviews, data, nextId, now).Ok? ==> Writable(CreateReview(reviews, data, nextId, now).value.0)
  {
  }

  /** `deleteReview` and its commit at `now`: sets the flag, with no
      already-deleted check. Deleting a live review refreshes `updatedAt`;
      deleting a deleted one changes nothing. */
  function DeleteReview(reviews: seq<Review>, id: int, now: int): (r: Result<seq<Review>>)
    ensures r.Err? <==> GetReview(reviews, id).Err?
    ensures r.Err? ==> r.error.NotFound?
    ensures r.Ok? ==>
      var k := GetReview(reviews, id).value;
      && |r.value| == |reviews|
      && (forall j :: 0 <= j < |reviews| && j != k ==> r.value[j] == reviews[j])
      && (reviews[k].isDeleted ==> r.value[k] == reviews[k])
      && (!reviews[k].isDeleted ==> r.value[k] == reviews[k].(isDeleted := true, updatedAt := Some(now)))
  {
    match GetReview(reviews, id)
    case Err(e) => Err(e)
    case Ok(k) => Ok(reviews[k := Flush(reviews[k], reviews[k].(isDeleted := true), now)])
  }

  /** Deleting twice is deleting once, whenever the second delete runs. */
  lemma DeleteIdempotent(reviews: seq<Review>, id: int, t1: int, t2: int)
    requires DeleteReview(reviews, id, t1).Ok?
    ensures DeleteReview(DeleteReview(reviews, id, t1).value, id, t2) == DeleteReview(reviews, id, t1)
  {
    var once := DeleteReview(reviews, id, t1).value;
    var k := GetReview(reviews, id).value;
    assert once[k].id == Some(id);
    assert forall j :: 0 <= j < k ==> once[j] == reviews[j];
    var k' := GetReview(once, id).value;
    assert k' == k;
    assert once[k := once[k]] == once;
  }

  /** `ORDER BY createdAt DESC`. */
  function CreatedAtKey(r: Review): SortKey {
    IntKey(r.createdAt)
  }

  /** Which listing is asked for: `getMyReviews(userId)` or
      `getShopReviews(dollShopId)`. */
  datatype Listing = ByUser(userId: int) | ByShop(shopId: int)

  predicate InListing(l: Listing, x: Review) {
    match l
    case ByUser(u) => x.userId == u
    case ByShop(s) => x.shopId == s
  }

  /** `findBy{UserId,DollShopId}AndIsDeletedFalseOrderByCreatedAtDesc`: the
      live reviews of that user or shop, each once, newest first. */
  function LiveReviews(reviews: seq<Review>, l: Listing): (r: seq<Review>)
    ensures SortedBy(r, CreatedAtKey, false)
    ensures forall i :: 0 <= i < |r| ==> r[i] in reviews && !r[i].isDeleted && InListing(l, r[i])
    ensures forall i :: 0 <= i < |reviews| ==>
      (!reviews[i].isDeleted && InListing(l, reviews[i]) ==> reviews[i] in r)
    ensures |r| == Count(reviews, (x: Review) => !x.isDeleted && InListing(l, x))
  {
    var live := Filter(reviews, (x: Review) => !x.isDeleted && InListing(l, x));
    FilterCount(reviews, (x: Review) => !x.isDeleted && InListing(l, x));
    SortByMembers(live, CreatedAtKey, false);
    SortBy(live, CreatedAtKey, false)
  }

  /** A deleted review drops out of every listing. */
  lemma DeletedLeavesListing(reviews: seq<Review>, id: int, now: int, l: Listing)
    requires DeleteReview(reviews, id, now).Ok?
    ensures var k := GetReview(reviews, id).value;
      forall i :: 0 <= i < |LiveReviews(DeleteReview(reviews, id, now).value, l)| ==>
        LiveReviews(DeleteReview(reviews, id, now).value, l)[i] != DeleteReview(reviews, id, now).value[k]
  {
  }

  /** `createReview` is `save(review)`. A review whose id names a stored
      review is merged into that row and committed at `now` like an edit:
      every field is taken from `review`, except that `createdAt` keeps
      its stored value and a changed row gets `updatedAt` now. Any other
      review is inserted under `nextId` with both timestamps `now`. A row
      left without content, rating or machine strength is refused by the
      database and nothing is saved. */
  function CreateReview(reviews: seq<Review>, review: Review, nextId: int, now: int)
    : (r: Result<(seq<Review>, Review)>)
    ensures r.Err? ==> r.error == ConstraintViolation("reviews")
    ensures review.id.None? || GetReview(reviews, review.id.value).Err? ==>
      && (r.Err? <==> !FitsColumns(review))
      && (r.Ok? ==> r.value.0 == reviews + [r.value.1] && FitsColumns(r.value.1))
      && (r.Ok? ==> r.value.1.id == Some(nextId) && r.value.1.createdAt == Some(now)
                    && r.value.1.updatedAt == Some(now))
      && (r.Ok? ==> r.value.1.(id := review.id, createdAt := review.createdAt,
                               updatedAt := review.updatedAt) == review)
    ensures review.id.Some? && GetReview(reviews, review.id.value).Ok? ==>
      var k := GetReview(reviews, review.id.value).value;
      && (r.Err? <==> review != reviews[k] && !FitsColumns(review))
      && (r.Ok? ==>
            && |r.value.0| == |reviews|
            && (forall j :: 0 <= j < |reviews| && j != k ==> r.value.0[j] == reviews[j])
            && r.value.0[k] == r.value.1
            && (review == reviews[k] ==> r.value.1 == reviews[k])
            && r.value.1.createdAt == reviews[k].createdAt
            && r.value.1.(createdAt := review.createdAt, updatedAt := review.updatedAt) == review
            && (r.value.1 != reviews[k] ==> r.value.1.updatedAt == Some(now))
            && (FitsColumns(reviews[k]) ==> FitsColumns(r.value.1)))
  {
    if review.id.Some? && GetReview(reviews, review.id.value).Ok? then
      var k := GetReview(reviews, review.id.value).value;
      if review != reviews[k] && !FitsColumns(review) then Err(ConstraintViolation("reviews"))
      else
        var row := Flush(reviews[k], review, now);
        Ok((reviews[k := row], row))
    else if !FitsColumns(review) then Err(ConstraintViolation("reviews"))
    else
      var saved := OnCreate(review.(id := Some(nextId)), now);
      Ok((reviews + [saved], saved))
  }

  /** Saving a review that carries the id of a stored review adds no row:
      the stored row is overwritten instead. */
  lemma SaveWithStoredIdOverwrites(reviews: seq<Review>, review: Review, nextId: int, now: int)
    requires review.id.Some? && GetReview(reviews, review.id.value).Ok?
    requires FitsColumns(review)
    ensures var r := CreateReview(reviews, review, nextId, now);
      r.Ok? && |r.value.0| == |reviews| && r.value.1.id == review.id
      && r.value.1.userId == review.userId && r.value.1.shopId == review.shopId
      && r.value.1.content == review.content
  {
  }
}
