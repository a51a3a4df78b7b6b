/** The review record (`ReviewEntity`), its lifecycle hooks, and the two
    request bodies that create and edit it. Timestamps are clock readings
    (`LocalDateTime.now()` arrives as the parameter `now`). */
module Reviews {
  import opened Common
  import opened Users
  import Shops

  /** A stored review. The shop is referenced by its id. */
  datatype ReviewEntity = ReviewEntity(
    id: Option<int>,
    user: Option<UserEntity>,
    shopId: Option<int>,
    content: Option<string>,
    rating: Option<int>,
    machineStrength: Option<int>,
    largeDollCost: Option<int>,
    mediumDollCost: Option<int>,
    smallDollCost: Option<int>,
    isDeleted: bool,
    createdAt: Option<int>,
    updatedAt: Option<int>)

  /** A rating-style value: present and within 1..5 (`@NotNull @Min(1) @Max(5)`). */
  predicate StarValue(v: Option<int>) {
    v.Some? && 1 <= v.value <= 5
  }

  /** What the database and the validated requests guarantee about a live
      review: an author, a shop, text, and both scores in range. */
  predicate WellFormed(r: ReviewEntity) {
    r.user.Some? && r.shopId.Some? && NotBlank(r.content)
    && StarValue(r.rating) && StarValue(r.machineStrength)
  }

  /** `softDelete`: a second deletion is refused. */
  function SoftDelete(r: ReviewEntity): (res: Result<ReviewEntity>)
    ensures res.Err? <==> r.isDeleted
    ensures res.Err? ==> res.error == AlreadyDeleted
    ensures res.Ok? ==> res.value.isDeleted && res.value.(isDeleted := r.isDeleted) == r
  {
    if r.isDeleted then Err(AlreadyDeleted) else Ok(r.(isDeleted := true))
  }

  /** `isWrittenBy`. */
  predicate IsWrittenByName(r: ReviewEntity, name: string) {
    IsWrittenBy(r.user, name)
  }

  /** The six editable fields of a review. */
  datatype Edit = Edit(content: Option<string>, rating: Option<int>, machineStrength: Option<int>,
                       largeDollCost: Option<int>, mediumDollCost: Option<int>,
                       smallDollCost: Option<int>)

  function EditOf(r: ReviewEntity): Edit {
    Edit(r.content, r.rating, r.machineStrength, r.largeDollCost, r.mediumDollCost, r.smallDollCost)
  }

  /** `update`: the six editable fields take the given values (a null cost
      clears the stored one); author, shop, deletion flag and timestamps stay. */
  function Update(r: ReviewEntity, e: Edit): (r': ReviewEntity)
    ensures EditOf(r') == e
    ensures r'.id == r.id && r'.user == r.user && r'.shopId == r.shopId
    ensures r'.isDeleted == r.isDeleted && r'.createdAt == r.createdAt && r'.updatedAt == r.updatedAt
  {
    r.(content := e.content, rating := e.rating, machineStrength := e.machineStrength,
       largeDollCost := e.largeDollCost, mediumDollCost := e.mediumDollCost,
       smallDollCost := e.smallDollCost)
  }

  /** Applying an edit twice is applying it once, and re-applying a review's
      own values changes nothing. */
  lemma UpdateIdempotent(r: ReviewEntity, e: Edit)
    ensures Update(Update(r, e), e) == Update(r, e)
    ensures Update(r, EditOf(r)) == r
  {
  }

  /** `@PrePersist onCreate`: only missing timestamps are filled in. */
  function OnCreate(r: ReviewEntity, now: int): (r': ReviewEntity)
    ensures r'.createdAt == (if r.createdAt.Some? then r.createdAt else Some(now))
    ensures r'.updatedAt == (if r.updatedAt.Some? then r.updatedAt else Some(now))
    ensures r'.(createdAt := r.createdAt, updatedAt := r.updatedAt) == r
  {
    r.(createdAt := Some(r.createdAt.GetOr(now)), updatedAt := Some(r.updatedAt.GetOr(now)))
  }

  /** `@PreUpdate onUpdate`. */
  function OnUpdate(r: ReviewEntity, now: int): (r': ReviewEntity)
    ensures r'.updatedAt == Some(now)
    ensures r'.(updatedAt := r.updatedAt) == r
  {
    r.(updatedAt := Some(now))
  }

  /** The row the database holds after a transaction commits, given the row
      as loaded (`stored`) and the managed object at commit (`current`):
      an unchanged object issues no UPDATE; a changed one passes through
      `onUpdate`, and `createdAt` (`updatable = false`) keeps its stored value. */
  function Flush(stored: ReviewEntity, current: ReviewEntity, now: int): (row: ReviewEntity)
    ensures current == stored ==> row == stored
    ensures row.createdAt == stored.createdAt
    ensures current != stored ==>
      (row.updatedAt == Some(now)
       && row.(createdAt := current.createdAt, updatedAt := current.updatedAt) == current)
  {
    if current == stored then stored
    else OnUpdate(current, now).(createdAt := stored.createdAt)
  }

  /** The body of `POST /api/reviews`. */
  datatype ReviewCreateDto = ReviewCreateDto(
    dollShopId: Option<int>,
    content: Option<string>,
    rating: Option<int>,
    machineStrength: Option<int>,
    largeDollCost: Option<int>,
    mediumDollCost: Option<int>,
    smallDollCost: Option<int>)

  /** The constrained fields of the two request bodies. */
  datatype Field = DollShopIdField | ContentField | RatingField | MachineStrengthField

  /** Bean validation of a create request: the set of fields whose
      constraint fails (the costs carry none). */
  function CreateViolations(d: ReviewCreateDto): (v: set<Field>)
    ensures DollShopIdField in v <==> d.dollShopId.None?
    ensures ContentField in v <==> !NotBlank(d.content)
    ensures RatingField in v <==> !StarValue(d.rating)
    ensures MachineStrengthField in v <==> !StarValue(d.machineStrength)
    ensures v <= {DollShopIdField, ContentField, RatingField, MachineStrengthField}
  {
    (if d.dollShopId.None? then {DollShopIdField} else {})
    + (if !NotBlank(d.content) then {ContentField} else {})
    + (if !StarValue(d.rating) then {RatingField} else {})
    + (if !StarValue(d.machineStrength) then {MachineStrengthField} else {})
  }

  /** `toEntity(user, shop)`: a new, undeleted review by `user` of `shop`
      carrying the request's text, scores and costs. */
  function CreateToEntity(d: ReviewCreateDto, user: UserEntity, shop: Shops.DollShop): (r: ReviewEntity)
    ensures r.user == Some(user) && r.shopId == shop.id && !r.isDeleted
    ensures EditOf(r) == Edit(d.content, d.rating, d.machineStrength,
                              d.largeDollCost, d.mediumDollCost, d.smallDollCost)
    ensures r.id.None? && r.createdAt.None? && r.updatedAt.None?
  {
    ReviewEntity(None, Some(user), shop.id, d.content, d.rating, d.machineStrength,
                 d.largeDollCost, d.mediumDollCost, d.smallDollCost, false, None, None)
  }

  /** A request that passes validation, for a stored shop, yields a
      well-formed review. */
  lemma ValidCreateIsWellFormed(d: ReviewCreateDto, user: UserEntity, shop: Shops.DollShop)
    requires CreateViolations(d) == {}
    requires shop.id.Some?
    ensures WellFormed(CreateToEntity(d, user, shop))
  {
    assert ContentField !in CreateViolations(d);
    assert RatingField !in CreateViolations(d);
    assert MachineStrengthField !in CreateViolations(d);
  }

  /** The body of `PUT /api/reviews/{id}`. */
  datatype ReviewUpdateDto = ReviewUpdateDto(
    content: Option<string>,
    rating: Option<int>,
    machineStrength: Option<int>,
    largeDollCost: Option<int>,
    mediumDollCost: Option<int>,
    smallDollCost: Option<int>)

  function UpdateViolations(d: ReviewUpdateDto): (v: set<Field>)
    ensures ContentField in v <==> !NotBlank(d.content)
    ensures RatingField in v <==> !StarValue(d.rating)
    ensures MachineStrengthField in v <==> !StarValue(d.machineStrength)
    ensures DollShopIdField !in v
  {
    (if !NotBlank(d.content) then {ContentField} else {})
    + (if !StarValue(d.rating) then {RatingField} else {})
    + (if !StarValue(d.machineStrength) then {MachineStrengthField} else {})
  }

  /** `updateEntity`: hands all six values to `update`. */
  function UpdateEntity(d: ReviewUpdateDto, r: ReviewEntity): (r': ReviewEntity)
    ensures EditOf(r') == Edit(d.content, d.rating, d.machineStrength,
                               d.largeDollCost, d.mediumDollCost, d.smallDollCost)
    ensures d.largeDollCost.None? ==> r'.largeDollCost.None?
  {
    Update(r, Edit(d.content, d.rating, d.machineStrength,
                   d.largeDollCost, d.mediumDollCost, d.smallDollCost))
  }

  /** A validated edit keeps a well-formed review well-formed. */
  lemma ValidUpdatePreservesWellFormed(d: ReviewUpdateDto, r: ReviewEntity)
    requires UpdateViolations(d) == {}
    requires WellFormed(r)
    ensures WellFormed(UpdateEntity(d, r))
  {
    assert ContentField !in UpdateViolations(d);
    assert RatingField !in UpdateViolations(d);
    assert MachineStrengthField !in UpdateViolations(d);
  }
}
