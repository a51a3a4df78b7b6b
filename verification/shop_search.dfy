/** The shop list and map searches (`dollshop.repositroy.DollShopRepositoryCustomImpl`):
    region, operating and keyword filters, a sort chosen from the request,
    review statistics per shop, a page window, and the thumbnail join. */
module ShopSearch {
  import opened Common
  import opened Shops
  import opened Reviews
  import opened Files
  import opened Paging
  import opened Sorting
  import opened ReviewService
  import Collect
  import Aggregates

  /** The search parameters (`DollShopSearchDTO`). The operating flag is
      read only by the older search. */
  datatype SearchDto = SearchDto(gubun1: Option<string>, gubun2: Option<string>,
                                 keyword: Option<string>, isOperating: Option<bool>)

  /** One `Sort.Order` of the request. */
  datatype Order = Order(property: string, descending: bool)

  /** The seven list columns a request may sort by. */
  datatype SortField = AverageRating | ReviewCount | TotalGameMachines | AverageMachineStrength
                     | AverageLargeCost | AverageMediumCost | AverageSmallCost

  function FieldName(f: SortField): string {
    match f
    case AverageRating => "averageRating"
    case ReviewCount => "reviewCount"
    case TotalGameMachines => "totalGameMachines"
    case AverageMachineStrength => "averageMachineStrength"
    case AverageLargeCost => "averageLargeCost"
    case AverageMediumCost => "averageMediumCost"
    case AverageSmallCost => "averageSmallCost"
  }

  function ParseField(prop: string): (r: Option<SortField>)
    ensures r.Some? ==> FieldName(r.value) == prop
    ensures r.None? <==> forall f: SortField :: FieldName(f) != prop
  {
    if prop == "averageRating" then Some(AverageRating)
    else if prop == "reviewCount" then Some(ReviewCount)
    else if prop == "totalGameMachines" then Some(TotalGameMachines)
    else if prop == "averageMachineStrength" then Some(AverageMachineStrength)
    else if prop == "averageLargeCost" then Some(AverageLargeCost)
    else if prop == "averageMediumCost" then Some(AverageMediumCost)
    else if prop == "averageSmallCost" then Some(AverageSmallCost)
    else None
  }

  /** The ORDER BY the list query uses. */
  datatype OrderSpec = IdDesc | By(field: SortField, asc: bool)

  /** `getSortOrder`: only the first requested order is read; an unknown
      property (including `id`) or no order at all gives `id desc`. */
  function GetSortOrder(sort: seq<Order>): (o: OrderSpec)
    ensures sort == [] ==> o == IdDesc
    ensures o.By? ==> sort != [] && FieldName(o.field) == sort[0].property && o.asc == !sort[0].descending
    ensures sort != [] && (forall f: SortField :: FieldName(f) != sort[0].property) ==> o == IdDesc
  {
    if sort == [] then IdDesc
    else
      match ParseField(sort[0].property)
      case None => IdDesc
      case Some(f) => By(f, !sort[0].descending)
  }

  /** Orders after the first are ignored. */
  lemma OnlyFirstOrderCounts(first: Order, rest: seq<Order>)
    ensures GetSortOrder([first] + rest) == GetSortOrder([first])
  {
  }

  /** Asking for `id` ascending still sorts by `id` descending. */
  lemma IdAscendingIsIdDescending()
    ensures GetSortOrder([Order("id", false)]) == IdDesc
  {
    assert ParseField("id").None?;
  }

  /** `eqGubun1`/`eqGubun2`: a null or empty filter is no condition;
      otherwise the column must equal it (a NULL column never does). */
  predicate EqGubun(filter: Option<string>, column: Option<string>) {
    filter.None? || filter.value == "" || column == filter
  }

  /** `containsKeyword`: a null or empty keyword is no condition; otherwise
      it must occur, ignoring case, in the name or in the address. */
  predicate ContainsKeyword(s: DollShop, keyword: Option<string>) {
    keyword.None? || keyword.value == ""
    || ContainsIgnoreCase(s.businessName, keyword.value) || ContainsIgnoreCase(s.address, keyword.value)
  }

  /** `eqIsOperating()`: the list and the map only ever show open shops. */
  predicate IsOpen(s: DollShop) {
    s.isOperating == Some(true)
  }

  /** The WHERE clause of the list query and of its count query. */
  predicate ListMatches(s: DollShop, dto: SearchDto) {
    EqGubun(dto.gubun1, s.gubun1) && EqGubun(dto.gubun2, s.gubun2) && IsOpen(s)
    && ContainsKeyword(s, dto.keyword)
  }

  /** The shop's live reviews, as the LEFT JOIN on shop and `isDeleted = false`
      collects them. */
  function ShopReviews(reviews: seq<ReviewEntity>, s: DollShop): seq<ReviewEntity> {
    if s.id.None? then [] else LiveReviews(reviews, s.id.value)
  }

  function RealKey(v: Option<real>): SortKey {
    if v.None? then NullKey else KeyValue(v.value)
  }

  /** The value the ORDER BY compares for one shop. Averages over no review
      are NULL here: the sort reads `avg()` without `coalesce`. */
  function ShopKey(spec: OrderSpec, reviews: seq<ReviewEntity>, s: DollShop): SortKey {
    var live := ShopReviews(reviews, s);
    match spec
    case IdDesc => IntKey(s.id)
    case By(f, _) =>
      match f
      case AverageRating => RealKey(Aggregates.Avg(Column(live, (r: ReviewEntity) => r.rating)))
      case ReviewCount => KeyValue(|live| as real)
      case TotalGameMachines => IntKey(s.totalGameMachines)
      case AverageMachineStrength => RealKey(Aggregates.Avg(Column(live, (r: ReviewEntity) => r.machineStrength)))
      case AverageLargeCost => RealKey(Aggregates.Avg(Column(live, (r: ReviewEntity) => r.largeDollCost)))
      case AverageMediumCost => RealKey(Aggregates.Avg(Column(live, (r: ReviewEntity) => r.mediumDollCost)))
      case AverageSmallCost => RealKey(Aggregates.Avg(Column(live, (r: ReviewEntity) => r.smallDollCost)))
  }

  function Ascending(spec: OrderSpec): bool {
    spec.By? && spec.asc
  }

  /** All shops the list query matches, in the requested order. */
  function OrderedMatches(shops: seq<DollShop>, reviews: seq<ReviewEntity>, dto: SearchDto,
                          spec: OrderSpec): (r: seq<DollShop>)
    ensures SortedBy(r, (s: DollShop) => ShopKey(spec, reviews, s), Ascending(spec))
    ensures forall i :: 0 <= i < |r| ==> r[i] in shops && ListMatches(r[i], dto)
    ensures forall i :: 0 <= i < |shops| && ListMatches(shops[i], dto) ==> shops[i] in r
    ensures |r| == Count(shops, (s: DollShop) => ListMatches(s, dto))
  {
    var matching := Filter(shops, (s: DollShop) => ListMatches(s, dto));
    FilterCount(shops, (s: DollShop) => ListMatches(s, dto));
    SortByMembers(matching, (s: DollShop) => ShopKey(spec, reviews, s), Ascending(spec));
    SortBy(matching, (s: DollShop) => ShopKey(spec, reviews, s), Ascending(spec))
  }

  const DefaultImage: string := "/images/default.png"

  /** The list's image for a shop: its first DOLL_SHOP thumbnail, else the
      default picture. */
  function ThumbnailOrDefault(files: seq<FileEntity>, id: Option<int>): string {
    if id.None? then DefaultImage
    else
      match FirstFileFor(files, id.value, Some(DOLL_SHOP), Some(THUMBNAIL))
      case None => DefaultImage
      case Some(f) => UploadUrl(f)
  }

  function Coalesce(v: Option<real>): real {
    v.GetOr(0.0)
  }

  /** One list row: the shop's fields, its review statistics with null
      averages shown as 0.0, and the given image. */
  function Row(s: DollShop, reviews: seq<ReviewEntity>, imagePath: string): (d: DollShopListDto)
    ensures ListToEntity(d) == s.(imagePath := Some(imagePath))
    ensures d.reviewCount == Some(|ShopReviews(reviews, s)|)
  {
    var live := ShopReviews(reviews, s);
    DollShopListDto(s.id, s.businessName, s.longitude, s.latitude, s.address, s.totalGameMachines,
                    s.phone, s.isOperating, s.approvalDate, s.gubun1, s.gubun2, Some(imagePath),
                    Some(Coalesce(Aggregates.Avg(Column(live, (r: ReviewEntity) => r.rating)))),
                    Some(|live|),
                    Some(Coalesce(Aggregates.Avg(Column(live, (r: ReviewEntity) => r.machineStrength)))),
                    Some(Coalesce(Aggregates.Avg(Column(live, (r: ReviewEntity) => r.largeDollCost)))),
                    Some(Coalesce(Aggregates.Avg(Column(live, (r: ReviewEntity) => r.mediumDollCost)))),
                    Some(Coalesce(Aggregates.Avg(Column(live, (r: ReviewEntity) => r.smallDollCost)))))
  }

  /** `mapThumbnails`: one batch lookup of the window's thumbnails, first
      file per shop, default picture otherwise. */
  function MapThumbnails(window: seq<DollShop>, reviews: seq<ReviewEntity>, files: seq<FileEntity>)
    : (rows: seq<DollShopListDto>)
    ensures |rows| == |window|
    ensures forall i :: 0 <= i < |window| ==>
      rows[i] == Row(window[i], reviews, ThumbnailOrDefault(files, window[i].id))
  {
    var imageMap := FindFilePathMapByRefIds(files, Ids(window), Some(DOLL_SHOP), Some(THUMBNAIL));
    var rows := seq(|window|, i requires 0 <= i < |window| =>
      Row(window[i], reviews,
          if window[i].id.None? then DefaultImage
          else Collect.GetOrDefault(imageMap, window[i].id.value, DefaultImage)));
    forall i | 0 <= i < |window| && window[i].id.Some?
      ensures Collect.GetOrDefault(imageMap, window[i].id.value, DefaultImage)
              == ThumbnailOrDefault(files, window[i].id)
    {
      assert Ids(window)[i] == window[i].id;
    }
    rows
  }

  /** `searchByConditions(dto, pageable)`. */
  function SearchByConditions(shops: seq<DollShop>, reviews: seq<ReviewEntity>, files: seq<FileEntity>,
                              dto: SearchDto, sort: seq<Order>, req: PageRequest)
    : (p: Page<DollShopListDto>)
    ensures |p.content| <= req.size
    ensures forall i :: 0 <= i < |p.content| ==> p.content[i].isOperating == Some(true)
    ensures var ordered := OrderedMatches(shops, reviews, dto, GetSortOrder(sort));
      && |p.content| == |Slice(ordered, req.Offset(), req.size)|
      && forall i :: 0 <= i < |p.content| ==>
           var s := ordered[req.Offset() + i];
           ListToEntity(p.content[i]) == s.(imagePath := Some(ThumbnailOrDefault(files, s.id)))
           && p.content[i].reviewCount == Some(|ShopReviews(reviews, s)|)
    ensures p.content == [] ==> p.total == 0
    ensures var count := Count(shops, (s: DollShop) => ListMatches(s, dto));
      p.content != [] ==> p.total == count
  {
    var spec := GetSortOrder(sort);
    var ordered := OrderedMatches(shops, reviews, dto, spec);
    var window := Slice(ordered, req.Offset(), req.size);
    if window == [] then Page([], 0)
    else
      var rows := MapThumbnails(window, reviews, files);
      assert forall i :: 0 <= i < |rows| ==> rows[i].isOperating == window[i].isOperating;
      PageOf(rows, req, Count(shops, (s: DollShop) => ListMatches(s, dto)))
  }

  /** A page past the last match is reported with total 0 even though
      matching shops exist. */
  lemma PastTheEndReportsZero(shops: seq<DollShop>, reviews: seq<ReviewEntity>, files: seq<FileEntity>,
                              dto: SearchDto, sort: seq<Order>, req: PageRequest)
    requires req.Offset() >= Count(shops, (s: DollShop) => ListMatches(s, dto))
    ensures SearchByConditions(shops, reviews, files, dto, sort, req) == Page([], 0)
  {
  }

  /** The WHERE clause of the map query: the region filters and open shops. */
  predicate MapMatches(s: DollShop, gubun1: Option<string>, gubun2: Option<string>) {
    EqGubun(gubun1, s.gubun1) && EqGubun(gubun2, s.gubun2) && IsOpen(s)
  }

  /** `searchForMap`: region filters and open shops, keyword ignored, every
      match once, `id` descending. */
  function SearchForMap(shops: seq<DollShop>, dto: SearchDto): (r: seq<DollShop>)
    ensures SortedBy(r, (s: DollShop) => IntKey(s.id), false)
    ensures forall i :: 0 <= i < |r| ==>
      r[i] in shops && IsOpen(r[i]) && EqGubun(dto.gubun1, r[i].gubun1) && EqGubun(dto.gubun2, r[i].gubun2)
    ensures forall i :: 0 <= i < |shops| ==>
      (IsOpen(shops[i]) && EqGubun(dto.gubun1, shops[i].gubun1) && EqGubun(dto.gubun2, shops[i].gubun2)
       ==> shops[i] in r)
    ensures |r| == Count(shops, (s: DollShop) => MapMatches(s, dto.gubun1, dto.gubun2))
  {
    var matching := Filter(shops, (s: DollShop) => MapMatches(s, dto.gubun1, dto.gubun2));
    FilterCount(shops, (s: DollShop) => MapMatches(s, dto.gubun1, dto.gubun2));
    SortByMembers(matching, (s: DollShop) => IntKey(s.id), false);
    SortBy(matching, (s: DollShop) => IntKey(s.id), false)
  }

  /** The map ignores the keyword: a search with and without one lists the
      same shops. */
  lemma MapIgnoresKeyword(shops: seq<DollShop>, dto: SearchDto, keyword: Option<string>)
    ensures SearchForMap(shops, dto.(keyword := keyword)) == SearchForMap(shops, dto)
  {
    assert (dto.(keyword := keyword)).gubun1 == dto.gubun1;
    assert (dto.(keyword := keyword)).gubun2 == dto.gubun2;
  }
}
