/** The older shop search (`dollshop.DollShopRepositoryCustomImpl`): the
    operating flag is an optional filter, the order is always `id`
    descending, there are no review statistics, and a shop without a
    thumbnail keeps its stored image. */
module LegacyShopSearch {
  import opened Common
  import opened Shops
  import opened Files
  import opened Paging
  import opened Sorting
  import Collect
  import ShopSearch

  /** `eqIsOperating(Boolean)`: null is no condition. */
  predicate OperatingFilter(filter: Option<bool>, s: DollShop) {
    filter.None? || s.isOperating == filter
  }

  predicate Matches(s: DollShop, dto: ShopSearch.SearchDto) {
    ShopSearch.EqGubun(dto.gubun1, s.gubun1) && ShopSearch.EqGubun(dto.gubun2, s.gubun2)
    && OperatingFilter(dto.isOperating, s) && ShopSearch.ContainsKeyword(s, dto.keyword)
  }

  /** The matching shops, `id` descending. */
  function OrderedMatches(shops: seq<DollShop>, dto: ShopSearch.SearchDto): (r: seq<DollShop>)
    ensures SortedBy(r, (s: DollShop) => IntKey(s.id), false)
    ensures forall i :: 0 <= i < |r| ==> r[i] in shops && Matches(r[i], dto)
    ensures forall i :: 0 <= i < |shops| && Matches(shops[i], dto) ==> shops[i] in r
    ensures |r| == Count(shops, (s: DollShop) => Matches(s, dto))
  {
    var matching := Filter(shops, (s: DollShop) => Matches(s, dto));
    FilterCount(shops, (s: DollShop) => Matches(s, dto));
    SortByMembers(matching, (s: DollShop) => IntKey(s.id), false);
    SortBy(matching, (s: DollShop) => IntKey(s.id), false)
  }

  /** The shop as listed: its first DOLL_SHOP thumbnail replaces the image
      when there is one; otherwise the stored image stays. */
  function WithThumbnail(files: seq<FileEntity>, s: DollShop): (r: DollShop)
    ensures r.(imagePath := s.imagePath) == s
    ensures s.id.Some? && FirstFileFor(files, s.id.value, Some(DOLL_SHOP), Some(THUMBNAIL)).Some?
            ==> r.imagePath.Some? && UploadsPrefix <= r.imagePath.value
    ensures s.id.None? || FirstFileFor(files, s.id.value, Some(DOLL_SHOP), Some(THUMBNAIL)).None? ==> r == s
    ensures s.id.Some? && FirstFileFor(files, s.id.value, Some(DOLL_SHOP), Some(THUMBNAIL)).Some?
            ==> r.imagePath == Some(UploadUrl(FirstFileFor(files, s.id.value, Some(DOLL_SHOP), Some(THUMBNAIL)).value))
  {
    if s.id.None? then s
    else
      match FirstFileFor(files, s.id.value, Some(DOLL_SHOP), Some(THUMBNAIL))
      case None => s
      case Some(f) => s.(imagePath := Some(UploadUrl(f)))
  }

  /** The batch thumbnail lookup over one page of shops. */
  function SetThumbnails(window: seq<DollShop>, files: seq<FileEntity>): (rows: seq<DollShop>)
    ensures |rows| == |window|
    ensures forall i :: 0 <= i < |window| ==> rows[i] == WithThumbnail(files, window[i])
  {
    var imageMap := FindFilePathMapByRefIds(files, Ids(window), Some(DOLL_SHOP), Some(THUMBNAIL));
    var rows := seq(|window|, i requires 0 <= i < |window| =>
      if window[i].id.Some? && window[i].id.value in imageMap
      then window[i].(imagePath := Some(imageMap[window[i].id.value]))
      else window[i]);
    forall i | 0 <= i < |window| && window[i].id.Some?
      ensures rows[i] == WithThumbnail(files, window[i])
    {
      assert Ids(window)[i] == window[i].id;
    }
    rows
  }

  /** `searchByConditions`: one page of matches, each with its thumbnail,
      and the match count as total (adjusted by `PageImpl`). */
  function SearchByConditions(shops: seq<DollShop>, files: seq<FileEntity>,
                              dto: ShopSearch.SearchDto, req: PageRequest)
    : (p: Page<DollShop>)
    ensures var ordered := OrderedMatches(shops, dto);
      && |p.content| == |Slice(ordered, req.Offset(), req.size)|
      && forall i :: 0 <= i < |p.content| ==>
           p.content[i] == WithThumbnail(files, ordered[req.Offset() + i])
    ensures var count := Count(shops, (s: DollShop) => Matches(s, dto));
      p.total == count
  {
    var ordered := OrderedMatches(shops, dto);
    var window := Slice(ordered, req.Offset(), req.size);
    var rows := SetThumbnails(window, files);
    assert forall i :: 0 <= i < |rows| ==> rows[i] == WithThumbnail(files, ordered[req.Offset() + i]);
    PageOf(rows, req, Count(shops, (s: DollShop) => Matches(s, dto)))
  }

  /** The WHERE clause of the older map query: the region filters only. */
  predicate MapMatches(s: DollShop, gubun1: Option<string>, gubun2: Option<string>) {
    ShopSearch.EqGubun(gubun1, s.gubun1) && ShopSearch.EqGubun(gubun2, s.gubun2)
  }

  /** `searchForMap`: only the region filters, every match once, `id`
      descending. */
  function SearchForMap(shops: seq<DollShop>, dto: ShopSearch.SearchDto): (r: seq<DollShop>)
    ensures SortedBy(r, (s: DollShop) => IntKey(s.id), false)
    ensures forall i :: 0 <= i < |r| ==>
      r[i] in shops && ShopSearch.EqGubun(dto.gubun1, r[i].gubun1) && ShopSearch.EqGubun(dto.gubun2, r[i].gubun2)
    ensures forall i :: 0 <= i < |shops| ==>
      (ShopSearch.EqGubun(dto.gubun1, shops[i].gubun1) && ShopSearch.EqGubun(dto.gubun2, shops[i].gubun2)
       ==> shops[i] in r)
    ensures |r| == Count(shops, (s: DollShop) => MapMatches(s, dto.gubun1, dto.gubun2))
  {
    var matching := Filter(shops, (s: DollShop) => MapMatches(s, dto.gubun1, dto.gubun2));
    FilterCount(shops, (s: DollShop) => MapMatches(s, dto.gubun1, dto.gubun2));
    SortByMembers(matching, (s: DollShop) => IntKey(s.id), false);
    SortBy(matching, (s: DollShop) => IntKey(s.id), false)
  }

  /** With the operating filter set to true, the older list matches exactly
      the shops the current list matches. */
  lemma OperatingTrueAgreesWithCurrent(s: DollShop, dto: ShopSearch.SearchDto)
    requires dto.isOperating == Some(true)
    ensures Matches(s, dto) <==> ShopSearch.ListMatches(s, dto)
  {
  }

  /** The older map also lists closed shops: every shop the current map
      lists, the older one lists too. */
  lemma MapIncludesCurrent(shops: seq<DollShop>, dto: ShopSearch.SearchDto)
    ensures forall i :: 0 <= i < |ShopSearch.SearchForMap(shops, dto)| ==>
      ShopSearch.SearchForMap(shops, dto)[i] in SearchForMap(shops, dto)
  {
    var cur := ShopSearch.SearchForMap(shops, dto);
    var old' := SearchForMap(shops, dto);
    forall i | 0 <= i < |cur| ensures cur[i] in old' {
      var j :| 0 <= j < |shops| && shops[j] == cur[i];
    }
  }
}
