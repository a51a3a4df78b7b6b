/** The shop record (`DollShop`) and its two transfer objects. Coordinates
    are kept as exact reals: nothing in the core computes with them. */
module Shops {
  import opened Common

  /** A `LocalDate`, as its day number. */
  datatype Date = Date(epochDay: int)

  datatype DollShop = DollShop(
    id: Option<int>,
    businessName: Option<string>,
    longitude: Option<real>,
    latitude: Option<real>,
    address: Option<string>,
    totalGameMachines: Option<int>,
    phone: Option<string>,
    isOperating: Option<bool>,
    approvalDate: Option<Date>,
    gubun1: Option<string>,
    gubun2: Option<string>,
    imagePath: Option<string>)

  datatype DollShopDto = DollShopDto(
    id: Option<int>,
    businessName: Option<string>,
    longitude: Option<real>,
    latitude: Option<real>,
    address: Option<string>,
    totalGameMachines: Option<int>,
    phone: Option<string>,
    isOperating: Option<bool>,
    approvalDate: Option<Date>,
    gubun1: Option<string>,
    gubun2: Option<string>,
    imagePath: Option<string>)

  /** `DollShopDTO.toEntity`. */
  function DtoToEntity(d: DollShopDto): DollShop {
    DollShop(d.id, d.businessName, d.longitude, d.latitude, d.address, d.totalGameMachines,
             d.phone, d.isOperating, d.approvalDate, d.gubun1, d.gubun2, d.imagePath)
  }

  /** `DollShopDTO.from`: null for null, otherwise a copy that converts back
      to the very same entity. */
  function DtoFrom(e: Option<DollShop>): (r: Option<DollShopDto>)
    ensures r.Some? <==> e.Some?
    ensures r.Some? ==> DtoToEntity(r.value) == e.value
  {
    match e
    case None => None
    case Some(s) =>
      Some(DollShopDto(s.id, s.businessName, s.longitude, s.latitude, s.address,
                       s.totalGameMachines, s.phone, s.isOperating, s.approvalDate,
                       s.gubun1, s.gubun2, s.imagePath))
  }

  /** Entity and DTO are the same twelve fields: the conversions are inverse. */
  lemma DtoRoundTrip(d: DollShopDto)
    ensures DtoFrom(Some(DtoToEntity(d))) == Some(d)
  {
  }

  /** One row of the shop list: the shop's fields plus its review statistics. */
  datatype DollShopListDto = DollShopListDto(
    id: Option<int>,
    businessName: Option<string>,
    longitude: Option<real>,
    latitude: Option<real>,
    address: Option<string>,
    totalGameMachines: Option<int>,
    phone: Option<string>,
    isOperating: Option<bool>,
    approvalDate: Option<Date>,
    gubun1: Option<string>,
    gubun2: Option<string>,
    imagePath: Option<string>,
    averageRating: Option<real>,
    reviewCount: Option<int>,
    averageMachineStrength: Option<real>,
    averageLargeCost: Option<real>,
    averageMediumCost: Option<real>,
    averageSmallCost: Option<real>)

  /** `DollShopListDTO.toEntity`: the statistics are dropped. */
  function ListToEntity(d: DollShopListDto): DollShop {
    DollShop(d.id, d.businessName, d.longitude, d.latitude, d.address, d.totalGameMachines,
             d.phone, d.isOperating, d.approvalDate, d.gubun1, d.gubun2, d.imagePath)
  }

  /** The statistics of a shop without reviews, as `from` fills them in. */
  predicate ZeroStats(d: DollShopListDto) {
    d.averageRating == Some(0.0) && d.reviewCount == Some(0)
    && d.averageMachineStrength == Some(0.0) && d.averageLargeCost == Some(0.0)
    && d.averageMediumCost == Some(0.0) && d.averageSmallCost == Some(0.0)
  }

  /** `DollShopListDTO.from`: null for null; otherwise the entity's fields,
      which convert back to the same entity, with zeroed statistics. */
  function ListFrom(e: Option<DollShop>): (r: Option<DollShopListDto>)
    ensures r.Some? <==> e.Some?
    ensures r.Some? ==> ListToEntity(r.value) == e.value && ZeroStats(r.value)
  {
    match e
    case None => None
    case Some(s) =>
      Some(DollShopListDto(s.id, s.businessName, s.longitude, s.latitude, s.address,
                           s.totalGameMachines, s.phone, s.isOperating, s.approvalDate,
                           s.gubun1, s.gubun2, s.imagePath,
                           Some(0.0), Some(0), Some(0.0), Some(0.0), Some(0.0), Some(0.0)))
  }

  /** A list row survives the trip through an entity exactly when its
      statistics are the zeroed defaults. */
  lemma ListRoundTrip(d: DollShopListDto)
    ensures ListFrom(Some(ListToEntity(d))) == Some(d) <==> ZeroStats(d)
  {
  }

  /** The ids of a page of shops, in order: the keys of a batch lookup. */
  function Ids(shops: seq<DollShop>): (ids: seq<Option<int>>)
    ensures |ids| == |shops| && forall i :: 0 <= i < |shops| ==> ids[i] == shops[i].id
  {
    seq(|shops|, i requires 0 <= i < |shops| => shops[i].id)
  }

  /** `findById` on the shop table. */
  function FindShop(shops: seq<DollShop>, id: int): (r: Option<DollShop>)
    ensures r.Some? ==> r.value in shops && r.value.id == Some(id)
    ensures r.None? <==> forall i :: 0 <= i < |shops| ==> shops[i].id != Some(id)
  {
    if shops == [] then None
    else if shops[0].id == Some(id) then Some(shops[0])
    else FindShop(shops[1..], id)
  }
}
