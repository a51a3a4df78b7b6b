/** Seeding the shop table from per-region JSON files: one record is turned
    into a `DollShop`, records that fail are skipped, and tables are seeded
    only while empty. Two variants exist: the nested initializer in
    `HomeController` (defaults for missing values, a blank-address guard,
    success and failure counters) and `service.DataInitializer` (no defaults,
    no guard, no counters). Reading the files is outside the model: each
    file arrives already read, unreadable, or missing. */
module ShopLoading {
  import opened Common
  import opened Shops
  import opened Users
  import Addresses

  /** A JSON value as Jackson hands it over in an untyped map. Integral
      numbers and decimals are kept apart; arrays and objects are `JOther`.
      A JSON `null` reads like an absent key. */
  datatype Json = JString(s: string) | JInt(i: int) | JDecimal(d: real) | JBool(b: bool) | JOther

  type Record = map<string, Json>

  predicate IsNumber(v: Json) {
    v.JInt? || v.JDecimal?
  }

  /** `(String) data.get(key)`: null when absent, a cast failure otherwise. */
  function StringField(rec: Record, key: string): (r: Result<Option<string>>)
    ensures r.Err? <==> key in rec && !rec[key].JString?
    ensures r.Ok? ==> r.value == (if key in rec then Some(rec[key].s) else None)
  {
    if key !in rec then Ok(None)
    else if rec[key].JString? then Ok(Some(rec[key].s))
    else Err(ClassCast(key))
  }

  const IntMin: int := -0x8000_0000
  const IntMax: int := 0x7fff_ffff
  const LongMin: int := -0x8000_0000_0000_0000
  const LongMax: int := 0x7fff_ffff_ffff_ffff

  /** Two's-complement narrowing to 32 bits (`Long.intValue()`,
      `BigInteger.intValue()`). */
  function Wrap32(i: int): (r: int)
    ensures IntMin <= r <= IntMax
    ensures IntMin <= i <= IntMax ==> r == i
  {
    (i + 0x8000_0000) % 0x1_0000_0000 - 0x8000_0000
  }

  /** Two's-complement narrowing to 64 bits (`BigInteger.longValue()`). */
  function Wrap64(i: int): (r: int)
    ensures LongMin <= r <= LongMax
    ensures LongMin <= i <= LongMax ==> r == i
  {
    (i + 0x8000_0000_0000_0000) % 0x1_0000_0000_0000_0000 - 0x8000_0000_0000_0000
  }

  /** A double's conversion to an integral type: toward zero, saturating. */
  function TruncateSaturating(d: real, lo: int, hi: int): (r: int)
    requires lo <= 0 <= hi
    ensures lo <= r <= hi
    ensures lo <= d.Floor && d.Floor + 1 <= hi && d >= 0.0 ==> r == d.Floor
  {
    var t := if d >= 0.0 then d.Floor else -((-d).Floor);
    if t < lo then lo else if t > hi then hi else t
  }

  /** `((Number) v).longValue()`. */
  function LongValue(v: Json): (r: int)
    requires IsNumber(v)
    ensures LongMin <= r <= LongMax
    ensures v.JInt? && LongMin <= v.i <= LongMax ==> r == v.i
  {
    if v.JInt? then Wrap64(v.i) else TruncateSaturating(v.d, LongMin, LongMax)
  }

  /** `((Number) v).intValue()`. */
  function IntValue(v: Json): (r: int)
    requires IsNumber(v)
    ensures IntMin <= r <= IntMax
    ensures v.JInt? && IntMin <= v.i <= IntMax ==> r == v.i
  {
    if v.JInt? then Wrap32(v.i) else TruncateSaturating(v.d, IntMin, IntMax)
  }

  /** `((Number) v).doubleValue()`, rounding not modelled. */
  function DoubleValue(v: Json): real
    requires IsNumber(v)
  {
    if v.JInt? then v.i as real else v.d
  }

  /** The value under `key` is absent or satisfies `p`. */
  predicate Optional(rec: Record, key: string, p: Json -> bool) {
    key in rec ==> p(rec[key])
  }

  /** The value under `key` is present and satisfies `p`. */
  predicate Required(rec: Record, key: string, p: Json -> bool) {
    key in rec && p(rec[key])
  }

  predicate IsString(v: Json) { v.JString? }
  predicate IsBool(v: Json) { v.JBool? }

  /** When the lenient conversion succeeds: an address that is a non-blank
      string, every other value of the right JSON type when present, and an
      approval date that parses when present. */
  predicate LenientConvertible(rec: Record, parseDate: string -> Option<Date>) {
    Required(rec, "address", IsString) && !IsBlank(rec["address"].s)
    && Optional(rec, "id", IsNumber) && Optional(rec, "businessName", IsString)
    && Optional(rec, "longitude", IsNumber) && Optional(rec, "latitude", IsNumber)
    && Optional(rec, "totalGameMachines", IsNumber) && Optional(rec, "phone", IsString)
    && Optional(rec, "isOperating", IsBool)
    && Optional(rec, "approvalDate", (v: Json) => v.JString? && parseDate(v.s).Some?)
  }

  /** `HomeController.DataInitializer.convertToDollShop`. Missing values
      take defaults: coordinates 0.0, machines 0, operating true, approval
      date today; a missing id stays null. */
  function ConvertLenient(rec: Record, today: Date, parseDate: string -> Option<Date>)
    : (r: Result<DollShop>)
    ensures r.Ok? <==> LenientConvertible(rec, parseDate)
    ensures !Optional(rec, "address", IsString) ==> r.Err? && r.error.ClassCast?
    ensures (Optional(rec, "address", IsString) && ("address" !in rec || IsBlank(rec["address"].s)))
            ==> r.Err? && r.error.InvalidArgument?
    ensures r.Ok? ==>
      var a := rec["address"].s;
      && r.value.address == Some(a)
      && r.value.gubun1 == Some(Addresses.ParseAddressGuarded(Some(a)).gubun1)
      && r.value.gubun2 == Some(Addresses.ParseAddressGuarded(Some(a)).gubun2)
      && r.value.imagePath.None?
    ensures r.Ok? ==> (r.value.id.Some? <==> "id" in rec)
    ensures r.Ok? && "totalGameMachines" !in rec ==> r.value.totalGameMachines == Some(0)
    ensures r.Ok? && "isOperating" !in rec ==> r.value.isOperating == Some(true)
    ensures r.Ok? && "longitude" !in rec ==> r.value.longitude == Some(0.0)
    ensures r.Ok? && "approvalDate" !in rec ==> r.value.approvalDate == Some(today)
  {
    match StringField(rec, "address")
    case Err(e) => Err(e)
    case Ok(address) =>
      if address.None? || IsBlank(address.value) then Err(InvalidArgument("address"))
      else
        var region := Addresses.ParseAddressGuarded(address);
        if "id" in rec && !IsNumber(rec["id"]) then Err(ClassCast("id"))
        else
          var id := if "id" in rec then Some(LongValue(rec["id"])) else None;
          match StringField(rec, "businessName")
          case Err(e) => Err(e)
          case Ok(businessName) =>
            if "longitude" in rec && !IsNumber(rec["longitude"]) then Err(ClassCast("longitude"))
            else if "latitude" in rec && !IsNumber(rec["latitude"]) then Err(ClassCast("latitude"))
            else if "totalGameMachines" in rec && !IsNumber(rec["totalGameMachines"]) then
              Err(ClassCast("totalGameMachines"))
            else
              var longitude := if "longitude" in rec then DoubleValue(rec["longitude"]) else 0.0;
              var latitude := if "latitude" in rec then DoubleValue(rec["latitude"]) else 0.0;
              var machines := if "totalGameMachines" in rec then IntValue(rec["totalGameMachines"]) else 0;
              match StringField(rec, "phone")
              case Err(e) => Err(e)
              case Ok(phone) =>
                if "isOperating" in rec && !rec["isOperating"].JBool? then Err(ClassCast("isOperating"))
                else
                  var operating := if "isOperating" in rec then rec["isOperating"].b else true;
                  match StringField(rec, "approvalDate")
                  case Err(e) => Err(e)
                  case Ok(dateText) =>
                    var date := if dateText.None? then Some(today) else parseDate(dateText.value);
                    if date.None? then Err(Unparseable("approvalDate"))
                    else
                      Ok(DollShop(id, businessName, Some(longitude), Some(latitude), address,
                                  Some(machines), phone, Some(operating), date,
                                  Some(region.gubun1), Some(region.gubun2), None))
  }

  /** An address the unguarded split cannot take: spaces only, not empty. */
  predicate OnlySpaces(s: string) {
    |s| > 0 && forall i :: 0 <= i < |s| ==> s[i] == ' '
  }

  /** When the strict conversion gets past the address: every unboxed value
      present and a number, a parsable approval date, and the optional
      values of the right type. */
  predicate StrictFieldsConvertible(rec: Record, parseDate: string -> Option<Date>) {
    Required(rec, "id", IsNumber) && Optional(rec, "businessName", IsString)
    && Required(rec, "longitude", IsNumber) && Required(rec, "latitude", IsNumber)
    && Required(rec, "totalGameMachines", IsNumber) && Optional(rec, "phone", IsString)
    && Optional(rec, "isOperating", IsBool)
    && Required(rec, "approvalDate", (v: Json) => v.JString? && parseDate(v.s).Some?)
  }

  /** When the strict conversion succeeds: the above, and an address that is
      a string not made of spaces only. */
  predicate StrictConvertible(rec: Record, parseDate: string -> Option<Date>) {
    Required(rec, "address", IsString) && !OnlySpaces(rec["address"].s)
    && StrictFieldsConvertible(rec, parseDate)
  }

  /** The part of the strict conversion after the address is split. */
  function StrictFields(rec: Record, address: string, region: Addresses.Region,
                        parseDate: string -> Option<Date>): (r: Result<DollShop>)
    ensures r.Ok? <==> StrictFieldsConvertible(rec, parseDate)
    ensures r.Ok? ==> r.value.address == Some(address) && r.value.imagePath.None?
                      && r.value.gubun1 == Some(region.gubun1) && r.value.gubun2 == Some(region.gubun2)
    ensures r.Ok? ==> r.value.id.Some? && r.value.totalGameMachines.Some? && r.value.approvalDate.Some?
    ensures r.Ok? ==> (r.value.isOperating.Some? <==> "isOperating" in rec)
  {
    if "id" !in rec then Err(NullReference("id"))
    else if !IsNumber(rec["id"]) then Err(ClassCast("id"))
    else
      match StringField(rec, "businessName")
      case Err(e) => Err(e)
      case Ok(businessName) =>
        if "longitude" !in rec then Err(NullReference("longitude"))
        else if !IsNumber(rec["longitude"]) then Err(ClassCast("longitude"))
        else if "latitude" !in rec then Err(NullReference("latitude"))
        else if !IsNumber(rec["latitude"]) then Err(ClassCast("latitude"))
        else if "totalGameMachines" !in rec then Err(NullReference("totalGameMachines"))
        else if !IsNumber(rec["totalGameMachines"]) then Err(ClassCast("totalGameMachines"))
        else
          match StringField(rec, "phone")
          case Err(e) => Err(e)
          case Ok(phone) =>
            if "isOperating" in rec && !rec["isOperating"].JBool? then Err(ClassCast("isOperating"))
            else
              var operating := if "isOperating" in rec then Some(rec["isOperating"].b) else None;
              match StringField(rec, "approvalDate")
              case Err(e) => Err(e)
              case Ok(dateText) =>
                if dateText.None? then Err(NullReference("approvalDate"))
                else if parseDate(dateText.value).None? then Err(Unparseable("approvalDate"))
                else
                  Ok(DollShop(Some(LongValue(rec["id"])), businessName,
                              Some(DoubleValue(rec["longitude"])), Some(DoubleValue(rec["latitude"])),
                              Some(address), Some(IntValue(rec["totalGameMachines"])), phone, operating,
                              parseDate(dateText.value), Some(region.gubun1), Some(region.gubun2), None))
  }

  /** `service.DataInitializer.convertToDollShop`: no defaults and no guard;
      a missing address, number or date is a null dereference, a missing
      operating flag stays null. */
  function ConvertStrict(rec: Record, parseDate: string -> Option<Date>): (r: Result<DollShop>)
    ensures r.Ok? <==> StrictConvertible(rec, parseDate)
    ensures "address" !in rec ==> r.Err? && r.error.NullReference?
    ensures Required(rec, "address", IsString) && OnlySpaces(rec["address"].s) ==> r == Err(IndexOutOfBounds)
    ensures r.Ok? ==>
      var a := rec["address"].s;
      && r.value.address == Some(a)
      && Addresses.ParseAddress(Some(a)).Ok?
      && r.value.gubun1 == Some(Addresses.ParseAddress(Some(a)).value.gubun1)
      && r.value.gubun2 == Some(Addresses.ParseAddress(Some(a)).value.gubun2)
      && r.value.imagePath.None?
    ensures r.Ok? ==> r.value.id.Some? && r.value.totalGameMachines.Some? && r.value.approvalDate.Some?
    ensures r.Ok? ==> (r.value.isOperating.Some? <==> "isOperating" in rec)
  {
    match StringField(rec, "address")
    case Err(e) => Err(e)
    case Ok(address) =>
      match Addresses.ParseAddress(address)
      case Err(e) => Err(e)
      case Ok(region) => StrictFields(rec, address.value, region, parseDate)
  }

  /** On a complete record with a non-blank address the two variants build
      the same shop. */
  lemma VariantsAgreeOnCompleteRecords(rec: Record, today: Date, parseDate: string -> Option<Date>)
    requires StrictConvertible(rec, parseDate)
    requires !IsBlank(rec["address"].s) && "isOperating" in rec
    ensures ConvertLenient(rec, today, parseDate) == ConvertStrict(rec, parseDate)
  {
    Addresses.VariantsAgree(rec["address"].s);
  }

  /** A seed file as the loop meets it. */
  datatype SeedFile = Missing | Unreadable | Parsed(records: seq<Record>)

  function RecordsOf(f: SeedFile): seq<Record> {
    if f.Parsed? then f.records else []
  }

  /** Every record of every readable file, in file order. */
  function AllRecords(files: seq<SeedFile>): seq<Record> {
    if files == [] then [] else AllRecords(files[..|files| - 1]) + RecordsOf(files[|files| - 1])
  }

  /** The number of files that are missing or cannot be read. */
  function BadFiles(files: seq<SeedFile>): nat {
    if files == [] then 0
    else BadFiles(files[..|files| - 1]) + (if files[|files| - 1].Parsed? then 0 else 1)
  }

  /** The shops the convertible records yield, in record order. */
  function Converted(records: seq<Record>, convert: Record -> Result<DollShop>): (shops: seq<DollShop>)
    ensures |shops| <= |records|
  {
    if records == [] then []
    else
      var last := convert(records[|records| - 1]);
      Converted(records[..|records| - 1], convert) + (if last.Ok? then [last.value] else [])
  }

  /** Every converted shop comes from some record. */
  lemma {:induction false} ConvertedFromRecords(records: seq<Record>, convert: Record -> Result<DollShop>)
    ensures forall i :: 0 <= i < |Converted(records, convert)| ==>
      exists j :: 0 <= j < |records| && convert(records[j]) == Ok(Converted(records, convert)[i])
  {
    if records != [] {
      var init := records[..|records| - 1];
      ConvertedFromRecords(init, convert);
      var shops := Converted(records, convert);
      var last := convert(records[|records| - 1]);
      assert shops == Converted(init, convert) + (if last.Ok? then [last.value] else []);
      forall i | 0 <= i < |shops|
        ensures exists j :: 0 <= j < |records| && convert(records[j]) == Ok(shops[i])
      {
        if i < |Converted(init, convert)| {
          assert shops[i] == Converted(init, convert)[i];
          var j :| 0 <= j < |init| && convert(init[j]) == Ok(Converted(init, convert)[i]);
          assert records[j] == init[j];
        } else {
          var j := |records| - 1;
          assert convert(records[j]) == Ok(shops[i]);
        }
      }
    } else {
      assert Converted(records, convert) == [];
    }
  }

  /** The loader's tallies: shops collected, records read, conversions that
      succeeded, and failures (records that did not convert plus files that
      were missing or unreadable). */
  datatype LoadReport = LoadReport(shops: seq<DollShop>, total: nat, success: nat, fail: nat)

  lemma ConvertedSnoc(records: seq<Record>, r: Record, convert: Record -> Result<DollShop>)
    ensures Converted(records + [r], convert)
            == Converted(records, convert) + (if convert(r).Ok? then [convert(r).value] else [])
  {
    assert (records + [r])[..|records|] == records;
  }

  lemma {:induction false} ConvertedAppend(a: seq<Record>, b: seq<Record>, convert: Record -> Result<DollShop>)
    ensures Converted(a + b, convert) == Converted(a, convert) + Converted(b, convert)
    decreases |b|
  {
    if b != [] {
      var init, x := b[..|b| - 1], b[|b| - 1];
      var tail := if convert(x).Ok? then [convert(x).value] else [];
      ConvertedAppend(a, init, convert);
      assert (a + b)[..|a + b| - 1] == a + init;
      assert (a + b)[|a + b| - 1] == x;
      assert Converted(a + b, convert) == Converted(a + init, convert) + tail;
      assert Converted(b, convert) == Converted(init, convert) + tail;
    } else {
      assert a + b == a;
    }
  }

  /** The inner loop over one file's records: each record that converts
      is collected; the others are counted. */
  method ConvertAll(records: seq<Record>, convert: Record -> Result<DollShop>)
    returns (shops: seq<DollShop>, failures: nat)
    ensures shops == Converted(records, convert)
    ensures failures == |records| - |shops|
  {
    shops, failures := [], 0;
    var j := 0;
    while j < |records|
      invariant 0 <= j <= |records|
      invariant shops == Converted(records[..j], convert)
      invariant failures == j - |shops|
    {
      assert records[..j + 1] == records[..j] + [records[j]];
      ConvertedSnoc(records[..j], records[j], convert);
      var r := convert(records[j]);
      if r.Ok? {
        shops := shops + [r.value];
      } else {
        failures := failures + 1;
      }
      j := j + 1;
    }
    assert records[..|records|] == records;
  }

  /** One more file extends the record list, the collected shops and the
      bad-file count. */
  lemma FilesStep(files: seq<SeedFile>, i: nat, convert: Record -> Result<DollShop>)
    requires i < |files|
    ensures AllRecords(files[..i + 1]) == AllRecords(files[..i]) + RecordsOf(files[i])
    ensures Converted(AllRecords(files[..i + 1]), convert)
            == Converted(AllRecords(files[..i]), convert) + Converted(RecordsOf(files[i]), convert)
    ensures BadFiles(files[..i + 1]) == BadFiles(files[..i]) + (if files[i].Parsed? then 0 else 1)
  {
    assert files[..i + 1][..i] == files[..i];
    ConvertedAppend(AllRecords(files[..i]), RecordsOf(files[i]), convert);
  }

  /** The seeding loop of `initializeDollShops`: a missing or unreadable
      file counts one failure; in a read file every record is tried, a
      record that converts is collected and counted a success, one that
      does not is skipped and counted a failure. */
  method LoadShops(files: seq<SeedFile>, convert: Record -> Result<DollShop>) returns (report: LoadReport)
    ensures report.shops == Converted(AllRecords(files), convert)
    ensures report.total == |AllRecords(files)|
    ensures report.success == |report.shops|
    ensures report.fail == (report.total - report.success) + BadFiles(files)
  {
    var shops: seq<DollShop> := [];
    var total, success, fail := 0, 0, 0;
    var i := 0;
    while i < |files|
      invariant 0 <= i <= |files|
      invariant shops == Converted(AllRecords(files[..i]), convert)
      invariant total == |AllRecords(files[..i])|
      invariant success == |shops| <= total
      invariant fail == (total - success) + BadFiles(files[..i])
    {
      FilesStep(files, i, convert);
      if files[i].Parsed? {
        var converted, failures := ConvertAll(files[i].records, convert);
        shops := shops + converted;
        success := success + |converted|;
        fail := fail + failures;
        total := total + |files[i].records|;
      } else {
        fail := fail + 1;
      }
      i := i + 1;
    }
    assert files[..|files|] == files;
    report := LoadReport(shops, total, success, fail);
  }

  /** A table is seeded only while it is empty. */
  function SeedOnce<T>(table: seq<T>, seed: seq<T>): (r: seq<T>)
    ensures |table| > 0 ==> r == table
    ensures |table| == 0 ==> r == seed
  {
    if |table| == 0 then seed else table
  }

  /** Seeding twice is seeding once, as soon as the first run added rows. */
  lemma SeedTwice<T>(table: seq<T>, first: seq<T>, second: seq<T>)
    requires |table| > 0 || |first| > 0
    ensures SeedOnce(SeedOnce(table, first), second) == SeedOnce(table, first)
  {
  }

  /** The three accounts `HomeController.DataInitializer.initializeUsers` creates. */
  const SeedUsers: seq<UserEntity> := [
    UserEntity(None, Some("kakao"), "kakao_user1", None, Some("kakao_user@example.com"),
               Some("카톡러버"), Some(["ROLE_USER"])),
    UserEntity(None, Some("google"), "google_user1", None, Some("google_user@example.com"),
               Some("구글러"), Some(["ROLE_USER"])),
    UserEntity(None, Some("local"), "admin", Some("admin1234"), Some("admin@dollcatch.com"),
               Some("돌캐치관리자"), Some(["ROLE_ADMIN", "ROLE_USER"]))]

  /** The names of the seed files, in loading order. */
  const SeedFileNames: seq<string> := [
    "서울.json", "부산.json", "대구.json", "인천.json", "광주.json",
    "대전.json", "울산.json", "세종특별자치시.json", "경기도.json",
    "강원특별쟈치도.json", "충청북도.json", "충청남도.json",
    "전북특별자치도.json", "전라남도.json", "경상북도.json",
    "경상남도.json", "제주특별자치도.json"]

  /** `init`/`run`: users and shops are each seeded when, and only when,
      their table is empty; the shop seed is whatever the loader collected. */
  method Initialize<U>(users: seq<U>, shops: seq<DollShop>, seedUsers: seq<U>,
                       files: seq<SeedFile>, convert: Record -> Result<DollShop>)
    returns (users': seq<U>, shops': seq<DollShop>)
    requires |files| == |SeedFileNames|
    ensures |users| > 0 ==> users' == users
    ensures |users| == 0 ==> users' == seedUsers
    ensures |shops| > 0 ==> shops' == shops
    ensures |shops| == 0 ==> shops' == Converted(AllRecords(files), convert)
  {
    users' := SeedOnce(users, seedUsers);
    if |shops| == 0 {
      var report := LoadShops(files, convert);
      shops' := report.shops;
    } else {
      shops' := shops;
    }
  }
}
