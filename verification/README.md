# doll_gacha backend core in Dafny

This project models the statable core of the doll_gacha backend. That backend is a Spring/JPA service for a map of claw-machine ("doll gacha") shops, their reviews and a community board. The database is a value: every table is an immutable `seq` of records. Every repository query, service call and entity method is a pure function over those sequences. It returns a `Result` whenever the Java code throws.

The model covers the following parts of the backend:

- **Shop search.** The current `DollShopRepositoryCustomImpl` is in `ShopSearch`, and the older one in `LegacyShopSearch`. Both cover the region, operating-flag and keyword predicates, the sort-key dispatch, offset/limit paging with the reported total, the thumbnail join and map mode.
- **Address parsing and seed loading** (`Addresses`, `ShopLoading`). This covers Java's `String.split(" ")`, the guarded and unguarded `parseAddress`, the two record converters and their failure counting, and seed-once initialisation.
- **Reviews.** `Reviews` holds the entity, its validators and its DTO conversions. `ReviewService` holds the paged listing with per-review image URLs, the statistics, create, and the guarded soft delete. `LegacyReviews` holds the older `Review`/`ReviewImage` entities and their service.
- **Community posts and comments** (`Community`, `Comments`). This covers search, listing, the detail view that splits files into images and attachments, author-guarded edit and delete, and the comment entity.
- **Two key-value stores.** `OAuthState` is the in-memory OAuth2 authorization-request map. `RefreshTokens` is the refresh-token table, which holds at most one token per user.
- **Files** (`Files`, `FileServices`, `FileUtil`). This covers the optional-filter file search, the first-wins thumbnail map, both `FileService`s, and extension extraction with stored-name construction.
- **DTO round trips** (`Users`, `Shops`).

Shared machinery sits in its own modules:

- `Common`: the `Option`/`Result`/error types and the string helpers.
- `Paging`: Spring's `PageImpl` and offset/limit.
- `Sorting`: a stable sort standing in for SQL `ORDER BY`.
- `Collect`: `Collectors.toMap` and `groupingBy`.
- `Aggregates`: SQL `AVG`.

## Model

| member | source | states |
|---|---|---|
| Users.FromEntity | src/main/java/com/doll/gacha/jwt/model/UserDTO.java:36-46 | every field is copied and a null role list becomes an empty one; converting back gives the entity with its roles defaulted |
| Users.EntityRoundTrip | src/main/java/com/doll/gacha/jwt/model/UserDTO.java:36-58 | entity to DTO and back is the identity exactly up to a null role list, which returns empty |
| Users.DtoRoundTrip | src/main/java/com/doll/gacha/jwt/model/UserDTO.java:36-58 | DTO to entity and back restores the DTO if and only if its role list is set |
| Users.FindByUsername | src/main/java/com/doll/gacha/jwt/repository/UserRepository.java:8 | the lookup finds a stored user with that username, and finds nothing only when no user has it |
| Shops.DtoFrom | src/main/java/com/doll/gacha/dollshop/DollShopDTO.java:30-48 | null maps to null; any shop maps to a DTO that converts back to that same shop |
| Shops.DtoRoundTrip | src/main/java/com/doll/gacha/dollshop/DollShopDTO.java:30-65 | DTO to entity and back restores every one of the twelve fields |
| Shops.ListFrom | src/main/java/com/doll/gacha/dollshop/dto/DollShopListDTO.java:38-62 | null maps to null; any shop maps to a list row that converts back to it and whose six statistics are zero |
| Shops.ListRoundTrip | src/main/java/com/doll/gacha/dollshop/dto/DollShopListDTO.java:38-79 | a list row survives the trip through the entity if and only if its statistics are the zero defaults |
| Files.RefTypeValueOf | src/main/java/com/doll/gacha/file/service/FileService.java:29 | a null name fails; a name is accepted exactly when it is a constant's name, and then yields that constant |
| Files.UsageValueOf | src/main/java/com/doll/gacha/file/service/FileService.java:30-32 | a name is accepted exactly when it is a usage constant's name, and then yields that constant |
| Files.SearchFiles | src/main/java/com/doll/gacha/common/repository/FileRepositoryCustomImpl.java:20-29 | every returned file is stored and passes each non-null filter, every stored file passing them is returned, and with no filter all files come back |
| Files.PathPairsFirst | src/main/java/com/doll/gacha/common/repository/FileRepositoryCustomImpl.java:44-49 | the first-wins lookup of a requested id in the query result gives the URL of the first matching file in table order, and nothing for an id that was not requested |
| Files.FindFilePathMapByRefIds | src/main/java/com/doll/gacha/common/repository/FileRepositoryCustomImpl.java:32-50 | the map's keys are exactly the requested ids that have a matching file, each mapped to the `/uploads/` URL of its first such file |
| Files.FindByRefIdInAndRefType | src/main/java/com/doll/gacha/common/repository/FileRepository.java:10 | the result holds exactly the stored files whose reference id is in the list and whose type is the given one |
| Files.GroupedUrls | src/main/java/com/doll/gacha/review/ReviewService.java:51-59 | grouping the batch result by reference id gives each requested id exactly the URLs of its own files, in table order |
| FileServices.ParseUsageFilter | src/main/java/com/doll/gacha/file/service/FileService.java:30-32 | null or empty means no filter; otherwise the name must be a usage constant's, which it then yields |
| FileServices.GetFilePaths | src/main/java/com/doll/gacha/file/service/FileService.java:28-41 | a bad reference type fails first, a bad usage fails next; otherwise the result is the `/uploads/` URL of each matching file, in order |
| FileServices.GetFilePathsContents | src/main/java/com/doll/gacha/file/service/FileService.java:28-41 | for valid names the lookup succeeds, is empty when no file matches, and contains the URL of every file that matches |
| FileServices.SaveFiles | src/main/java/com/doll/gacha/file/service/FileService.java:51-75 | the table keeps its old rows and gains one record per upload, in order, carrying the upload's metadata and the reference; the i-th path is that record's `/uploads/` URL |
| FileServices.GetFileById | src/main/java/com/doll/gacha/file/service/FileService.java:82-84 | finds a record with that id, and returns null only when no record has it |
| FileServices.DeleteFile | src/main/java/com/doll/gacha/file/service/FileService.java:90-97 | an absent id is an error; otherwise exactly the records with other ids remain, and with unique ids the table shrinks by one |
| FileUtil.ExtractExtension | src/main/java/com/doll/gacha/file/util/FileUtil.java:84-89 | the extension is empty exactly for a null name or one without a dot; otherwise it is the name's suffix that starts at a dot and holds no other dot |
| FileUtil.UniqueFilename | src/main/java/com/doll/gacha/file/util/FileUtil.java:94-96 | the stored name starts with the UUID and ends with the extension |
| FileUtil.StoredNameKeepsExtension | src/main/java/com/doll/gacha/file/util/FileUtil.java:40-42 | for a UUID without a dot, extracting the extension from the stored name gives back the original name's extension |
| FileUtil.SaveWith | src/main/java/com/doll/gacha/file/util/FileUtil.java:30-64 | a null or empty upload is rejected with an illegal argument; otherwise success exactly when the write succeeds, reporting the original name, the UUID-plus-extension stored name, its path, the size and the content type |
| FileUtil.SaveFileCommon | src/main/java/com/doll/gacha/common/util/FileUtil.java:28-61 | as above, with the path being the fixed upload directory text followed by the stored name |
| FileUtil.SaveFile | src/main/java/com/doll/gacha/file/util/FileUtil.java:30-64 | as above, with the path being the stored name resolved inside the normalised upload directory |
| Paging.Slice | src/main/java/com/doll/gacha/community/repository/CommunityRepositoryImpl.java:47-48 | the page holds at most `limit` rows, namely the rows of the ordered result starting at the offset, and is empty past the end |
| Paging.PageOf | src/main/java/com/doll/gacha/community/repository/CommunityRepositoryImpl.java:51 | the content is kept; an empty page or one whose end lies within the total keeps the given total; a non-empty page that reaches past the total reports offset plus page length instead |
| Paging.PageOfSliceKeepsTotal | src/main/java/com/doll/gacha/community/repository/CommunityRepositoryImpl.java:29-51 | a page cut from the very result that was counted always reports the row count as its total |
| Paging.SlicesAreAdjacent | src/main/java/com/doll/gacha/review/repositroy/ReviewRepositoryImpl.java:56-57 | two consecutive offset/limit windows join into the window covering both, so paging visits each row once and in order |
| Paging.QueryPage | src/main/java/com/doll/gacha/review/repositroy/ReviewRepository.java:16-30 | a first page that is not full reports its own length as the total; a later, non-empty page that is not full reports offset plus page length; an empty later page or a full page takes the count |
| Paging.QueryPageOfSlice | src/main/java/com/doll/gacha/review/repositroy/ReviewRepository.java:16-30 | when the count query counts the rows the content query pages through, the reported total is always the row count |
| Collect.ToMapFirstWins | src/main/java/com/doll/gacha/common/repository/FileRepositoryCustomImpl.java:44-49 | a key is in the map exactly when some pair has it, and maps to the value of the first such pair |
| Collect.GroupingBy | src/main/java/com/doll/gacha/review/ReviewService.java:54-60 | a key is present exactly when some pair has it, and maps to all of its values in encounter order |
| Reviews.SoftDelete | src/main/java/com/doll/gacha/review/ReviewEntity.java:86-91 | deleting an already deleted review fails with "already deleted"; otherwise only the deletion flag changes, to true |
| Reviews.Update | src/main/java/com/doll/gacha/review/ReviewEntity.java:103-112 | the six editable fields take exactly the given values, nulls included; id, author, shop, deletion flag and timestamps stay |
| Reviews.UpdateIdempotent | src/main/java/com/doll/gacha/review/ReviewEntity.java:103-112 | applying an edit twice equals applying it once, and writing back a review's own values changes nothing |
| Reviews.OnCreate | src/main/java/com/doll/gacha/review/ReviewEntity.java:66-74 | a missing timestamp becomes the current time, a present one is kept, and no other field changes |
| Reviews.OnUpdate | src/main/java/com/doll/gacha/review/ReviewEntity.java:76-79 | only the update time moves, to the current time |
| Reviews.Flush | src/main/java/com/doll/gacha/review/ReviewEntity.java:60-79 | an unchanged entity is written back unchanged; a changed one gets a fresh update time; the creation time never changes after insert |
| Reviews.CreateViolations | src/main/java/com/doll/gacha/review/dto/ReviewCreateDTO.java:20-38 | each of shop id, content, rating and machine strength is flagged exactly when its constraint fails, and nothing else is ever flagged |
| Reviews.CreateToEntity | src/main/java/com/doll/gacha/review/dto/ReviewCreateDTO.java:43-55 | the new review is live, belongs to the given user and shop, carries the request's six values, and has no id or timestamps yet |
| Reviews.ValidCreateIsWellFormed | src/main/java/com/doll/gacha/review/dto/ReviewCreateDTO.java:20-55 | a request that passes validation, for a stored shop, yields a review with an author, a shop, non-blank text and both scores in 1..5 |
| Reviews.UpdateViolations | src/main/java/com/doll/gacha/review/dto/ReviewUpdateDTO.java:18-33 | content, rating and machine strength are each flagged exactly when their constraint fails; there is no shop id to flag |
| Reviews.UpdateEntity | src/main/java/com/doll/gacha/review/dto/ReviewUpdateDTO.java:38-41 | the review's six editable fields become the request's values, so a null cost clears the stored cost |
| Reviews.ValidUpdatePreservesWellFormed | src/main/java/com/doll/gacha/review/dto/ReviewUpdateDTO.java:18-41 | a validated edit keeps a well-formed review well-formed |
| ReviewService.ListedReviews | src/main/java/com/doll/gacha/review/repositroy/ReviewRepository.java:16-23 | newest first; exactly the shop's live reviews that have an author (the fetch join drops the others) |
| ReviewService.FindByDollShopIdWithUser | src/main/java/com/doll/gacha/review/repositroy/ReviewRepository.java:16-30 | the page is the requested window of the listed reviews: at most `size` of them, newest first, all live and of that shop |
| ReviewService.FindByDollShopIdWithUserTotal | src/main/java/com/doll/gacha/review/repositroy/ReviewRepository.java:24-30 | when every live review has an author, the reported total equals the count query's number, on every page |
| ReviewService.AttachReviewUrls | src/main/java/com/doll/gacha/review/ReviewService.java:46-69 | each review keeps its place and receives exactly the URLs of its own REVIEW files, in table order, or none |
| ReviewService.GetReviewsByDollShopIdPaged | src/main/java/com/doll/gacha/review/ReviewService.java:37-72 | an empty window gives an empty page with total 0; otherwise the window's reviews in order, each with its image URLs, and the window's total |
| ReviewService.FindReviewsWithFilesByDollShopId | src/main/java/com/doll/gacha/review/repositroy/ReviewRepositoryImpl.java:28-97 | a zero count gives the empty page; otherwise the window of listed reviews with their image URLs, in order, the total being the count whenever the window lies within it |
| ReviewService.FindReviewsWithFilesTotal | src/main/java/com/doll/gacha/review/repositroy/ReviewRepositoryImpl.java:28-97 | when every live review has an author, the reported total is the count of live reviews on every page, a short last page and a page past the end included |
| ReviewService.GetReviewStats | src/main/java/com/doll/gacha/review/ReviewService.java:77-84 | the count is the number of live reviews; with none every statistic is zero, otherwise each is the SQL average of the present values of its column |
| ReviewService.StatsRatingInRange | src/main/java/com/doll/gacha/review/repositroy/ReviewRepository.java:33-46 | over well-formed reviews the average rating is present and in 0..5, and at least 1 when the shop has reviews |
| ReviewService.FindReview | src/main/java/com/doll/gacha/review/ReviewService.java:115-116 | finds the position of a review with that id, and nothing only when no review has it |
| ReviewService.CreateReview | src/main/java/com/doll/gacha/review/ReviewService.java:90-103 | unknown user, then null shop id, then unknown shop are errors in that order; a request without content, rating or machine strength is then refused by the NOT NULL columns (review/ReviewEntity.java:33-42); otherwise exactly one live review is appended with the new id, the user, the shop, the request's values and both timestamps set to now |
| ReviewService.CreatedReviewIsListed | src/main/java/com/doll/gacha/review/ReviewService.java:90-103 | a review created from a valid request is well-formed and appears in its shop's listing |
| ReviewService.DeleteReview | src/main/java/com/doll/gacha/review/ReviewService.java:113-127 | unknown id, missing author, another author and already deleted are errors in that order; otherwise only that review changes, and only its deletion flag |
| ReviewService.DeleteTwiceFails | src/main/java/com/doll/gacha/review/ReviewService.java:121-124 | after a successful delete the same delete is refused as already deleted |
| ReviewService.DeleteCommit | src/main/java/com/doll/gacha/review/ReviewEntity.java:60-79 | committing a delete writes the flag and a fresh update time, keeps the creation time and changes nothing else |
| Aggregates.Avg | src/main/java/com/doll/gacha/review/repositroy/ReviewRepository.java:36-40 | null when no value is present; otherwise the number that, times the count of present values, gives their sum |
| Aggregates.AvgWithin | src/main/java/com/doll/gacha/review/repositroy/ReviewRepository.java:36-40 | the average of values that all lie in a range lies in that range |
| Sorting.SortBy | src/main/java/com/doll/gacha/review/repositroy/ReviewRepositoryImpl.java:55 | the result is ordered on the key in the requested direction, NULL lowest, and is a permutation of the input |
| Sorting.SortByMembers | src/main/java/com/doll/gacha/review/repositroy/ReviewRepositoryImpl.java:55 | ordering neither invents a row nor loses one |
| Sorting.SortedSlice | src/main/java/com/doll/gacha/review/repositroy/ReviewRepositoryImpl.java:55-57 | every offset/limit window of an ordered result is itself ordered |
| ShopSearch.ParseField | src/main/java/com/doll/gacha/dollshop/repositroy/DollShopRepositoryCustomImpl.java:105-119 | a property is recognised exactly when it names one of the seven sortable list columns, and yields that column |
| ShopSearch.GetSortOrder | src/main/java/com/doll/gacha/dollshop/repositroy/DollShopRepositoryCustomImpl.java:98-122 | no order means id descending; a recognised first property sorts by that column in the requested direction; any other first property means id descending |
| ShopSearch.OnlyFirstOrderCounts | src/main/java/com/doll/gacha/dollshop/repositroy/DollShopRepositoryCustomImpl.java:101 | orders after the first never change the result |
| ShopSearch.IdAscendingIsIdDescending | src/main/java/com/doll/gacha/dollshop/repositroy/DollShopRepositoryCustomImpl.java:99-121 | asking for id ascending still sorts by id descending |
| ShopSearch.OrderedMatches | src/main/java/com/doll/gacha/dollshop/repositroy/DollShopRepositoryCustomImpl.java:57-66 | the shops matching region, open-only and keyword filters, each exactly once and no other, ordered on the chosen key with NULL lowest |
| ShopSearch.Row | src/main/java/com/doll/gacha/dollshop/repositroy/DollShopRepositoryCustomImpl.java:36-56 | a row carries the shop's fields, the given image and the number of the shop's live reviews |
| ShopSearch.MapThumbnails | src/main/java/com/doll/gacha/dollshop/repositroy/DollShopRepositoryCustomImpl.java:125-143 | each row in the window gets the URL of its shop's first DOLL_SHOP thumbnail, or the default picture |
| ShopSearch.SearchByConditions | src/main/java/com/doll/gacha/dollshop/repositroy/DollShopRepositoryCustomImpl.java:30-94 | the page holds at most `size` rows, all of open shops, namely the requested window of the ordered matches with their thumbnails and review counts; an empty window reports total 0, and any non-empty window reports the number of matching shops |
| ShopSearch.PastTheEndReportsZero | src/main/java/com/doll/gacha/dollshop/repositroy/DollShopRepositoryCustomImpl.java:71-73 | a page past the last match is reported as empty with total 0 although matching shops exist |
| ShopSearch.SearchForMap | src/main/java/com/doll/gacha/dollshop/repositroy/DollShopRepositoryCustomImpl.java:146-168 | every open shop matching the region filters and only those, as many rows as there are such shops, ordered by id descending |
| ShopSearch.MapIgnoresKeyword | src/main/java/com/doll/gacha/dollshop/repositroy/DollShopRepositoryCustomImpl.java:161-165 | the map search lists the same shops whatever the keyword |
| LegacyShopSearch.OrderedMatches | src/main/java/com/doll/gacha/dollshop/DollShopRepositoryCustomImpl.java:26-37 | the shops matching region, optional operating and keyword filters, each exactly once and no other, ordered by id descending |
| LegacyShopSearch.WithThumbnail | src/main/java/com/doll/gacha/dollshop/DollShopRepositoryCustomImpl.java:63-69 | a shop with a DOLL_SHOP thumbnail shows that thumbnail's `/uploads/` URL; otherwise the stored image stays; no other field changes |
| LegacyShopSearch.SetThumbnails | src/main/java/com/doll/gacha/dollshop/DollShopRepositoryCustomImpl.java:40-70 | every shop of the page gets exactly the thumbnail treatment above, in place |
| LegacyShopSearch.SearchByConditions | src/main/java/com/doll/gacha/dollshop/DollShopRepositoryCustomImpl.java:24-85 | the page is the requested window of the ordered matches, each with its thumbnail, and the total is always the number of matching shops, even for an empty page |
| LegacyShopSearch.SearchForMap | src/main/java/com/doll/gacha/dollshop/DollShopRepositoryCustomImpl.java:90-100 | every shop matching the region filters, open or not, and only those, as many rows as there are such shops, id descending |
| LegacyShopSearch.OperatingTrueAgreesWithCurrent | src/main/java/com/doll/gacha/dollshop/DollShopRepositoryCustomImpl.java:110-112 | with the operating filter set to true, the older list matches exactly the shops the current list matches |
| LegacyShopSearch.MapIncludesCurrent | src/main/java/com/doll/gacha/dollshop/DollShopRepositoryCustomImpl.java:90-100 | every shop on the current map is also on the older map |
| Addresses.JoinPieces | src/main/java/com/doll/gacha/HomeController.java:282 | splitting loses nothing: joining the pieces with the separator gives back the address |
| Addresses.JavaSplit | src/main/java/com/doll/gacha/HomeController.java:282 | a text without the separator splits into itself; otherwise into the pieces between separators with trailing empty pieces removed |
| Addresses.SplitTokens | src/main/java/com/doll/gacha/HomeController.java:282-284 | removing trailing empty pieces never changes the token read at any position |
| Addresses.SplitEmptyIff | src/main/java/com/doll/gacha/service/DataInitializer.java:171-172 | the split is empty exactly for a non-empty text made only of spaces |
| Addresses.ParseAddressGuarded | src/main/java/com/doll/gacha/HomeController.java:276-289 | a null or blank address gives two empty regions; otherwise the text before the first space and the text between the first and second space |
| Addresses.ParseAddress | src/main/java/com/doll/gacha/service/DataInitializer.java:170-176 | a null address fails, an address of spaces only fails on the first index, and every other address gives the same two tokens |
| Addresses.VariantsAgree | src/main/java/com/doll/gacha/service/DataInitializer.java:170-176 | on a non-blank address both variants give the same region |
| Addresses.FirstTwoTokens | src/main/java/com/doll/gacha/HomeController.java:276-289 | an address that starts with two space-free tokens yields exactly those tokens in both variants |
| Addresses.SeoulExample | src/main/java/com/doll/gacha/HomeController.java:273 | the first documented address yields the metropolitan city and the district |
| Addresses.GyeonggiExample | src/main/java/com/doll/gacha/HomeController.java:274 | the second documented address yields the province and the city |
| Addresses.LeadingSpaceExample | src/main/java/com/doll/gacha/HomeController.java:282-284 | a leading space makes the first region empty and shifts the city into the second |
| Addresses.SpacesExample | src/main/java/com/doll/gacha/service/DataInitializer.java:171-172 | on spaces only the guarded variant gives empty regions while the other fails; the empty address gives empty regions |
| ShopLoading.StringField | src/main/java/com/doll/gacha/HomeController.java:235 | an absent key reads as null, a string as itself, and any other value fails the cast |
| ShopLoading.Wrap32 | src/main/java/com/doll/gacha/HomeController.java:246 | the result is a 32-bit value, equal to the input whenever the input already fits |
| ShopLoading.Wrap64 | src/main/java/com/doll/gacha/HomeController.java:242 | the result is a 64-bit value, equal to the input whenever the input already fits |
| ShopLoading.TruncateSaturating | src/main/java/com/doll/gacha/HomeController.java:246 | the result lies within the target range and is the integer part of a non-negative value that fits |
| ShopLoading.LongValue | src/main/java/com/doll/gacha/HomeController.java:242 | a JSON number becomes a 64-bit value, unchanged when it is an integer that fits |
| ShopLoading.IntValue | src/main/java/com/doll/gacha/HomeController.java:246 | a JSON number becomes a 32-bit value, unchanged when it is an integer that fits |
| ShopLoading.ConvertLenient | src/main/java/com/doll/gacha/HomeController.java:233-264 | succeeds exactly on records whose address is a non-blank string and whose other values have the right type; the regions come from the guarded split; missing machines, flag, coordinates and date take 0, true, 0.0 and today |
| ShopLoading.StrictFields | src/main/java/com/doll/gacha/service/DataInitializer.java:150-162 | succeeds exactly when id, coordinates, machines and a parsable date are present and every value has the right type; a missing operating flag stays null |
| ShopLoading.ConvertStrict | src/main/java/com/doll/gacha/service/DataInitializer.java:146-163 | a missing address is a null dereference, an address of spaces fails the index, and success holds exactly for complete, well-typed records, with regions from the unguarded split |
| ShopLoading.VariantsAgreeOnCompleteRecords | src/main/java/com/doll/gacha/service/DataInitializer.java:146-163 | on a complete record with a non-blank address and an operating flag, both conversions build the same shop |
| ShopLoading.ConvertedFromRecords | src/main/java/com/doll/gacha/HomeController.java:199-208 | every collected shop is the conversion of some record |
| ShopLoading.ConvertAll | src/main/java/com/doll/gacha/HomeController.java:199-208 | the collected shops are the successful conversions in record order, and the failures are the remaining records |
| ShopLoading.LoadShops | src/main/java/com/doll/gacha/HomeController.java:176-216 | the shops are the successful conversions of every record of every readable file, in order; the total counts all records, successes count the shops, and failures count the other records plus missing or unreadable files |
| ShopLoading.SeedOnce | src/main/java/com/doll/gacha/HomeController.java:110-121 | a non-empty table is left as it is; an empty one receives the seed |
| ShopLoading.SeedTwice | src/main/java/com/doll/gacha/service/DataInitializer.java:37-48 | running the initializer again after it added rows changes nothing |
| ShopLoading.Initialize | src/main/java/com/doll/gacha/service/DataInitializer.java:33-51 | users and shops are each seeded exactly when their table is empty, the shops being everything the loader collected |
| LegacyReviews.OnCreate | src/main/java/com/doll/gacha/entity/Review.java:71-75 | both timestamps become the current time, whatever they held; nothing else changes |
| LegacyReviews.OnUpdate | src/main/java/com/doll/gacha/entity/Review.java:77-80 | only the update time moves, to the current time |
| LegacyReviews.Flush | src/main/java/com/doll/gacha/entity/Review.java:64-80 | at commit an unchanged review is written back as stored; a changed one gets the update time now and keeps its stored creation time, every other field as changed |
| LegacyReviews.OnCreateOverwrites | src/main/java/com/doll/gacha/entity/Review.java:71-75 | a preset creation time does not survive persisting |
| LegacyReviews.AddImage | src/main/java/com/doll/gacha/entity/Review.java:83-86 | the image is appended to this review's list and points back to it; every other list and back-reference is untouched |
| LegacyReviews.RemoveFirst | src/main/java/com/doll/gacha/entity/Review.java:90 | removing drops one occurrence of a present element and nothing else, and leaves a list without it unchanged |
| LegacyReviews.RemoveFirstNoDuplicates | src/main/java/com/doll/gacha/entity/Review.java:90 | in a list without duplicates, removing an element removes it entirely and keeps the list duplicate-free |
| LegacyReviews.RemoveImage | src/main/java/com/doll/gacha/entity/Review.java:89-92 | the image leaves this review's list and its back-reference is cleared; everything else is untouched |
| LegacyReviews.AddImagePreserves | src/main/java/com/doll/gacha/entity/Review.java:83-86 | adding an image that belongs to no review keeps lists and back-references in step |
| LegacyReviews.RemoveImagePreserves | src/main/java/com/doll/gacha/entity/Review.java:89-92 | removing an image from its own review keeps lists and back-references in step |
| LegacyReviews.AddingAttachedImageBreaksConsistency | src/main/java/com/doll/gacha/entity/Review.java:83-86 | adding an image that already belongs to another review leaves it in two lists: the method does not detach it first |
| LegacyReviews.GetReview | src/main/java/com/doll/gacha/service/ReviewService.java:28-31 | finds the first review with that id, deleted or not, and fails only when no review has it |
| LegacyReviews.UpdateReview | src/main/java/com/doll/gacha/service/ReviewService.java:44-57 | an unknown id fails; an edit that changes the review and leaves content, rating or machine strength NULL is refused by its NOT NULL columns (entity/Review.java:35-43); otherwise the six editable values become the given ones, with no author or deletion check; id, owner, shop, flag and creation time stay; at commit the update time becomes now if anything changed and stays otherwise; every other review stays |
| LegacyReviews.DeleteReview | src/main/java/com/doll/gacha/service/ReviewService.java:62-66 | an unknown id fails; a live review gets its deletion flag set and, at commit, the update time now; an already deleted review is left exactly as it was; every other review stays |
| LegacyReviews.DeleteIdempotent | src/main/java/com/doll/gacha/service/ReviewService.java:62-66 | a second delete, at any time, gives the same table as the first |
| LegacyReviews.LiveReviews | src/main/java/com/doll/gacha/service/ReviewService.java:21-73 | for a user or a shop: its live reviews and only those, as many rows as there are such reviews, newest first |
| LegacyReviews.DeletedLeavesListing | src/main/java/com/doll/gacha/service/ReviewService.java:62-73 | a deleted review no longer appears in its user's or its shop's listing |
| LegacyReviews.CreateReview | src/main/java/com/doll/gacha/service/ReviewService.java:37-39 | `save` merges a review whose id names a stored review into that row: the row takes the review's fields, keeps its creation time and gets the update time now if it changed, and no row is added; any other review is appended with the next id and both timestamps now, its other fields as given; a row left without content, rating or machine strength is refused and nothing is saved |
| LegacyReviews.SaveWithStoredIdOverwrites | src/main/java/com/doll/gacha/service/ReviewService.java:37-39 | saving a complete review that carries a stored review's id adds no row and overwrites that row's owner, shop and content |
| LegacyReviews.EditsKeepTableWritable | src/main/java/com/doll/gacha/entity/Review.java:34-43 | when every stored review fills the NOT NULL columns, so does every review after a successful update or create |
| Comments.NewComment | src/main/java/com/doll/gacha/community/comment/CommentEntity.java:35-38 | a built comment is live and has no id or timestamps yet |
| Comments.OnCreate | src/main/java/com/doll/gacha/community/comment/CommentEntity.java:46-50 | both timestamps become the current time; nothing else changes |
| Comments.OnUpdate | src/main/java/com/doll/gacha/community/comment/CommentEntity.java:52-55 | only the update time moves |
| Comments.CreatedAtSurvivesUpdates | src/main/java/com/doll/gacha/community/comment/CommentEntity.java:40-55 | after persisting, later updates move the update time and never the creation time |
| Comments.Update | src/main/java/com/doll/gacha/community/comment/CommentEntity.java:62-64 | only the body changes, to the given text |
| Comments.SoftDelete | src/main/java/com/doll/gacha/community/comment/CommentEntity.java:69-74 | fails exactly on a comment already deleted; otherwise only the deletion flag changes, to true |
| Comments.SoftDeleteOnce | src/main/java/com/doll/gacha/community/comment/CommentEntity.java:69-74 | a live comment can be deleted once, and a second delete fails |
| Comments.WrittenByIff | src/main/java/com/doll/gacha/community/comment/CommentEntity.java:79-81 | the author check holds exactly when the comment has a user with that username |
| Comments.AuthorshipIsStable | src/main/java/com/doll/gacha/community/comment/CommentEntity.java:62-81 | editing or deleting never changes who wrote a comment |
| Community.Violations | src/main/java/com/doll/gacha/community/dto/CommunityCreateDTO.java:16-21 | the title is flagged exactly when it is blank or longer than 200 characters, the content exactly when it is blank, and no other field is ever flagged |
| Community.EmptyTitleRejected | src/main/java/com/doll/gacha/community/dto/CommunityCreateDTO.java:16-18 | an empty title is always flagged |
| Community.TitleLengthBoundary | src/main/java/com/doll/gacha/community/dto/CommunityCreateDTO.java:16-21 | with non-blank fields, a title of at most 200 characters passes and a longer one is the only violation |
| Community.ToEntity | src/main/java/com/doll/gacha/community/dto/CommunityCreateDTO.java:26-34 | the new post belongs to the given user, carries the form's title and content, has no views, is live and has no id yet |
| Community.CreatePost | src/main/java/com/doll/gacha/community/CommunityService.java:33-41 | fails exactly when the username is unknown; otherwise one post is appended, with the next id, an author from the user table whom the author check accepts, the form's fields, zero views and the creation time |
| Community.SearchCondition | src/main/java/com/doll/gacha/community/repository/CommunityRepositoryImpl.java:58-74 | no condition exactly when the keyword is null or blank or the search type is neither "title" nor "nickname"; a null search type with a real keyword fails; otherwise the condition is on the named column with the trimmed, non-empty keyword |
| Community.OrderedMatches | src/main/java/com/doll/gacha/community/repository/CommunityRepositoryImpl.java:39-46 | the content query's rows are exactly the live posts with an author that match the condition, as many as there are, newest first |
| Community.SearchPosts | src/main/java/com/doll/gacha/community/repository/CommunityRepositoryImpl.java:24-74 | fails exactly when the condition does, with its error, or when the search is by nickname, whose count query cannot be built; otherwise the page holds the ordered rows from the offset, at most one page of them; the total is the count query's result (live matching posts, author or not) when the page is empty or ends within that count, and offset plus page length otherwise |
| Community.NicknameSearchFails | src/main/java/com/doll/gacha/community/repository/CommunityRepositoryImpl.java:29-71 | a nickname search with a non-blank keyword always fails, while a title search with the same keyword succeeds |
| Community.ListRow | src/main/java/com/doll/gacha/community/CommunityService.java:59-65 | a listing row is the post with no images and no attachments |
| Community.ListPosts | src/main/java/com/doll/gacha/community/CommunityService.java:50-68 | fails exactly when the search does, with its error; an empty result page is answered with total 0, otherwise with the search's total and one summary row per post, in order |
| Community.ListedRowsMatch | src/main/java/com/doll/gacha/community/CommunityService.java:50-68 | every listed row is a stored, live post with an author that satisfies the search, and the rows are newest first |
| Community.BlankKeywordIgnoresType | src/main/java/com/doll/gacha/community/repository/CommunityRepositoryImpl.java:58-61 | with a blank or missing keyword the listing succeeds and does not depend on the search type, even a null one |
| Community.UnknownTypeListsAll | src/main/java/com/doll/gacha/community/repository/CommunityRepositoryImpl.java:69-73 | an unrecognised search type lists the same page as no search at all |
| Community.FindWithUser | src/main/java/com/doll/gacha/community/repository/CommunityRepository.java:16-22 | answers the first post with that id that has an author, and nothing exactly when there is no such post |
| Community.FindWithUserFirst | src/main/java/com/doll/gacha/community/repository/CommunityRepository.java:16-22 | the first joined row with the id is the one found |
| Community.AttachmentInfo | src/main/java/com/doll/gacha/community/CommunityService.java:93-101 | an attachment entry carries the file's id, original name and size |
| Community.FilesOfUsage | src/main/java/com/doll/gacha/community/CommunityService.java:88-95 | the files of one usage are exactly those of the input with that usage, as many as there are |
| Community.ImageUrls | src/main/java/com/doll/gacha/community/CommunityService.java:88-91 | one upload URL per IMAGES file, in table order |
| Community.Attachments | src/main/java/com/doll/gacha/community/CommunityService.java:93-101 | one attachment entry per ATTACHMENT file, in table order |
| Community.PostDetail | src/main/java/com/doll/gacha/community/CommunityService.java:74-104 | fails exactly when the post is missing, has no author or is deleted; otherwise the stored post's view count is incremented once and the view carries the post's image URLs and attachments |
| Community.ImagesComeFromPostFiles | src/main/java/com/doll/gacha/community/CommunityService.java:85-91 | every image URL of the view is the upload URL of an IMAGES file attached to that post |
| Community.AttachmentsComeFromPostFiles | src/main/java/com/doll/gacha/community/CommunityService.java:85-101 | every attachment of the view describes an ATTACHMENT file attached to that post |
| Community.EveryImageListed | src/main/java/com/doll/gacha/community/CommunityService.java:85-91 | conversely, every IMAGES file attached to the post appears among the image URLs |
| Community.EveryAttachmentListed | src/main/java/com/doll/gacha/community/CommunityService.java:85-101 | every ATTACHMENT file attached to the post appears among the attachments, with its download link built from its id |
| Community.DetailSplitsFiles | src/main/java/com/doll/gacha/community/CommunityService.java:88-101 | the images and attachments together are as many as the post's IMAGES and ATTACHMENT files: a thumbnail shows up in neither |
| Community.UpdatePost | src/main/java/com/doll/gacha/community/CommunityService.java:110-124 | a missing or deleted post fails as missing; a stranger fails as not the author; otherwise only that post's title and content change |
| Community.DeletePost | src/main/java/com/doll/gacha/community/CommunityService.java:131-148 | a missing post fails as missing, a stranger as not the author; otherwise the entity's soft delete decides: its failure is passed on, its result replaces only that post |
| Community.DeletedPostGuardsDiffer | src/main/java/com/doll/gacha/community/CommunityService.java:110-148 | on a deleted post a stranger's edit fails as missing while the stranger's delete fails as not the author |
| Community.DeletedPostIsGone | src/main/java/com/doll/gacha/community/CommunityService.java:74-148 | after a delete that sets the flag, the post can no longer be viewed or edited and matches no listing condition |
| OAuthState.Load | src/main/java/com/doll/gacha/jwt/config/InMemoryAuthorizationRequestRepository.java:22-29 | a request is found exactly when the callback carries a state that is filed, and it is the one filed under that state |
| OAuthState.Save | src/main/java/com/doll/gacha/jwt/config/InMemoryAuthorizationRequestRepository.java:31-38 | a null request leaves the store alone; a request with a null state fails; otherwise the request is filed under its state, replacing only that entry and keeping all others |
| OAuthState.Remove | src/main/java/com/doll/gacha/jwt/config/InMemoryAuthorizationRequestRepository.java:54-62 | answers exactly what a load answers and leaves the store unchanged |
| OAuthState.Delete | src/main/java/com/doll/gacha/jwt/config/InMemoryAuthorizationRequestRepository.java:64-70 | a null state changes nothing; otherwise exactly that key is removed and every other entry is kept as it was |
| OAuthState.SaveThenLoad | src/main/java/com/doll/gacha/jwt/config/InMemoryAuthorizationRequestRepository.java:22-38 | a saved request is found again under its own state |
| OAuthState.RemoveIsRepeatable | src/main/java/com/doll/gacha/jwt/config/InMemoryAuthorizationRequestRepository.java:54-62 | repeating the remove finds the same request and never changes the store |
| OAuthState.DeleteThenLoad | src/main/java/com/doll/gacha/jwt/config/InMemoryAuthorizationRequestRepository.java:22-29 | after the explicit delete the request is no longer found, and every other request still is |
| OAuthState.SaveThenDelete | src/main/java/com/doll/gacha/jwt/config/InMemoryAuthorizationRequestRepository.java:31-70 | saving and then deleting a request leaves exactly the other entries |
| RefreshTokens.GetRefresh | src/main/java/com/doll/gacha/jwt/service/RefreshService.java:22-25 | no match gives nothing, more than one matching row is an error, one row gives that row, which is stored and carries the token |
| RefreshTokens.DeleteByUsername | src/main/java/com/doll/gacha/jwt/repository/RefreshRepository.java:7 | the rows that remain are exactly the stored rows of other users |
| RefreshTokens.DeleteRefresh | src/main/java/com/doll/gacha/jwt/service/RefreshService.java:40-43 | the rows that remain are exactly the stored rows with another token, and no row is added |
| RefreshTokens.SaveRefresh | src/main/java/com/doll/gacha/jwt/service/RefreshService.java:27-38 | fails exactly when the token's user is unknown; otherwise the user's earlier rows are gone and one new row for that user with the token is added last |
| RefreshTokens.SaveLeavesOneToken | src/main/java/com/doll/gacha/jwt/service/RefreshService.java:27-38 | after a save the user holds exactly one row, the one with the new token |
| RefreshTokens.SavePreservesOnePerUser | src/main/java/com/doll/gacha/jwt/service/RefreshService.java:27-38 | if every user held at most one token before a save, that is still true after it |
| RefreshTokens.DeletePreservesOnePerUser | src/main/java/com/doll/gacha/jwt/service/RefreshService.java:40-43 | deleting a token keeps every user at no more than one token |
| RefreshTokens.SaveThenGet | src/main/java/com/doll/gacha/jwt/service/RefreshService.java:22-38 | when no other user holds the same token, a saved token is then looked up as the user's new row |
| RefreshTokens.DeleteThenGet | src/main/java/com/doll/gacha/jwt/service/RefreshService.java:22-43 | a deleted token is no longer found, and the lookup of any other token is unaffected |

## Left out

- **Spring, JPA and QueryDSL plumbing.**
  - Controllers, security configuration, the default pageable and the page-size cap are left out. A `PageRequest` is simply given.
  - Transactions are modelled only by their outcome: a failing service call returns the old tables.
- **`@Size` on the community title** counts UTF-16 code units in Java. The model counts characters of a Dafny string, so the two differ on characters outside the Basic Multilingual Plane.
- **Floating-point averages.** SQL `AVG` and `avg().coalesce(0.0)` are modelled as exact real quotients. Coordinates and Java `double` rounding are not modelled.
- **Case-insensitive matching** (`containsIgnoreCase`, `lower(..) like`) folds only ASCII letters. Korean text has no case, so only other alphabets are affected.
- **Parameters instead of calls.** File I/O, UUID generation, the clock, JSON seed-file reading and `LocalDate` parsing become parameters:
  - the write outcome;
  - the UUID string;
  - `now`/`today`;
  - the parsed records;
  - a `parseDate` function.

  Nothing about their behaviour is assumed.
- OAuthState: the five-minute expiry thread that `saveAuthorizationRequest` starts is concurrency and timing, and is not modelled. The model's store keeps every entry until it is deleted explicitly.
- RefreshTokens.SaveRefresh: extracting the username from the JWT is left out, and the username is an input. On an unknown user, the transaction's rollback is modelled as the table left unchanged.
- RefreshTokens: `existsByUserEntity_Username` is not used by the modelled service and is not modelled.
- Community.DeletePost, Community.PostDetail, Community.UpdatePost and Community.CreatePost: `CommunityEntity` is not part of this model. Its `softDelete` and `incrementViewCount` are parameters (`PostOps`), and the contracts speak about them only through those parameters. Its `update` is taken to set title and content, its `isWrittenBy` the same author check as the comment's, and its persist hook to stamp `createdAt` with the current time, as the comment's `onCreate` does.
- Community.SearchPosts: the count query has no join with the author, while the content query has an inner join. For a title search or no search, posts without an author are therefore counted but never listed, and the model keeps this difference. A nickname search puts a condition on the author's alias into the count query, which never declares that alias. Read as written, the persistence provider refuses that query, so the model answers every nickname search with an `InvalidQuery` error. Had the provider joined the author implicitly instead, the nickname search would list posts as the content query does; the model does not cover that reading.
- **The Oauth2 login controller and success handler** (URL building, cookies, token issuance) are left out. They are request plumbing and have no state rule.
- **Plain field-copy projections** (`DollShopMapDTO`, `ReviewDTO.from`, `ReviewWithFilesDTO`, `FileDetailDTO`, the statistics holders) appear only as the records the listing functions build.
- **One review per shop per day:** `src/test/java/com/doll/gacha/review/ReviewControllerIntegrationTest.java:83` backdates a stored review by a day to avoid a duplicate review, which suggests such a rule. No check of that kind exists in `review/ReviewService.java`, so the model has none. The three-argument `createReview` that `ReviewController` calls is not among the service's methods, and neither is `updateReview`; both are not part of this model.
- ReviewService.GetReviewStats: `ReviewStatsDTO.empty()` gives zeros only when the shop has no live reviews. With live reviews, a cost average is null when no review gives that cost, and the model returns `None` there.
- ReviewService.DeleteReview: `setIsDeleted` is not declared on `ReviewEntity`. The model takes it to set the flag. The commit then also refreshes `updatedAt` through `@PreUpdate`, and `DeleteCommit` states that.
- LegacyShopSearch.SetThumbnails: the legacy `DollShop` declares no `setImagePath`, although `dollshop/DollShopRepositoryCustomImpl.java` calls it. The model follows the evident intent.
- LegacyShopSearch.OrderedMatches: the legacy query calls `offset`/`limit` before `orderBy`. This builds the same SQL, so the model sorts first and then slices.
- ShopLoading.Initialize: `service/DataInitializer` seeds a `User` entity that is not part of this model. The user table is generic in its element type. It also saves `com.doll.gacha.entity.DollShop` (DataInitializer.java:3), which is not part of this model; the model stores the `dollshop.DollShop` records of the rest of the model in its place and assumes the two carry the same fields.
- ShopLoading: `HomeController.init()` is no longer a `@PostConstruct`. Its converter is modelled as a function, but nothing calls it at start-up. The page routes of `HomeController` are not modelled.
- Addresses.ParseAddress: the unguarded variant reads `parts[0]`. On a null address, or one made only of spaces, this fails, and the model returns the corresponding error instead of throwing.
- Sorting.SortBy: SQL `ORDER BY` leaves the order of rows with equal keys to the database, and where NULL sorts depends on the database, which the repository does not name. The model sorts NULL lowest and keeps equal keys in table order. So which rows fall into a page window over equal keys is the model's choice: reviews with the same `createdAt`, for instance, or shops with the same rating.
- Users.FindByUsername: `UserEntity` is not part of this model, so no uniqueness constraint on usernames is visible. The model takes usernames to be unique and answers the first match. Spring's derived single-result query would instead throw `IncorrectResultSizeDataAccessException` on duplicate rows.
- LegacyReviews.CreateReview: for a review whose id names no stored row, the model inserts a new row under the next id, as Hibernate's `merge` does up to version 6.5; later versions refuse such a merge, and the build is not part of this model. The merge also replaces the stored review's image list by the bound review's, which `orphanRemoval` would delete; images are not part of the review rows here. The `length = 2000` limit on `content` is not modelled, for this and for the current review.
- FileServices.GetFilePaths: `FileService` calls `searchFiles` on `com.doll.gacha.file.repository.FileRepository` (FileService.java:4,35), which is not part of this model. The model uses `common/repository/FileRepositoryCustomImpl.searchFiles` in its place, and so assumes that repository filters and orders the same way.
- Files.FindFilePathMapByRefIds and Community.FindWithUser: their queries have no `ORDER BY` (FileRepositoryCustomImpl.java:32-50, CommunityRepository.java:16-22), so the database fixes no row order. The model reads rows in table order, so "the first file" or "the first joined row" is the first in table order. The same holds for `Files.SearchFiles`, `Files.PathPairsFirst` and `Community.FindWithUserFirst`.
- **Query-count guarantees** (no N+1 queries) cannot be expressed over values, and are not modelled.
