# Weather forecast service core, in Dafny

This project models the ASP.NET Core weather forecast service's core behaviour and proves properties of the model. It covers:

- **The two in-memory forecast controllers.** The versioned V1 controller and the plain one each keep a `forecast` table keyed by a string `Id`, which ASP.NET Core builds afresh for every request (see Left out). Each offers Get, GetById, Create, Update and Delete, with BadRequest and NotFound outcomes. Each is a Dafny `class` with a `seq<Forecast>` field, and each action is a method returning an `ActionResult` value instead of an HTTP response. The V1 validator and the clock's `today` are parameters. The mapper is the identity.
- **Pagination.** This covers `PaginationQuery` and its defaults, `PagedResult` and `PagedResultResponse` with their derived `TotalPages`, and `ToPagedResultAsync`. That last one runs an optional substring search, then an optional sort by a column, then the count, then one page. It is modelled over sequences. The element's string form (`ToString()`) and a column's sort key are parameters.
- **The generic repository `SqlDatabaseRepo`.** It works on one entity set of a `DbContext`. That context is a class with a `seq` of rows and a save counter. A null argument is an `Option`, and a thrown exception is a `Failure` of a `Result`.
- **`ServicesDbContext.UpdateTimestamps`.** This is the change-tracker handler that stamps `Version`, `CreatedDate` and `ModifiedDate` of a `BaseEntity` by entry state. It is a method on a `BaseEntity` class, specified by a pure function `Stamp`. The clock and `Guid.NewGuid()` are inputs, and the new GUID's freshness is a precondition. This part also covers the table's seed rows and the uniqueness of their ids.
- **`DtoValidator`.** Two independent rules with fixed messages, as a function from a forecast to its list of failures.

Modules follow the source:

| Module | Source |
|---|---|
| `Primitives` | C# `int` and `string` behaviour used throughout: wrap-around, saturation, white space, `Contains`, `ToLower`, and `Convert.ToInt32` with its round trip |
| `Linq` | `Where`, `FirstOrDefault`, `Skip`, `Take` and the stable `OrderBy`/`OrderByDescending` |
| `Forecasts` | the forecast record |
| `DtoValidator` | the validator |
| `ForecastTable` | what both controllers share |
| `WeatherForecastV1` | the versioned controller |
| `WeatherForecastBasic` | the plain controller |
| `Pagination` | the pagination types and the query pipeline |
| `SqlRepository` | the repository |
| `ServicesDb` | timestamps and seed rows |

Semantics chosen where the code leaves a choice:

- **TotalPages.** `TotalPages` is `(int)Math.Ceiling((double)TotalCount / PageSize)`. For Int32 operands and a non-zero size, the rounded double quotient never crosses an integer, so this is the exact integer ceiling. The host uses the .NET 9 OpenAPI API, so the double-to-int cast saturates. A zero page size therefore gives 0 pages for a zero count (NaN), and the Int32 bound of the count's sign otherwise (an infinity).
- **Page offset.** `(PageNumber - 1) * PageSize` is unchecked Int32 arithmetic, so it wraps. `Skip` and `Take` of a negative count skip or take nothing, as LINQ over sequences does; `HugePageNumberWrapsToFirstPage` describes that reading. Through EF Core, FilterPaginationAsync's only path, a negative offset is passed to the database instead: SQL Server rejects it and SQLite treats it as 0. That database behaviour is not modelled.
- **Filter(id).** `Convert.ToInt32(id)` accepts white space, an optional sign and decimal digits. It fails with a format error or an overflow. `Find` then needs an Int32 key.
  - ServicesDbContext has two entity sets. The forecast table (`WeatherForecasts`) has a string key, so on its repository `Find` with an Int32 value fails with a key-type mismatch (`TextKind`). Its ids are GUID strings, so they already fail at the parse (`SeedIdsAreInvalidFormat`, `GuidIdIsInvalidFormat`).
  - The user-activity table (`UserActivities`, wrapped by `UserActivityDbRepo`) has an Int32 key, so on its repository the parsed id is looked up (`Int32Kind`): the row with that key, or "Entity not found." (`FindAfterCreate`).
- **The V1 sample rows' date.** The V1 controller assigns `DateTime.Now` to the `DateOnly` property `Date` (Controllers/v1/WeatherForecastV1Controller.cs:44-68). C# has no implicit conversion from DateTime to DateOnly, so those lines do not compile as written. The model reads them as the plain controller's `DateOnly.FromDateTime(DateTime.Now)`, today's date, which is the `today` parameter of the constructor.
- **ArgumentNullException.** `ArgumentNullException(NullEntity, nameof(NullEntity))` passes the message text as the parameter name.

## Model

| member | source | states |
|---|---|---|
| Primitives.Wrap32 | Configuration/QueryableExtensions.cs:40 | the unchecked Int32 result is congruent to the exact value modulo 2^32 and equals it when it fits |
| Primitives.Saturate32 | Database/Models/PagedResult.cs:56 | the double-to-int cast keeps in-range values and clamps the rest to the bound on their side |
| Primitives.IsNullOrWhiteSpace | Configuration/QueryableExtensions.cs:21 | string.IsNullOrWhiteSpace, also used by every id check in both controllers (Controllers/v1/WeatherForecastV1Controller.cs 140, 262, 339; Controllers/WeatherForecastController.cs 89, 186, 238): null, or every character white space |
| Primitives.ParseInt32 | Database/Repository/SqlDatabaseRepo.cs:57 | Convert.ToInt32(id), also at line 132: trim white space, an optional sign, then decimal digits, with FormatError and OverflowError; its properties are ParseFormatRoundTrip and NonNumeralRejected |
| Primitives.ToLower | Configuration/QueryableExtensions.cs:32 | definition: each character lower-cased on its own (ASCII capitals); its property is Pagination.DescInAnyCase |
| Primitives.ParseFormatRoundTrip | Database/Repository/SqlDatabaseRepo.cs:57 | Convert.ToInt32 reads back every Int32's decimal form |
| Primitives.NonNumeralRejected | Database/Repository/SqlDatabaseRepo.cs:57 | a character that is not white space, a sign or a digit anywhere in the id makes the parse throw FormatException |
| Linq.KeptFacts | Configuration/QueryableExtensions.cs:24-26 | filtering keeps only elements that satisfy the predicate, each exactly as often as the source holds it |
| Linq.KeptConcat | Configuration/QueryableExtensions.cs:24-26 | filtering distributes over concatenation |
| Linq.Where | Database/Repository/SqlDatabaseRepo.cs:37 | Where keeps exactly the elements satisfying the predicate, with their multiplicities, and adds nothing |
| Linq.WhereConcat | Configuration/QueryableExtensions.cs:24-26 | Where keeps relative order: it distributes over concatenation |
| Linq.WhereAll | Controllers/v1/WeatherForecastV1Controller.cs:362 | Where returns the sequence itself when every element qualifies |
| Linq.IndexOfFirst | Controllers/v1/WeatherForecastV1Controller.cs:150 | the index of the first element satisfying the predicate; none iff no element does |
| Linq.FirstOrDefault | Database/Repository/SqlDatabaseRepo.cs:84 | null iff nothing qualifies; otherwise the first qualifying element: it qualifies and no element before it does |
| Linq.Skip | Configuration/QueryableExtensions.cs:40 | definition: Enumerable.Skip, the suffix after min(n, length) elements, nothing dropped for n ≤ 0; its properties are Pagination.PageSliceIsPage and HugePageNumberWrapsToFirstPage |
| Linq.Take | Configuration/QueryableExtensions.cs:41 | definition: Enumerable.Take, the first min(n, length) elements, none for n ≤ 0; its property is Pagination.PageSliceIsPage |
| Linq.Insert | Configuration/QueryableExtensions.cs:59-76 | insertion into a sorted sequence adds exactly the one element and keeps it sorted |
| Linq.SortBy | Configuration/QueryableExtensions.cs:59-76 | OrderBy/OrderByDescending return a permutation whose keys are in the requested order |
| Forecasts.InitialForecasts | Controllers/v1/WeatherForecastV1Controller.cs:41-72 | five rows, each with an id and today's date |
| Forecasts.InitialIdsDistinct | Controllers/WeatherForecastController.cs:23-54 | the five initial rows have pairwise distinct ids |
| DtoValidator.Validate | Validator/DtoValidator.cs:17-25 | valid iff Date is not its default and TemperatureC is not 0; each message appears iff its rule fails; no other message appears |
| DtoValidator.OnlyDateAndTemperatureMatter | Validator/DtoValidator.cs:15-26 | forecasts equal in Date and TemperatureC validate alike |
| DtoValidator.BothRulesReported | Validator/DtoValidator.cs:17-25 | a forecast failing both rules gets both messages, the date rule's first |
| ForecastTable.ToDictionary | Controllers/v1/WeatherForecastV1Controller.cs:210 | validationResult.ToDictionary(), also at line 278; its properties are ToDictionaryFacts and ToDictionaryGroups |
| ForecastTable.MessagesFor | Controllers/v1/WeatherForecastV1Controller.cs:210 | the reference grouping: the messages of one property's failures, in failure order, with repeats |
| ForecastTable.MessagesForSnoc | Controllers/v1/WeatherForecastV1Controller.cs:210 | a failure added at the end adds its message at the end of its property's group |
| ForecastTable.ToDictionaryGroups | Controllers/v1/WeatherForecastV1Controller.cs:210 | for any validator: a property is a key iff it has a failure, and its entry is exactly its failures' messages in order, repeats included |
| ForecastTable.ToDictionaryFacts | Controllers/v1/WeatherForecastV1Controller.cs:210 | every failure's message is filed under its property, and every filed message comes from a failure of that property |
| ForecastTable.ValidationDictionary | Controllers/v1/WeatherForecastV1Controller.cs:205-211 | DtoValidator's 400 body has one entry per failing rule, holding that rule's message alone |
| ForecastTable.FindFirst | Controllers/v1/WeatherForecastV1Controller.cs:150 | FirstOrDefault(x => x.Id == id) finds the first row with the id; none iff no row has it |
| ForecastTable.FirstMatchUnique | Controllers/v1/WeatherForecastV1Controller.cs:150 | the first match is unique |
| ForecastTable.RemoveId | Controllers/v1/WeatherForecastV1Controller.cs:362 | no row with the id remains, the other rows keep their multiplicity, and the table shrinks iff the id was present |
| ForecastTable.RemoveIdConcat | Controllers/WeatherForecastController.cs:261 | removal keeps the survivors in relative order |
| ForecastTable.WhereFullLength | Controllers/v1/WeatherForecastV1Controller.cs:362 | a Where that keeps as many elements as it was given keeps them all |
| ForecastTable.CopyEditableFields | Controllers/v1/WeatherForecastV1Controller.cs:304-306 | Date, TemperatureC and Summary come from the body; Id and TemperatureF stay |
| WeatherForecastV1.WeatherForecastController.constructor | Controllers/v1/WeatherForecastV1Controller.cs:41-72 | the table starts with the five sample rows |
| WeatherForecastV1.WeatherForecastController.Get | Controllers/v1/WeatherForecastV1Controller.cs:110-115 | returns the table itself and changes nothing |
| WeatherForecastV1.WeatherForecastController.GetById | Controllers/v1/WeatherForecastV1Controller.cs:138-166 | a blank id is BadRequest before any lookup; a missing id is NotFound; otherwise the first match |
| WeatherForecastV1.WeatherForecastController.Create | Controllers/v1/WeatherForecastV1Controller.cs:200-221 | an invalid body is BadRequest with the validator's dictionary and no change; a valid one is appended unchecked for id clashes and returned |
| WeatherForecastV1.WeatherForecastController.Update | Controllers/v1/WeatherForecastV1Controller.cs:257-309 | blank id, then invalid body, then missing id, each with no change; otherwise only Date, TemperatureC and Summary of the first match change; length, Id and every other row stay |
| WeatherForecastV1.WeatherForecastController.Delete | Controllers/v1/WeatherForecastV1Controller.cs:337-365 | blank id is BadRequest and missing id NotFound, with no change; otherwise every row with the id is removed |
| WeatherForecastBasic.WeatherForecastController.constructor | Controllers/WeatherForecastController.cs:23-54 | the table starts with the five sample rows |
| WeatherForecastBasic.WeatherForecastController.Get | Controllers/WeatherForecastController.cs:71-74 | returns the table itself and changes nothing |
| WeatherForecastBasic.WeatherForecastController.GetById | Controllers/WeatherForecastController.cs:87-113 | a blank id is BadRequest; a missing id is NotFound; otherwise the first match |
| WeatherForecastBasic.WeatherForecastController.Create | Controllers/WeatherForecastController.cs:145-169 | a null body is BadRequest with no change; otherwise the body, its Date set to today, is appended and returned |
| WeatherForecastBasic.WeatherForecastController.Update | Controllers/WeatherForecastController.cs:181-224 | no validation; blank id and missing id leave the table alone; otherwise only three fields of the first match change |
| WeatherForecastBasic.WeatherForecastController.Delete | Controllers/WeatherForecastController.cs:236-264 | blank id and missing id leave the table alone; otherwise every row with the id is removed |
| Pagination.CeilQuotient | Database/Models/PagedResult.cs:56 | the least integer q with q ≥ a / b, for either sign of b |
| Pagination.MulMonotone | Database/Models/PagedResult.cs:56 | multiplying by a non-negative factor keeps order |
| Pagination.CeilingUnique | Database/Models/PagedResult.cs:56 | the ceiling characterisation pins the page count down |
| Pagination.PagesFor | Database/Models/PagedResult.cs:56 | for a positive size and non-negative count: pages × size ≥ count > (pages − 1) × size; saturated ceiling for other non-zero sizes; 0, MaxValue or MinValue for size 0 |
| Pagination.CeilQuotientBounds | Database/Models/PagedResult.cs:56 | the ceiling lies between 0 and the count, so it needs no saturation |
| Pagination.CeilByDivision | Database/Models/PagedResult.cs:56 | (count + size − 1) / size is a ceiling |
| Pagination.PagesForIsCeiling | Database/Models/PagedResult.cs:56 | TotalPages is the integer ceiling of TotalCount / PageSize; zero items give zero pages |
| Pagination.TwentyFiveRowsMakeThreePages | Database/Models/PagedResult.cs:56 | 25 rows in pages of 10 are 3 pages |
| Pagination.PagedResult.New | Database/Models/PagedResult.cs:20-31 | the constructor stores its four arguments unchanged |
| Pagination.PagedResult.Empty | Database/Models/PagedResult.cs:11 | the parameterless constructor has no items, zeros, and 0 pages |
| Pagination.PagedResultResponse.New | Models/PagedResultResponse.cs:20-31 | the constructor stores its four arguments unchanged |
| Pagination.PagedResultResponse.Empty | Models/PagedResultResponse.cs:11 | the parameterless constructor has no items, zeros, and 0 pages |
| Pagination.PagedResultTotalPages | Database/Models/PagedResult.cs:41-56 | TotalPages follows any assignment to TotalCount and PageSize: it bounds the count from above within one page, and is 0 for no items |
| Pagination.PagedResultResponseTotalPages | Models/PagedResultResponse.cs:43-61 | the same for the response type |
| Pagination.PagedResult.TotalPages | Database/Models/PagedResult.cs:56 | the derived TotalPages, PagesFor of the record's count and size; its properties are PagedResultTotalPages and PagesForIsCeiling |
| Pagination.PagedResultResponse.TotalPages | Models/PagedResultResponse.cs:61 | the derived TotalPages of the response; its properties are PagedResultResponseTotalPages and PagesForIsCeiling |
| Pagination.ApplySearch | Configuration/QueryableExtensions.cs:21-28 | a null or blank term filters nothing; otherwise exactly the elements whose string form contains the term, with their multiplicities |
| Pagination.ApplySearchConcat | Configuration/QueryableExtensions.cs:24-26 | the search keeps the original order |
| Pagination.IsDescending | Configuration/QueryableExtensions.cs:32 | `SortDirection?.ToLower() == "desc"`: a non-null direction that lower-cases to "desc"; its property is DescInAnyCase |
| Pagination.DescInAnyCase | Configuration/QueryableExtensions.cs:32 | a direction sorts descending iff it is the four letters d, e, s, c, each in either case |
| Pagination.DescendingDirections | Configuration/QueryableExtensions.cs:32 | samples: "desc", "DESC" and "Desc" sort descending; null, "asc" and "descending" do not |
| Pagination.ApplySort | Configuration/QueryableExtensions.cs:30-35 | a null or empty column leaves the order alone; otherwise a permutation with non-increasing keys for "desc" and non-decreasing keys for any other direction |
| Pagination.SkipCount | Configuration/QueryableExtensions.cs:40 | `(PageNumber - 1) * PageSize` in unchecked Int32 arithmetic; its properties are PageSliceIsPage and HugePageNumberWrapsToFirstPage |
| Pagination.PageSlice | Configuration/QueryableExtensions.cs:39-42 | the page is a contiguous run of at most PageSize elements |
| Pagination.PageStart | Configuration/QueryableExtensions.cs:40 | the offset of a page numbered from 1 is never negative |
| Pagination.PageSliceIsPage | Configuration/QueryableExtensions.cs:39-42 | when the offset fits, the page starts at (PageNumber − 1) × PageSize and holds min(PageSize, max(0, count − offset)) elements |
| Pagination.HugePageNumberWrapsToFirstPage | Configuration/QueryableExtensions.cs:40 | page 1073741825 of size 2 wraps to a negative offset and returns the first two elements |
| Pagination.ToPagedResult | Configuration/QueryableExtensions.cs:18-50 | search, then sort, then count the whole filtered sequence, then slice; the page number and size are echoed; a count beyond Int32 throws |
| Pagination.DefaultQueryFirstPage | Database/Models/PaginationQuery.cs:11-31 | the default query (page 1 of 10, no term, no column) neither filters nor sorts: the first ten elements, the full count, ⌈count / 10⌉ pages |
| Pagination.TwentyFiveRowsFirstPage | Configuration/QueryableExtensions.cs:37-42 | 25 rows under the default query give a first page of 10 and 3 pages |
| SqlRepository.DbContext.SaveChanges | Database/Repository/SqlDatabaseRepo.cs:170-173 | a save counts once and leaves the rows as they are; SaveChangesAsync (176-179) is the same |
| SqlRepository.RemoveKey | Database/Repository/SqlDatabaseRepo.cs:76 | after Remove and a save, no row has the key and every other row keeps its multiplicity |
| SqlRepository.ReplaceKey | Database/Repository/SqlDatabaseRepo.cs:87 | definition: after marking the entity Modified and a save, the row with its key holds its values and every other row stays; the Update contracts carry it |
| SqlRepository.SqlDatabaseRepo.constructor | Database/Repository/SqlDatabaseRepo.cs:21-24 | keeps the context it is given |
| SqlRepository.SqlDatabaseRepo.New | Database/Repository/SqlDatabaseRepo.cs:21-24 | a null context throws ArgumentNullException("context"); otherwise a fresh repository over that context |
| SqlRepository.SqlDatabaseRepo.Filter | Database/Repository/SqlDatabaseRepo.cs:29-32 | the whole set, tracked; FilterAsync() (104-107) is the same |
| SqlRepository.SqlDatabaseRepo.FilterBy | Database/Repository/SqlDatabaseRepo.cs:35-38 | exactly the stored rows satisfying the predicate, with their multiplicities and in store order (Where, which distributes over concatenation), tracked; FilterAsync(predicate) (110-113) is the same |
| SqlRepository.SqlDatabaseRepo.FilterAsNoTracking | Database/Repository/SqlDatabaseRepo.cs:41-44 | the whole set, untracked; the async twin (116-119) is the same |
| SqlRepository.SqlDatabaseRepo.FilterAsNoTrackingBy | Database/Repository/SqlDatabaseRepo.cs:47-50 | the rows Filter(predicate) yields, in store order, untracked; the async twin (122-125) is the same |
| SqlRepository.SqlDatabaseRepo.FilterById | Database/Repository/SqlDatabaseRepo.cs:53-59 | null id, format error, overflow and key-type mismatch each throw their own exception; otherwise a stored row with that Int32 key, or "Entity not found." iff there is none; FilterAsync(id) (128-134) is the same |
| SqlRepository.SqlDatabaseRepo.Create | Database/Repository/SqlDatabaseRepo.cs:62-69 | null throws with no change and no save; otherwise the entity is appended, saved once and returned; CreateAsync (137-144) is the same |
| SqlRepository.SqlDatabaseRepo.Delete | Database/Repository/SqlDatabaseRepo.cs:72-79 | null throws with no change and no save; otherwise the entity's row is removed, saved once, and the argument returned; DeleteAsync (158-165) is the same |
| SqlRepository.SqlDatabaseRepo.Update | Database/Repository/SqlDatabaseRepo.cs:82-90 | no match throws "Entity not found." before the null check, even for a null entity; then null throws; otherwise the entity's row is replaced, saved once, and the argument returned |
| SqlRepository.SqlDatabaseRepo.UpdateAsync | Database/Repository/SqlDatabaseRepo.cs:147-155 | the same outcomes in the same order as Update, the lookup running untracked; the two differ in the source only in the identity conflict a tracked lookup can raise, which is not modelled (see Left out) |
| SqlRepository.SqlDatabaseRepo.FilterPagination | Database/Repository/SqlDatabaseRepo.cs:97-101 | the set is first put into primary-key order (a permutation whose key ranks do not decrease), then paged by ToPagedResultAsync |
| SqlRepository.FilterPaginationDefault | Database/Repository/SqlDatabaseRepo.cs:97-101 | with the default query: the ten rows with the lowest keys, in key order, and the whole set's count |
| SqlRepository.FindAfterCreate | Database/Repository/SqlDatabaseRepo.cs:53-69 | on an Int32-keyed set, a row created under a new key n is found by the id n.ToString() |
| SqlRepository.GuidIdIsInvalidFormat | Database/Repository/SqlDatabaseRepo.cs:53-59 | every GUID string id throws FormatException in Filter(id) |
| SqlRepository.NonNumeralIdIsInvalidFormat | Database/Repository/SqlDatabaseRepo.cs:57 | an id with a non-numeral character throws FormatException in Filter(id) |
| SqlRepository.SeedIdsAreInvalidFormat | Database/Contexts/ServicesDbContext.cs:324-380 | Filter(id) rejects each seed row's id as malformed |
| ServicesDb.Stamp | Database/Contexts/ServicesDbContext.cs:393-408 | Added sets CreatedDate and Version, Modified sets ModifiedDate and Version, every other state changes nothing, CreatedBy never changes |
| ServicesDb.VersionChangesExactlyOnWrites | Database/Contexts/ServicesDbContext.cs:398-407 | with a fresh GUID, Version changes iff the state is Added or Modified |
| ServicesDb.StampAll | Database/Contexts/ServicesDbContext.cs:38-39 | a run of tracker events never changes CreatedBy |
| ServicesDb.CreatedDateSurvives | Database/Contexts/ServicesDbContext.cs:398-407 | after Added, CreatedDate and CreatedBy survive any run of later events that does not add the entity again |
| ServicesDb.BaseEntity.constructor | Database/Models/BaseEntity.cs:11-32 | an entity holding the given field values |
| ServicesDb.BaseEntity.Fields | Database/Models/BaseEntity.cs:16-31 | the four fields, read as one value |
| ServicesDb.UpdateTimestamps | Database/Contexts/ServicesDbContext.cs:389-410 | a non-BaseEntity is untouched; a BaseEntity's fields become Stamp of the old ones, and its Version changes iff the state is Added or Modified |
| ServicesDb.SeedIdsDistinct | Database/Contexts/ServicesDbContext.cs:241-244 | the five seed rows have pairwise distinct ids, as the key and the unique index demand |

## Left out

- TemperatureF: the setter ignores the assigned value and stores `32 + (int)(TemperatureC / 0.5556)`, a floating-point conversion of the TemperatureC held when it runs. JSON binding runs it for a body that carries `temperatureF`, so a body's value depends on the order of its properties. The model takes a body's TemperatureF as given; the controllers' initial rows never run the setter, so theirs is 0. The seed rows' TemperatureF and Version are not modelled.
- Forecast leaves out WeatherForecastDto's four BaseEntity fields (Version, CreatedBy, CreatedDate, ModifiedDate). The controllers never read or write them, so an Update keeps them too, but the model's "only three fields change" is stated over the five fields Forecast has.
- Rows are values, not objects. That the plain controller's Create changes the caller's own object is not modelled, and neither is the aliasing of the table between callers.
- The `forecast == null` checks in both Update actions are not modelled: the field is initialised and never set to null, so they cannot fire.
- A null body in the V1 actions and in the plain Update is not modelled: the code dereferences it without a check.
- The V1 controller's validator is the injected `IValidator<WeatherForecastDto>`, and it is a parameter. DtoValidator validates the plain `WeatherForecast`, a type whose source is not part of this model; it is taken to have the Forecast fields.
- The AutoMapper mapping in V1 Get and GetById is the identity.
- `DateTime.Now` is the parameter `today` (controllers) or `now` (timestamps). `Guid.NewGuid()` is the parameter `newGuid`. The default `Id = Guid.NewGuid().ToString()` of a body without an id is not modelled.
- Every SaveChanges is taken to succeed. The model leaves out these failures: a duplicate key on Create, a missing row on Delete or Update (a concurrency exception), and the identity conflict EF raises when Update marks an entity Modified while a different tracked instance has the same key. SaveChanges' returned row count is not modelled either.
- SqlRepository.SqlDatabaseRepo.FilterPagination: `OrderBy(x => x)` on an entity type is translated by EF Core into ordering by the primary key. The model orders rows by `keyRank` of their key, the database's order of key values (the collation of the string forecast ids is not modelled).
- The repository's DbContext runs no change-tracker handlers and generates no keys. In the service, ServicesDbContext's UpdateTimestamps stamps CreatedDate and a new Version as Create adds an entity and ModifiedDate and a new Version as Update marks it Modified, and the database generates UserActivityLogDto's Id on insert; the repository model stores and returns the entity as given. The stamping is specified on its own by `ServicesDb.Stamp` and `ServicesDb.UpdateTimestamps`.
- Pagination.ApplySort: a sort column that is not a property of the entity makes EF throw, and that case is not modelled. A column's values are an integer rank given by `sortKey`. The sort is stable, but its contract does not state stability.
- WeatherForecastV1.WeatherForecastController and WeatherForecastBasic.WeatherForecastController: ASP.NET Core creates a new controller for every request (`AddControllers()`, Program.cs:12, with the default activator), and `forecast` is an instance field set by its initializer. In the service every request therefore starts from the five sample rows, and no Create, Update or Delete survives its own request. A model instance stands for one request's controller; a sequence of calls on one instance describes what the actions do to the table, not a table that persists across requests.
- Pagination.ToPagedResult: the source counts and fetches in two separate database queries, `CountAsync` (Configuration/QueryableExtensions.cs:37) and then `Skip/Take(...).ToListAsync` (39-42). A write between them can make TotalCount disagree with Items. The model reads both from one snapshot of the ordered rows, so it does not show that race.
- Pagination.ApplySearch: the model's `show` stands for the string form the search evidently intends, and `Contains` is ordinal. In the service the only caller is FilterPaginationAsync, where the filter `x => x.ToString().Contains(term)` runs inside EF Core. EF Core has no SQL translation for `ToString()` on an entity and does not evaluate it on the client inside `Where`, so a non-blank search term makes the query throw instead of filtering. Over an in-memory sequence, WeatherForecastDto does not override `ToString()`, so every row's string form would be its type name.
- Primitives.ToLower: culture-specific lower-casing is not modelled. Only ASCII capitals change, and that decides the comparison with "desc" exactly.
- Convert.ToInt32: only ASCII digits, and white space per NumberStyles.Integer. Trailing NUL characters and culture-specific sign symbols are not modelled.
- Async and Task plumbing: each async member is modelled by its synchronous twin, except UpdateAsync, whose lookup differs.
- Logging in UpdateTimestamps and LogEntityChanges is not modelled.
- The order in which EF raises Tracked and StateChanged events is not modelled; StampAll models any run of them.

## Findings

None claimed.
