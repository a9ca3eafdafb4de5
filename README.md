# FinanceMaster in Dafny

A model of the FinanceMaster backend, a personal-finance bookkeeping service. Users register and log in through a server-side session. They keep named categories, book income and expense transactions against their own categories, list those transactions through optional category and date filters, and read an income/expense/balance summary of the same selection. The model also covers two earlier controller drafts (one backed by repositories, one in memory) and the three CORS configurations that derive the allowed-origin list.

How the source's forms are rendered:

- The relational store is the class `Store.Database`. It holds three tables as sequences in insertion order, plus their identity generators. `save`/`delete` are its methods. The derived queries are functions on table contents.
- The HTTP session is the class `Sessions.Session`: its `userId` attribute is an `Option`. Handlers that only read the session take that option as a parameter. Handlers that change the session are methods.
- The JPQL queries are pure functions. `findAllByFilter` is a filter followed by a stable sort, newest first. `calculateFinancialSummary` is a pair of SQL sums that are NULL when they see no non-NULL value.
- State-changing operations are methods. Each one states its whole new state in terms of a specification function of the old state. The ownership invariant (`Store.OwnersAgree`: every transaction carries the owner of its category) is kept by the services.
- Dates follow the ISO-8601 extended calendar date `YYYY-MM-DD`, that is `full-date` of section 5.6 of RFC 3339, with the day-of-month limits of section 5.7 and proleptic Gregorian leap years.
- Outside inputs become parameters:
  - `LocalDate.now()` is the `today` parameter.
  - The password encoder is a pair of functions, `encode` and `matches`. The only thing assumed about them is `EncoderSound`: `matches(p, encode(p))`.
  - Configuration values are `Option<string>` parameters.

A transaction's amount carries `@Positive` but no `@NotNull`. `@Positive` lets a missing amount through, so the model accepts an absent amount.

## Model

| member | source | states |
|---|---|---|
| TransactionRepository.FindAllByFilter | src/main/java/financemaster/persistence/repository/TransactionRepository.java:31-39 | result is sorted by date, newest first; each row occurs exactly as often as in the table if it matches every active filter, otherwise not at all |
| TransactionRepository.SortNewestFirst | src/main/java/financemaster/persistence/repository/TransactionRepository.java:35 | `ORDER BY t.date DESC` gives a non-increasing date order and a permutation of its input |
| TransactionRepository.ListingIsOwnedByUser | src/main/java/financemaster/persistence/repository/TransactionRepository.java:31 | every listed row is a row of the table owned by the given user |
| TransactionRepository.AbsentFiltersImposeNothing | src/main/java/financemaster/persistence/repository/TransactionRepository.java:20-22 | with no category and no dates, the listing is exactly the user's rows |
| TransactionRepository.CategoryFilterNarrows | src/main/java/financemaster/persistence/repository/TransactionRepository.java:32 | a category filter keeps exactly the unfiltered rows of that category |
| TransactionRepository.FromBoundInclusive | src/main/java/financemaster/persistence/repository/TransactionRepository.java:33 | `from` keeps exactly the dated rows on or after it; a row without a date fails the bound |
| TransactionRepository.ToBoundInclusive | src/main/java/financemaster/persistence/repository/TransactionRepository.java:34 | `to` keeps exactly the dated rows on or before it |
| TransactionRepository.SingleDayRange | src/main/java/financemaster/persistence/repository/TransactionRepository.java:33-34 | the range `[d, d]` lists exactly the user's rows dated `d` |
| TransactionRepository.DateRangeExample | src/test/java/financemaster/FinanceMasterIntegrationTest.java:286-297 | a January range over a January row and a February row lists only the January row |
| TransactionRepository.SumCaseMeaning | src/main/java/financemaster/persistence/repository/TransactionRepository.java:52-53 | the conditional sum is NULL exactly when every row has the type and a NULL amount; otherwise it is the total amount of the rows of that type |
| TransactionRepository.TypeTotalPermutation | src/main/java/financemaster/persistence/repository/TransactionRepository.java:47-48 | the total of one type is the same for any order of the rows |
| TransactionRepository.SumCasePermutation | src/main/java/financemaster/persistence/repository/TransactionRepository.java:52-53 | the SQL sum, NULL included, is the same for any order of the rows |
| TransactionRepository.SummaryMatchesListing | src/main/java/financemaster/persistence/repository/TransactionRepository.java:52-57 | the summary sums exactly the rows the listing returns |
| TransactionRepository.SummaryOrderIndependent | src/main/java/financemaster/persistence/repository/TransactionRepository.java:52-61 | tables holding the same rows in different orders give the same summary |
| TransactionRepository.SummaryOfNothingIsNull | src/main/java/financemaster/persistence/repository/TransactionRepository.java:52-57 | with no matching row both sums are NULL |
| TransactionService.GetFilteredTransactions | src/main/java/financemaster/service/TransactionService.java:27-29 | hands back the repository listing unchanged |
| TransactionService.GetFinancialSummary | src/main/java/financemaster/service/TransactionService.java:35-44 | income and expense are the totals of the listed rows of each type, with NULL read as 0; balance is income minus expense |
| TransactionService.SummaryOfNothingIsZero | src/main/java/financemaster/service/TransactionService.java:38-41 | with no matching row all three figures are 0 |
| TransactionService.SummaryExample | src/test/java/financemaster/FinanceMasterIntegrationTest.java:268-278 | an income of 1000 and an expense of 200 give a balance of 800 |
| TransactionService.ParseTxType | src/main/java/financemaster/service/TransactionService.java:64-68 | a type string is taken as a constant exactly when it equals the constant's name ignoring case |
| TransactionService.ParseTxTypeNames | src/main/java/financemaster/service/TransactionService.java:65 | any case variant of `INCOME`/`EXPENSE` reads as that constant |
| TransactionService.OwnedCategory | src/main/java/financemaster/service/TransactionService.java:53-55 | the category is found only when it exists and belongs to the user; with unique keys it fails exactly when no row of that key belongs to the user, and the failure is NotFound |
| TransactionService.NewTransaction | src/main/java/financemaster/service/TransactionService.java:50-80 | NotFound for a missing or foreign category, checked before the type; BadRequest for an unknown type; an owned category and a known type always succeed, with a row carrying the generated key, the session user, the owned category, the request's description, amount and parsed type, and the given date or today |
| TransactionService.CreateTransaction | src/main/java/financemaster/service/TransactionService.java:50-80 | result is `NewTransaction` of the old state; success appends exactly that row and advances the generator; failure changes nothing; the ownership invariant is kept |
| TransactionService.DeleteOwnedTransaction | src/main/java/financemaster/service/TransactionService.java:86-90 | deleting one's own transaction removes it and keeps every other row |
| TransactionService.DeleteForeignTransaction | src/test/java/financemaster/FinanceMasterIntegrationTest.java:318-333 | deleting a missing or foreign transaction leaves the table as it was |
| TransactionService.DeleteTransactionSafe | src/main/java/financemaster/service/TransactionService.java:86-90 | the new transaction table is the owner-checked deletion of the old one; nothing else changes; the ownership invariant is kept |
| Sessions.RequireUserId | src/main/java/financemaster/rest/controller/TransactionController.java:36-42 | passes exactly when the session holds a user id and returns it; otherwise Unauthorized |
| TransactionController.ParseDate | src/main/java/financemaster/rest/controller/TransactionController.java:48-57 | missing or blank gives no bound; otherwise it succeeds exactly when the text is the ISO form of a valid date, and then with that date; a failure is BadRequest |
| TransactionController.ParseDateFormatted | src/main/java/financemaster/rest/controller/TransactionController.java:53 | a valid date is read back from its ISO form |
| Dates.ParseIff | src/main/java/financemaster/rest/controller/TransactionController.java:53 | `LocalDate.parse` yields `d` exactly when `d` is a valid date whose ISO form is the text |
| Dates.ParseFormat | src/main/java/financemaster/rest/controller/TransactionController.java:53 | parsing the ISO form of a valid date gives that date |
| Dates.FormatParse | src/main/java/financemaster/rest/controller/TransactionController.java:53 | a text that parses is the ISO form of the date it parses to |
| TransactionController.Get | src/main/java/financemaster/rest/controller/TransactionController.java:63-73 | Unauthorized without a session user, before any date is parsed; BadRequest for a malformed `from` or `to`; it succeeds exactly when there is a session user and both dates parse, with the service listing for the session user; only the session user's rows come back |
| TransactionController.GetSummary | src/main/java/financemaster/rest/controller/TransactionController.java:79-86 | same guard and parameter handling as the listing, succeeding exactly when there is a session user and both dates parse, answered with the service summary |
| TransactionController.SummaryAgreesWithListing | src/main/java/financemaster/rest/controller/TransactionController.java:63-86 | whenever the listing succeeds, the summary of the same request succeeds and totals exactly the listed rows |
| TransactionController.BlankParametersAreAbsent | src/test/java/financemaster/FinanceMasterIntegrationTest.java:341-347 | blank `from`/`to` give the same answer as omitted ones, for the listing and for the summary |
| TransactionController.GuardBeforeDateParsing | src/test/java/financemaster/FinanceMasterIntegrationTest.java:113-116 | without a session both reads answer Unauthorized whatever the parameters |
| TransactionController.Create | src/main/java/financemaster/rest/controller/TransactionController.java:92-96 | a body breaking a constraint gets BadRequest; then without a session user, Unauthorized; otherwise the service result; only a success changes the store |
| TransactionController.Delete | src/main/java/financemaster/rest/controller/TransactionController.java:101-105 | Unauthorized and no change without a session user; otherwise the owner-checked delete |
| Dto.Validate | src/main/java/financemaster/dto/TransactionDto.java:6-12 | passes exactly when the description and the type are present and not empty after `trim()`, a present amount is positive and the category id is present; a failure is BadRequest |
| Dto.ValidateIff | src/main/java/financemaster/dto/TransactionDto.java:6-12 | passes exactly when the description and the type each hold a character above U+0020, a present amount is positive and the category id is present |
| Dto.ControlCharacterDescriptionRejected | src/main/java/financemaster/dto/TransactionDto.java:7 | a description made only of a control character is blank for `@NotBlank` and is rejected |
| Text.TrimEmptyIff | src/main/java/financemaster/dto/TransactionDto.java:7 | `trim()` leaves nothing exactly when every character is at most U+0020 |
| Dto.BlankDescriptionRejected | src/main/java/financemaster/dto/TransactionDto.java:7 | a missing or blank description is rejected |
| Dto.NonPositiveAmountRejected | src/main/java/financemaster/dto/TransactionDto.java:8 | a zero or negative amount is rejected |
| Dto.BlankTypeRejected | src/main/java/financemaster/dto/TransactionDto.java:9 | a missing or blank type is rejected |
| Dto.MissingCategoryRejected | src/main/java/financemaster/dto/TransactionDto.java:10 | a missing category id is rejected |
| Dto.DateUnconstrained | src/main/java/financemaster/dto/TransactionDto.java:11 | the date has no bearing on validity |
| Dto.NegativeAmountExample | src/test/java/financemaster/FinanceMasterIntegrationTest.java:251-260 | the test's body with amount -100 is rejected |
| CategoryController.Get | src/main/java/financemaster/rest/controller/CategoryController.java:42-45 | Unauthorized without a session user; otherwise exactly the categories owned by the session user |
| CategoryController.CreateKeepsOwnership | src/main/java/financemaster/rest/controller/CategoryController.java:50-60 | the intended create keeps every existing category and the ownership invariant |
| CategoryController.Create | src/main/java/financemaster/rest/controller/CategoryController.java:50-60 | Unauthorized and no change without a session user; otherwise the new row owned by the session user, whatever the body says; the ownership invariant is kept |
| CategoryController.CreateAsWrittenTable | src/main/java/financemaster/rest/controller/CategoryController.java:57-59 | as written, a body whose key exists replaces that row, owner included; any other body is inserted |
| CategoryController.CreateAsWrittenTakesOver | src/main/java/financemaster/rest/controller/CategoryController.java:57-59 | as written, a body carrying an existing key leaves every row of that key owned by the caller and removes another user's row of that key |
| CategoryController.CreateAsWrittenBreaksOwnership | src/main/java/financemaster/rest/controller/CategoryController.java:57-59 | a concrete table where the as-written create breaks the ownership invariant and empties the victim's category list, while the intended create keeps the invariant |
| CategoryController.CreateAsWritten | src/main/java/financemaster/rest/controller/CategoryController.java:50-60 | Unauthorized and no change without a session user; otherwise the category table becomes `CreateAsWrittenTable` of the old one and the answer is Ok: for a body whose key exists, that key with the body's name and description owned by the caller, the generator unchanged; for any other body, the same fields under the next key, the generator advanced; the returned row is stored |
| CategoryController.DeleteOwnedCategory | src/test/java/financemaster/FinanceMasterIntegrationTest.java:172-179 | deleting one's own category removes it and keeps every other row |
| CategoryController.DeleteForeignCategory | src/test/java/financemaster/FinanceMasterIntegrationTest.java:188-196 | deleting a missing or foreign category leaves the table as it was |
| CategoryController.Delete | src/main/java/financemaster/rest/controller/CategoryController.java:65-73 | Unauthorized and no change without a session user; otherwise the owner-checked delete and success; the ownership invariant is kept |
| AuthService.Authenticate | src/main/java/financemaster/service/AuthService.java:37-40 | success only for a stored user whose email equals the given one ignoring case and whose hash matches the password; with unique emails it succeeds exactly when such a user exists; any failure is Unauthorized |
| AuthService.AuthenticateIgnoresEmailCase | src/main/java/financemaster/service/AuthService.java:37 | emails differing only in case give the same login result |
| AuthService.Login | src/main/java/financemaster/service/AuthService.java:36-47 | result is `Authenticate`; on success the session holds the user's id; on failure the session is unchanged |
| AuthService.Logout | src/main/java/financemaster/service/AuthService.java:52-57 | afterwards the session holds no user id, whatever it held before |
| AuthService.RequireSessionUserId | src/main/java/financemaster/service/AuthService.java:64-70 | returns the session's user id when there is one; otherwise Unauthorized |
| AuthService.RegisterKeepsEmailsUnique | src/main/java/financemaster/service/AuthService.java:77-87 | adding a user whose email is new ignoring case keeps the emails unique |
| AuthService.RegisteredUserAuthenticates | src/main/java/financemaster/service/AuthService.java:81-87 | with a sound encoder, a freshly registered user logs in with the registration password |
| AuthService.Register | src/main/java/financemaster/service/AuthService.java:76-88 | Conflict and no change when the email is taken ignoring case; otherwise appends a row with the next key, the name, the email and `encode(password)`; email uniqueness is kept |
| AuthController.Login | src/main/java/financemaster/rest/controller/AuthController.java:38-41 | delegates to the service login |
| AuthController.Register | src/main/java/financemaster/rest/controller/AuthController.java:46-51 | a taken email gives Conflict and leaves users, the user counter and the session unchanged; otherwise the new user is stored under the next key and the user counter advances by 1, and with a sound encoder the answer is that user and the session holds its id; categories, transactions and their counters never change, so email uniqueness and the ownership invariant are kept |
| AuthController.Me | src/main/java/financemaster/rest/controller/AuthController.java:57-70 | Unauthorized without a session user; otherwise succeeds exactly when a user has that id, and answers with that user; a failure is NotFound |
| AuthController.MeAfterLogin | src/test/java/financemaster/FinanceMasterIntegrationTest.java:123-127 | after a successful login `me` answers with the user who logged in |
| AuthController.Logout | src/main/java/financemaster/rest/controller/AuthController.java:75-78 | afterwards `me` answers Unauthorized |
| RepositoryDraft.RequireUserId | src/main/java/com/financemaster/rest_service/rest/controller/Controller.java:145-149 | passes exactly when a user with an id is present; otherwise BadRequest |
| RepositoryDraft.RequireCategoryId | src/main/java/com/financemaster/rest_service/rest/controller/Controller.java:150-154 | fails (BadRequest) exactly when a category is present without an id; a missing category passes |
| RepositoryDraft.GuardsAreAsymmetric | src/main/java/com/financemaster/rest_service/rest/controller/Controller.java:145-154 | a missing category passes while a missing user fails; a present reference without an id fails both |
| RepositoryDraft.GetCategories | src/main/java/com/financemaster/rest_service/rest/controller/Controller.java:62-68 | the whole table without a user; exactly that user's rows with one |
| RepositoryDraft.GetTransactions | src/main/java/com/financemaster/rest_service/rest/controller/Controller.java:70-76 | the whole table without a user; exactly that user's rows with one |
| RepositoryDraft.GetUsers | src/main/java/com/financemaster/rest_service/rest/controller/Controller.java:78-84 | the whole list without an id; otherwise the user with that id, or none when no user has it |
| RepositoryDraft.DeleteByUserLeavesOthers | src/main/java/com/financemaster/rest_service/rest/controller/Controller.java:116-120 | after deleting by user that user has no rows left, and every other user's listings are unchanged |
| RepositoryDraft.RepositoryController.CreateCategory | src/main/java/com/financemaster/rest_service/rest/controller/Controller.java:90-94 | BadRequest and no change without an owner id; otherwise appends a row with the next key owned by that id and advances the category counter by 1; the other counters and tables never change |
| RepositoryDraft.CreateTwoCategories | src/main/java/com/financemaster/rest_service/rest/controller/Controller.java:90-94 | two creates in a row for owners with ids both succeed, get consecutive keys and are appended in order |
| RepositoryDraft.RepositoryController.CreateTransaction | src/main/java/com/financemaster/rest_service/rest/controller/Controller.java:96-101 | BadRequest and no change, counter included, when either guard fails; otherwise appends a row with the next key, the body's fields, the category id if any, and the user id, and advances the transaction counter by 1; the other counters and tables never change |
| RepositoryDraft.RepositoryController.CreateUser | src/main/java/com/financemaster/rest_service/rest/controller/Controller.java:103-109 | Conflict and no change, counter included, when the email is taken ignoring case; otherwise appends the user with the next key and advances the user counter by 1; the other counters and tables never change; user keys stay unique and no two users share an email ignoring case |
| RepositoryDraft.AddUserKeepsValid | src/main/java/com/financemaster/rest_service/rest/controller/Controller.java:103-109 | appending a user with the next key and an email no stored user has, ignoring case, keeps keys unique and below the generator and emails unique ignoring case |
| RepositoryDraft.RepositoryController.DeleteCategoriesByUser | src/main/java/com/financemaster/rest_service/rest/controller/Controller.java:116-120 | removes exactly the user's transactions and the user's categories; users and all three counters are unchanged |
| RepositoryDraft.RepositoryController.DeleteTransactionsByUser | src/main/java/com/financemaster/rest_service/rest/controller/Controller.java:130-133 | removes exactly the user's transactions; the other tables and all three counters are unchanged |
| RepositoryDraft.RepositoryController.DeleteCategory | src/main/java/com/financemaster/rest_service/rest/controller/Controller.java:122-128 | NotFound and no change for a missing key; otherwise removes exactly the rows with that key; the other tables and all three counters are unchanged |
| RepositoryDraft.RepositoryController.DeleteTransaction | src/main/java/com/financemaster/rest_service/rest/controller/Controller.java:135-141 | NotFound and no change for a missing key; otherwise removes exactly the rows with that key; the other tables and all three counters are unchanged |
| InMemoryDraft.AssignIds | src/main/java/com/financemaster/rest_service/Controller.java:29-31 | the k-th row gets id `first + k`, nothing else about the rows changes, and the counter ends one past the last id |
| InMemoryDraft.AppendKeepsIncreasing | src/main/java/com/financemaster/rest_service/Controller.java:54-56 | appending the counter's value and advancing the counter keeps the ids strictly increasing and below the counter |
| InMemoryDraft.InMemoryController.constructor | src/main/java/com/financemaster/rest_service/Controller.java:24-39 | two categories with ids 1 and 2 and the category counter at 3; two transactions without ids referring to them and the transaction counter at 3; one empty user and the user counter at 1 |
| InMemoryDraft.InMemoryController.GetCategories | src/main/java/com/financemaster/rest_service/Controller.java:47-50 | the stored list in insertion order |
| InMemoryDraft.InMemoryController.GetTransactions | src/main/java/com/financemaster/rest_service/Controller.java:61-64 | the stored list in insertion order |
| InMemoryDraft.InMemoryController.GetUsers | src/main/java/com/financemaster/rest_service/Controller.java:75-78 | the stored list in insertion order |
| InMemoryDraft.InMemoryController.CreateCategory | src/main/java/com/financemaster/rest_service/Controller.java:52-58 | the body gets the counter's value as id and is appended; the counter advances by 1; the other lists and counters are unchanged; ids stay increasing |
| InMemoryDraft.InMemoryController.CreateTransaction | src/main/java/com/financemaster/rest_service/Controller.java:66-72 | the body gets the counter's value as id and is appended; the counter advances by 1; the other lists and counters are unchanged; ids stay increasing |
| InMemoryDraft.InMemoryController.CreateUser | src/main/java/com/financemaster/rest_service/Controller.java:80-86 | the body gets the counter's value as id and is appended; the counter advances by 1; the other lists and counters are unchanged; ids stay increasing |
| InMemoryDraft.CreateTwoCategories | src/main/java/com/financemaster/rest_service/Controller.java:54 | two creates in a row get consecutive ids and are appended in order |
| OriginList.SplitAtCommas | src/main/java/com/financemaster/rest_service/WebConfig.java:24 | without a comma the value itself; no piece contains a comma; no piece after the first starts, and none before the last ends, with whitespace; the last piece is not empty unless the result is empty (`","` gives `[]`) |
| OriginList.PiecesRejoin | src/main/java/com/financemaster/rest_service/WebConfig.java:24 | the pieces between separators, with the whitespace-comma-whitespace match written back between each two, are the value itself |
| OriginList.SplitAtCommasRejoins | src/main/java/com/financemaster/rest_service/WebConfig.java:24 | the split result with the dropped empty strings put back, joined by the `\s*,\s*` matches `split` consumed, is the value itself; every match is whitespace around one comma |
| OriginList.PiecesHaveNoComma | src/main/java/com/financemaster/rest_service/WebConfig.java:24 | no piece between separators contains a comma |
| OriginList.PiecesStartClean | src/main/java/com/financemaster/rest_service/WebConfig.java:24 | whitespace after a comma is discarded |
| OriginList.PiecesEndClean | src/main/java/com/financemaster/rest_service/WebConfig.java:24 | whitespace before a comma is discarded |
| OriginList.FirstPieceIsPrefix | src/main/java/com/financemaster/rest_service/WebConfig.java:24 | the first piece is a prefix of the value, its leading whitespace kept |
| OriginList.SplitOfJoin | src/main/java/com/financemaster/rest_service/WebConfig.java:24 | splitting a list of clean origins written with `", "` gives the list back |
| OriginList.AllowedOrigins | src/main/java/com/financemaster/rest_service/WebConfig.java:19-25 | the defaults for a missing or blank value; the split value otherwise; a value without commas is a one-element list |
| RestServiceWebConfig.FrontendUrl | src/main/java/com/financemaster/rest_service/WebConfig.java:11-13 | `frontend.url` if set, else `FRONTEND_URL`, else empty |
| RestServiceWebConfig.AllowedOrigins | src/main/java/com/financemaster/rest_service/WebConfig.java:19-25 | a missing or blank URL gives `["http://localhost:5173", "http://localhost:3000"]`; otherwise the split URL, a comma-free URL giving itself; no origin contains a comma |
| RestServiceWebConfig.ConfiguredList | src/main/java/com/financemaster/rest_service/WebConfig.java:11-25 | a property listing clean origins with `", "` allows exactly those origins |
| ConfigWebConfig.FrontendUrl | src/main/java/com/financemaster/rest_service/config/WebConfig.java:11-13 | `FRONTEND_URL` if set, else empty |
| ConfigWebConfig.AllowedOrigins | src/main/java/com/financemaster/rest_service/config/WebConfig.java:17-22 | a missing or blank URL gives the two local defaults; otherwise the split URL, a comma-free URL giving itself; no origin contains a comma |
| ConfigWebConfig.ConfiguredList | src/main/java/com/financemaster/rest_service/config/WebConfig.java:11-22 | a variable listing clean origins with `", "` allows exactly those origins |
| CorsConfig.FrontendUrl | src/main/java/com/financemaster/rest_service/config/corsConfig.java:11-12 | `frontend.url` if set, else `FRONTEND_URL`, else empty |
| CorsConfig.AllowedOrigins | src/main/java/com/financemaster/rest_service/config/corsConfig.java:17-19 | a missing or blank URL gives `["http://localhost:5173"]`; otherwise the split URL, a comma-free URL giving itself; no origin contains a comma |
| CorsConfig.ConfiguredList | src/main/java/com/financemaster/rest_service/config/corsConfig.java:11-19 | a property listing clean origins with `", "` allows exactly those origins |
| Store.FindCategoriesByUserId | src/main/java/financemaster/persistence/repository/CategoryRepository.java:10 | exactly the categories whose owner is the user |
| Store.FindByEmailIgnoreCase | src/main/java/com/financemaster/rest_service/persistence/repository/UserRepository.java:9 | a user whose email equals the given one ignoring case; none exactly when no user's does |

## Left out

- HTTP routing, JSON binding and the servlet plumbing are not modelled. This covers the annotations, MockMvc, the HTML and text index pages of both drafts, and the `CorsRegistry` builder calls with their methods, credentials and max-age. A JSON date that Jackson cannot bind (a 400 before the handler runs) is not modelled either; the DTO's date is already a date.
- Password hashing is not modelled: BCrypt is two opaque functions, and the only assumption is that a password matches its own hash.
- Store.FindByEmailIgnoreCase: two stored users whose emails differ only in case are not modelled as an error. The unique email column is case-sensitive, so such rows can exist, and then the single-result query throws and the request fails with a server error. The model instead returns one of the matches. AuthService.Authenticate therefore logs in as the first match or answers Unauthorized. The model's invariant (`EmailsUnique`, kept by registration) rules the case out for users created through the service.
- AuthService.Authenticate: a login or register body without a password is not modelled. The source's `encoder.matches(null, …)` and `encode(null)` throw, which is a server error. The model's passwords are always strings.
- Session storage is reduced to the `userId` attribute. Cookies, session creation (`getSession(true)`) and invalidation are not modelled: invalidation is the attribute becoming absent.
- The JPA mapping is not modelled: entity objects are rows, and references are plain ids.
  - Database constraints are left out: foreign keys, NOT NULL columns and the unique email column. Deleting a category still referenced by transactions is allowed in the model, although a foreign key would make the database refuse it.
  - The `financemaster` entity classes and `UserRepository` are not part of this model. Their fields are taken from the handlers that set them.
- RepositoryDraft.RepositoryController: the draft calls `findByUserId` and `deleteByUserId` on repositories whose interfaces (src/main/java/com/financemaster/rest_service/persistence/repository/) declare neither. They are modelled by their evident meaning.
- RepositoryDraft.RepositoryController: `save` is modelled as an insert. A body carrying an id, which Spring Data would merge, is not modelled there. The `rest_service` `Transaction` and `User` entity classes are not part of this model, so the rows take their fields from the request bodies. A category row carries its owner's id. A draft transaction row keeps the body's type and date as text and may have no category. A null email for `createUser` is not modelled.
- CategoryController.CreateAsWrittenTable: a body whose id names no row is modelled as an insert with a fresh key. Which of insert or error happens depends on the Hibernate version.
- InMemoryDraft: the `rest_service` in-memory `Category`, `Transaction` and `User` classes are not part of this model.
  - The transaction constructor's argument order is read as (type, amount, description, date, category).
  - A transaction holds a copy of its category, not a shared reference. Nothing in the draft mutates a category after the seed, so the copy cannot be observed.
  - `CopyOnWriteArrayList` and `AtomicLong` are plain sequences and counters. `get*` returns the list value, not the live list.
- Amounts are `real`. `Double` rounding is not modelled, and neither is SQL `SUM` over floating point.
- Atomicity is not modelled: neither `@Transactional` rollback nor a failure between the two deletes of `deleteCategoriesByUser`. The steps run in sequence and do not fail.
- Dates: only four-digit years 0000–9999 are accepted. `LocalDate.parse` also accepts signed and longer years.
- TransactionRepository.NewerOrSame: where rows without a date go under `ORDER BY t.date DESC` depends on the database; the database is not part of this model, and the model places them last. Rows with equal dates keep table order, which SQL does not promise.
- Text: `isBlank`, `toUpperCase` and `equalsIgnoreCase` are modelled on ASCII only. Unicode whitespace, locale-dependent case mapping and SQL collation are not modelled.
- AuthController.Register: with an encoder for which a password does not match its own hash, the auto-login fails. The contract then states only the stored row, not the answer.
- CorsConfig.AllowedOrigins: the list is registered as origin patterns (`allowedOriginPatterns`). Wildcard pattern matching is not modelled.

## Findings

| source | as written | input that shows it | evidently intended | confidence | as-written member | corrected member |
|---|---|---|---|---|---|---|
| src/main/java/financemaster/rest/controller/CategoryController.java:57-59 | `create` stamps the session user on the bound body and calls `repo.save(cat)`. A body carrying an `id` is merged into the existing row with that key, owner included | user 2 owns category 1 and has booked an expense on it; user 1 posts `{"id": 1, "name": "Mine"}`. Category 1 then belongs to user 1, user 2's category list is empty, and user 2's expense points at user 1's category | `create` always makes a new category owned by the caller, so no other user's category changes and every transaction keeps the owner of its category | not executed | CategoryController.CreateAsWrittenBreaksOwnership | CategoryController.Create |
