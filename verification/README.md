# Verified model of the jumble user service

Jumble keeps users with roles in one PostgreSQL table and serves them over HTTP. This project models the
parts of it that carry real obligations and proves what they promise, for every input and every run:

- **Role codec** (`Roles.dfy`, `DriverArray.dfy`, `PgArray.dfy`, `RoleColumn.dfy`, `Auth.dfy`): printing and
  scanning `TEXT[]` literals over any role table, and what driver and database make of them in between.
- **Query pipeline** (`Page.dfy`, `Order.dfy`, `Like.dfy`, `Sql.dfy`, `Filter.dfy`, `Paging.dfy`,
  `QueryHandler.dfy`): from request strings to statement text, to its meaning on a table, to pages.
- **User state machine** (`Users.dfy`, `UserDb.dfy`, `UserBus.dfy`, `Runs.dfy`, `Handlers.dfy`): rows, the
  table under its constraints, the business operations, and who may change what.
- **Key store** (`KeyStore.dfy`, `KeyStoreLocks.dfy`): the directory load, and every lock-level interleaving.
- **Connection check** (`ConnCheck.dfy`): the retry loop against its deadline.

`GoStrings.dfy` holds the functions of Go's `strings` package that these rely on, with their laws.

## How the model is built

Code that changes state is a class or a method with a loop, proved against a specification function; the
properties are lemmas about those functions. Inputs the code does not control are parameters: clocks, salts and
new ids are arguments; bcrypt, `mail.ParseAddress`, RFC 3339 parsing and printing, key decoding and the collation
are function values, constrained only where a lemma says so (`HashesVerify`, `TotalOrder`).

The database is a function value too. `Sql.Admissible` says which replies it may give: the statement *text* is
split into words and parsed, WHERE is evaluated in three-valued logic, LIKE follows section 9.7.1 of the
PostgreSQL 17 documentation, and ORDER BY only demands *some* sorted listing, so that rows with equal keys may
come in a different order in every reply. `Conforms` lets the database answer the same request differently over
time. Text the model's parser does not know is refused. The source's statement constants are written as lists of
words joined by blanks, which are the same strings blank for blank.

Stored and bound timestamps have microsecond precision, rounded down. Integers are unbounded except where the
source's 64-bit width matters (`Page.Atoi`, `Page.Offset`).

A `TEXT[]` column is a sequence of elements, NULL or text. The vendored pgx driver does not pass on the literal that
`Value` prints: it parses it with its own reader and sends the elements in binary
(vendor/github.com/jackc/pgx/v5/pgtype/pgtype.go:1287-1328). Only a literal that this reader rejects reaches the
database's array input. A read scans the literal that the database prints for the stored elements, with its own
quotes and backslashes (sections 8.15.2 and 8.15.6 of the PostgreSQL 17 documentation). `Faithful` role tables are
those whose names survive this; the service's own table is one (`RoleColumn.ServiceRolesFaithful`), and results
about stored users are stated for all of them.

A text over the limit of its `VARCHAR` column is cut if the excess is blanks, and refused otherwise (section 8.3 of
the same documentation); `Users.AsStored` is the user so cut.

## What the proofs found

Some promises hold only under a condition, and the model states which:

- The page offset is a 64-bit product and `Parse` puts no upper bound on the rows per page. It is right exactly
  when `(number-1)*rows` fits in 63 bits; page 5 with 2^62 rows is accepted and shows page 1
  (`Paging.PageRightExactly`, `Page.WrappedOffset`).
- Separately fetched pages agree, and share no row, exactly when the sort order never ties on the matching rows.
  Email order never ties; the default order, by creation time, may (`Paging.AnswersAgreeExactly`,
  `Paging.PagesPartitionExactly`).
- The name filter means "contains this text" exactly for names without `%`, `_` and backslash
  (`Like.LikeIsContainsExactly`). It still finds every row that contains the name exactly when the pattern matches
  the name itself: always without a backslash, for `\b` too, but not for `a\b` (`Like.LiteralFoundExactly`,
  `Like.BackslashNames`).
- No disable request ever disables a user: it panics whenever it is allowed to act, because the update it builds
  has no email (`Handlers.DisableNeverSucceeds`). An owner's update without an email panics too
  (`Handlers.UpdateSafe`).
- An update request writes back every column its body leaves out from the acting user's snapshot, roles included,
  so it leaves such a column alone exactly when that snapshot still carries the stored value
  (`Handlers.StaleSnapshot`, `Handlers.StaleSnapshotExample`).
- Printing and scanning alone invert each other on a role table exactly when every name in it is non-empty, free of
  commas, and neither starts nor ends with a brace or a double quote (`Roles.RoundTripExactly`).
- With driver and database in between, role lists come back exactly when every name in the table is non-empty, free
  of commas, closing braces, double quotes and backslashes, and does not start with an opening brace
  (`RoleColumn.DurableExactly`). The role filter sends bare names, so it finds a role's users exactly if the name is
  not `NULL`, which the driver reads as no text at all (`RoleColumn.FoundByName`).
- A user reads back as written exactly when its roles are registered and its texts are within their columns' limits
  (`Users.WriteThenRead`). A name of 201 characters ending in a blank is accepted and loses the blank; nothing in the
  service bounds names (`UserBus.CreatedExactly`, `UserBus.CreateThenRead`).
- The error text of `Parse` says page numbers must be below 100; the code accepts 100, and so does the model.

## Model

| member | source | states |
|---|---|---|
| `Roles.Registry.NewRole` | internal/domains/user/bus/roles.go:21-26 | registering a role files it under its own name and keeps every other entry so filed |
| `Roles.Registry.constructor` | internal/domains/user/bus/roles.go:9-19 | the registered table is "admin" and "user", each under its own name, and both survive the codec |
| `Roles.RoleSlice.Value` | internal/domains/user/bus/roles.go:64-78 | the printed literal of any role list, empty included |
| `Roles.RoleSlice.Scan` | internal/domains/user/bus/roles.go:43-61 | NULL becomes empty, both text forms parse alike, and any rejected value leaves the receiver unchanged |
| `Roles.RoleSlice.ParsePostgresArray` | internal/domains/user/bus/roles.go:81-108 | all-or-nothing: the receiver gets every role in order or is untouched |
| `Roles.ScanGrammar` | internal/domains/user/bus/roles.go:80-108 | a text scans to a role list if and only if it spells it: braces around comma-separated elements with optional quotes, all known |
| `Roles.RoundTrip` | internal/domains/user/bus/roles.go:42-108 | printing then scanning gives a list back, in order and of any length, if and only if all its roles are registered |
| `Roles.RoundTripExactly` | internal/domains/user/bus/roles.go:63-108 | all lists over a table round-trip if and only if every name in the table is codable |
| `Roles.SingletonCodable` | internal/domains/user/bus/roles.go:63-108 | a role that survives the codec in a list of its own has a codable name |
| `Roles.QuotingIsIrrelevant` | internal/domains/user/bus/roles.go:80-106 | bare or with any of its elements' names between double quotes, a literal gives the same roles; what the database really prints is `RoleColumn.ColumnRoundTrip` |
| `RoleColumn.ColumnRoundTrip` | internal/domains/user/bus/roles.go:42-108 | over a faithful table, a list comes back from `Value`, the driver's reader, the database's printer and `Scan` if and only if all its roles are registered |
| `RoleColumn.DurableExactly` | internal/domains/user/bus/roles.go:63-108 | all lists over a table come back through driver and database if and only if every name in the table is durable |
| `RoleColumn.SingletonDurable` | vendor/github.com/jackc/pgx/v5/pgtype/pgtype.go:1287-1328 | a role that comes back in a list of its own has a durable name, whatever else is registered and whichever reader took the literal |
| `RoleColumn.ServiceRolesFaithful` | internal/domains/user/bus/roles.go:9-26 | admin and user are durable and stored as their own names |
| `RoleColumn.FoundByName` | internal/domains/user/store/userdb/filter.go:26-29 | looking for a role by its bare name, as the role filter binds it, finds exactly the stored lists that have it, if and only if the name is not NULL |
| `DriverArray.ReadsNames` | vendor/github.com/jackc/pgx/v5/pgtype/array.go:100-246 | the driver reads a printed literal of names without commas and closing braces that start with neither quote nor opening brace as those names, NULL as NULL |
| `DriverArray.OneItem` | vendor/github.com/jackc/pgx/v5/pgtype/array.go:187-335 | at any depth of braces, a literal read as a single item holds either a bare item with all its backslashes, or a quoted one with two more quotes |
| `RoleColumn.PrintedDurable` | internal/domains/user/bus/roles.go:80-96 | the database prints a durable name's element without commas, and with the name left once quotes are trimmed |
| `RoleColumn.ScannedCounts` | internal/domains/user/bus/roles.go:80-96 | the name scanned from any printed text has twice its backslashes plus one per quote, no more quotes, and is the text itself if there are neither |
| `Roles.ScanNormalises` | internal/domains/user/bus/roles.go:63-108 | re-printing an accepted text and scanning again gives the same roles |
| `Roles.ConversionsInvert` | internal/domains/user/bus/roles.go:120-142 | names-to-roles and roles-to-names are mutual inverses, exactly on registered roles |
| `Roles.RolesToString` | internal/domains/user/bus/roles.go:120-128 | the names of the roles in order |
| `Roles.ParseManyRoles` | internal/domains/user/bus/roles.go:130-142 | all names parse in order, or none do |
| `Auth.Authorized` | internal/auth/auth.go:111-120 | succeeds exactly when some claimed role is in the required set |
| `Auth.ClaimsAllowed` | internal/domains/user/handler/handler.go:432-434 | claims made from a user's roles are allowed exactly when one of the roles is required; `isAdmin` agrees with requiring admin |
| `Page.ParseAccepts` | internal/page/page.go:13-49 | `Parse` returns a page for exactly the strings that denote it: absent means page 1 and 10 rows, present means optional plus, leading zeros and the decimal numeral; number 1..100, rows at least 1 |
| `Page.AtoiSpellings` | internal/page/page.go:19-34 | a positive number is read from exactly its decimal spellings within 64 bits |
| `Page.ParseInvertsPrinting` | internal/page/page.go:13-49 | parsing inverts decimal printing exactly on legal pages |
| `Page.OffsetExact` | internal/domains/user/store/userdb/userdb.go:169-172 | the machine offset is the 64-bit number congruent to the product, exact if and only if that fits in 64 bits; rows up to (2^63-1)/99 always do |
| `Page.WrappedOffset` | internal/domains/user/store/userdb/userdb.go:169-172 | an accepted page whose offset wraps to the start of page 1 |
| `Order.OrderGrammar` | internal/domains/user/bus/order.go:37-68 | `ParseOrderBy` accepts exactly: nothing, meaning "createdAt" ascending; one of the four padded field names, ascending; or such a name, one comma and "asc" or "desc" |
| `Order.ParsedOrderTranslates` | internal/domains/user/store/userdb/order.go:10-24 | every order parsed from a request is one the store can translate; to which column, `Paging.PageInOrder` says |
| `Paging.PageInOrder` | internal/domains/user/store/userdb/order.go:10-24 | every page of a listing ascends, or for "desc" descends, by the column named: "createdAt" by creation time, "updatedAt" by update time, "name" and "email" by those texts |
| `Like.LikeIsContainsExactly` | internal/domains/user/store/userdb/filter.go:14-19 | the bound pattern is well-formed for every name, and means containment if and only if the name has no `%`, `_` or backslash |
| `Like.LiteralFoundExactly` | internal/domains/user/store/userdb/filter.go:14-19 | every row that literally contains the name is found if and only if the pattern matches the name itself; always for names without backslash |
| `Like.BackslashNames` | internal/domains/user/store/userdb/filter.go:14-19 | one name with a backslash that is always found, and one that is not found even in itself |
| `Filter.ApplyFilters` | internal/domains/user/store/userdb/filter.go:11-47 | appends the WHERE text of the set fields and binds exactly their parameters, keeping what the map held |
| `Filter.WhereSelects` | internal/domains/user/store/userdb/filter.go:11-47 | the emitted conditions are executable and select exactly the rows that meet every set filter field |
| `Filter.CondMeans` | internal/domains/user/store/userdb/filter.go:14-39 | each emitted condition is True of a row exactly when the row passes its own field |
| `Filter.NullAndEmpty` | internal/domains/user/store/userdb/filter.go:21-29 | a NULL department meets no department filter; a non-nil empty role list meets no row |
| `Filter.TimeBounds` | internal/domains/user/store/userdb/filter.go:31-39 | on stored times the end bound is exact and the start bound admits its own microsecond |
| `Filter.QueryTextParses` | internal/domains/user/store/userdb/userdb.go:174-189 | the page query's text reads back as its conditions, order and window, whatever the filter values are |
| `Filter.CountTextParses` | internal/domains/user/store/userdb/userdb.go:223-231 | the count query's text reads back as a count over the same conditions |
| `Filter.QueryPlaceholders` | internal/domains/user/store/userdb/userdb.go:169-189 | the placeholders in the text are exactly the keys of the parameter map |
| `Sql.ListingDetermined` | internal/domains/user/store/userdb/order.go:17-24 | ORDER BY determines the listing if and only if no two rows tie |
| `Sql.ReplyExists` | internal/domains/user/store/userdb/userdb.go:195-198 | every statement on every table has an admissible reply |
| `Paging.QueryMeans` | internal/domains/user/store/userdb/userdb.go:168-220 | any admissible reply is the requested slice of some sorted listing of exactly the matching rows, in the order asked for; only a negative offset is refused |
| `Paging.CountMeans` | internal/domains/user/store/userdb/userdb.go:222-253 | the count is the number of matching rows |
| `Paging.PagesTile` | internal/domains/user/store/userdb/userdb.go:168-189 | page sizes, and pages 1..k of a listing are its first min(n, k*rows) rows, none lost or repeated |
| `Paging.ListingCounts` | internal/domains/user/store/userdb/userdb.go:168-253 | a listing repeats no row and is as long as the count |
| `Paging.SeparatePagesTile` | internal/domains/user/store/userdb/userdb.go:168-220 | on tie-free matches, pages fetched by separate requests, each answered as the database likes, add up to a prefix of the one listing |
| `Paging.EmailPagesPartition` | internal/domains/user/store/userdb/userdb.go:168-220 | with unique emails, paging by email partitions the matches; 100 pages reach the first 100*rows |
| `Paging.AnswersAgreeExactly` | internal/domains/user/store/userdb/userdb.go:168-220 | two answers to a page request must agree if and only if the order never ties on the matches |
| `Paging.PagesPartitionExactly` | internal/domains/user/store/userdb/userdb.go:168-220 | for every table and filter: pages 1 and 2 fetched separately can never share a row, at any page size, if and only if the order never ties on the matches |
| `Paging.PageRightExactly` | internal/domains/user/store/userdb/userdb.go:169-172 | the machine offset selects the right page of every listing if and only if the product fits in 64 bits |
| `QueryHandler.ToBusQueryFilter` | internal/domains/user/handler/filters.go:17-53 | yields the only filter the request asks for, or nothing when no filter is what it asks for; no roles means no role constraint |
| `QueryHandler.ShownAsStored` | internal/domains/user/handler/models.go:23-34 | a canonical row is shown with its own columns, its roles by the registered names they are stored for, and only one reply shows it so |
| `QueryHandler.Query` | internal/domains/user/handler/handler.go:334-387 | from raw strings: turned down exactly when something cannot be read; otherwise the requested page of a listing of the matches, in the order that the request spells, with their total |
| `QueryHandler.Answer` | internal/domains/user/handler/handler.go:368-386 | the database half fails exactly on a negative machine offset; otherwise page, total and order are those asked for |
| `QueryHandler.ToAppUsers` | internal/domains/user/handler/handler.go:380-383 | the reply loop shows each scanned row in order |
| `Users.WriteThenRead` | internal/domains/user/store/userdb/models.go:24-60 | over a faithful table, through the stored columns, write then read succeeds with the normal form if and only if the user's roles are registered and its texts within their limits |
| `Users.CutExactly` | internal/migrate/sql/20250914214924_init.up.sql:1-11 | a text is stored up to its column's limit, and only if all that is cut off is blanks |
| `Users.AsStoredExactly` | internal/migrate/sql/20250914214924_init.up.sql:1-11 | storing changes no text if and only if the name has at most 200 characters, the address 300 and the department 100 |
| `Users.MicroExactly` | internal/domains/user/bus/bus.go:46-46 | a truncated time is the last whole microsecond not after it |
| `Users.WrittenReads` | internal/migrate/sql/20250914214924_init.up.sql:1-11 | with registered roles, a write succeeds exactly when every excess is blanks, reads back as cut, and a second cycle changes nothing |
| `Users.ReadThenWrite` | internal/domains/user/store/userdb/models.go:24-60 | reading a canonical row succeeds with registered roles and loses nothing: writing it back restores the row |
| `UserDb.Store.Create` | internal/domains/user/store/userdb/userdb.go:37-58 | inserts the row with texts cut to their columns, or fails on a refused value or a uniqueness violation, mapped to the duplicate-email error, and changes nothing |
| `UserDb.Store.Update` | internal/domains/user/store/userdb/userdb.go:60-88 | rewrites the row of that id except id and creation time, texts cut to their columns; values that can be stored succeed without effect for a missing id |
| `UserDb.CreateAnswers` | internal/domains/user/store/userdb/userdb.go:47-58 | the duplicate-email error exactly for a writable user whose id or stored email is there, another error exactly for one that cannot be written; then no change |
| `UserDb.UpdateAnswers` | internal/domains/user/store/userdb/userdb.go:78-88 | the duplicate-email error exactly if another row has the stored email, another error exactly for a user that cannot be written; then no change |
| `UserDb.Store.Delete` | internal/domains/user/store/userdb/userdb.go:90-102 | removes the row of that id if there is one |
| `UserDb.Store.QueryByID` | internal/domains/user/store/userdb/userdb.go:104-134 | a missing id is not found; a stored row that reads back is returned as that user |
| `UserDb.Store.QueryByEmail` | internal/domains/user/store/userdb/userdb.go:136-166 | not found exactly when no row has the address; otherwise what a row that has it reads back as, and on a canonical table always a user, with that row's id and address |
| `UserDb.Store.Query` | internal/domains/user/store/userdb/userdb.go:168-220 | sends the built text and parameters, and returns the scanned reply or an error; a returned list is a page of the matches in the order asked for |
| `UserDb.Store.SelectStatement` | internal/domains/user/store/userdb/userdb.go:169-189 | builds the page query step by step; none exactly for a field other than the four |
| `UserDb.Store.ScanAll` | internal/domains/user/store/userdb/userdb.go:202-219 | every row scanned and mapped in order, or an error |
| `UserDb.Store.Count` | internal/domains/user/store/userdb/userdb.go:222-253 | the number of stored rows that meet the filter |
| `UserBus.Bus.Create` | internal/domains/user/bus/bus.go:38-65 | hashes, truncates the time, stores the new user under the given id |
| `UserBus.Bus.Update` | internal/domains/user/bus/bus.go:67-103 | the field-by-field code computes the specified update of the snapshot and stores it |
| `UserBus.CreateAnswers` | internal/domains/user/bus/bus.go:38-65 | the duplicate-email error exactly if all else is fine but the id or the stored email is taken, another exactly if the password cannot be hashed or a text not stored; else exactly the one new row with the given values |
| `UserBus.UpdateAnswers` | internal/domains/user/bus/bus.go:67-103 | with any snapshot: the duplicate-email error exactly if all else is fine but another row has the stored email, another exactly if the password cannot be hashed or a text not stored |
| `UserBus.UpdateStores` | internal/domains/user/store/userdb/userdb.go:60-88 | with any snapshot, a successful update stores exactly the row with each column from the update where it names one and from the snapshot otherwise, but for id and creation time |
| `UserBus.UpdateReturns` | internal/domains/user/bus/bus.go:67-103 | the returned user field by field: the update's where it names one, the snapshot's otherwise, mail name included, and the clock untruncated |
| `UserBus.Bus.Delete` | internal/domains/user/bus/bus.go:105-111 | removes exactly the user's row |
| `UserBus.Bus.QueryByID` | internal/domains/user/bus/bus.go:113-120 | a missing id is not found; a stored row that reads back is returned as that user |
| `UserBus.CreatedExactly` | internal/domains/user/bus/bus.go:38-65 | with registered roles, creating succeeds if and only if the password hashes, the texts can be stored, the id is new and no row has the stored email |
| `UserBus.CreateThenRead` | internal/domains/user/bus/bus.go:38-65 | a created user has a new id, is enabled and carries the given fields and a hash of the password; it reads back as returned, timestamps included, except that texts are as stored and the mail name becomes the name |
| `UserBus.UpdateThenRead` | internal/domains/user/bus/bus.go:97-102 | an updated user reads back in normal form with the stored creation time if and only if its roles are registered and its texts within their limits; with registered roles it reads back as stored |
| `UserBus.UpdatesCompose` | internal/domains/user/bus/bus.go:67-103 | u1 then u2 on current snapshots stores the same row as one right-biased merged update, which also succeeds; hashes verify the last password |
| `UserBus.UpdateSetsFields` | internal/domains/user/bus/bus.go:67-103 | an update on a current snapshot sets each field it names, as its column stores it, and leaves every other as stored |
| `Runs.OpDone` | internal/domains/user/bus/bus.go:38-111 | each of create, update and delete succeeds exactly under its condition, and changes only the row of its id |
| `Runs.CreateKeeps` | internal/domains/user/store/userdb/userdb.go:37-58 | creating keeps ids and emails unique, adds at most the new id, and touches no other row |
| `Runs.UpdateKeeps` | internal/domains/user/store/userdb/userdb.go:60-88 | updating keeps ids and emails unique, the set of ids, and every creation time |
| `Runs.RunKeeps` | internal/domains/user/bus/bus.go:38-111 | over every run with fresh ids: uniqueness, fixed id and creation time, deleted ids never return, row count equals creates minus rows deleted |
| `Runs.Reachable` | internal/migrate/sql/20250914214924_init.up.sql:1-11 | every table reachable from the empty one is consistent, canonical, and of the conserved size |
| `Runs.LateUpdateIsLost` | internal/domains/user/store/userdb/userdb.go:60-88 | after any later run, an update of a deleted id changes nothing, and reports success if and only if its password hashes and its texts can be stored |
| `Runs.ReachablePagesPartition` | internal/domains/user/store/userdb/userdb.go:168-220 | on every reachable table, separately fetched pages in email order partition the matches |
| `Handlers.Handler.DeleteUser` | internal/domains/user/handler/handler.go:104-152 | the specified outcome and table change of a delete request |
| `Handlers.Handler.UpdateUser` | internal/domains/user/handler/handler.go:154-206 | the specified outcome and table change of an update request |
| `Handlers.Handler.UpdateRole` | internal/domains/user/handler/handler.go:208-274 | the specified outcome and table change of a role request |
| `Handlers.Handler.DisableUser` | internal/domains/user/handler/handler.go:276-332 | the specified outcome of a disable request |
| `Handlers.DeleteSafe` | internal/domains/user/handler/handler.go:104-152 | succeeds exactly for an existing target and its owner or an admin, and then removes that row only; each status exactly for the check that fails first |
| `Handlers.UpdateSafe` | internal/domains/user/handler/handler.go:154-206 | changes at most the owner's row, never roles or creation time, nothing unless it succeeds; panics exactly when an owner's bound body leaves out the email |
| `Handlers.UpdateOutcome` | internal/domains/user/handler/handler.go:154-206 | done if and only if the owner's body has an email that parses, all it names can be stored and no other row has the address; unauthorized, bad request (a taken address among them), internal and panic exactly by condition |
| `Handlers.OwnerOutcome` | internal/domains/user/handler/handler.go:188-205 | the same for an owner's parsable body, and the user that a done one replies, field by field |
| `Handlers.UpdateDone` | internal/domains/user/handler/handler.go:154-206 | a successful update stores what the body names, under the parsed email and as the columns store it, and keeps the rest |
| `Handlers.RoleUpdateEffect` | internal/domains/user/handler/handler.go:250-273 | replacing a stored user's roles always succeeds and changes only roles and update time |
| `Handlers.RoleSafe` | internal/domains/user/handler/handler.go:208-274 | succeeds exactly for an admin, an enabled target and registered roles; alters only roles and update time of that row |
| `Handlers.RoleReplies` | internal/domains/user/handler/handler.go:208-274 | each status of a role request exactly by condition; a done one replies the stored user with the new roles and the clock |
| `Handlers.DisableOutcome` | internal/domains/user/handler/handler.go:276-332 | each status of a disable request exactly by condition; the rest panic |
| `Handlers.DisableNeverSucceeds` | internal/domains/user/handler/handler.go:276-332 | never succeeds and never changes the table; panics exactly when allowed and the target is readable |
| `Handlers.StaleSnapshot` | internal/domains/user/handler/handler.go:194-194 | with any snapshot, each of roles, name, department, password hash and enabled that the body leaves out is kept if and only if the snapshot carries the stored value |
| `Handlers.StaleSnapshotExample` | internal/domains/user/handler/handler.go:194-194 | a stale snapshot brings back a removed admin role |
| `Handlers.RequestDone` | internal/domains/user/handler/handler.go:104-332 | a request is done exactly under the condition of its kind, and then its row is gone, changed as the body says, or given the new roles |
| `Handlers.RequestSafe` | internal/domains/user/handler/handler.go:104-332 | one request by a current user: only owner or admin touches a row, roles change only by an admin's role request, other columns but the update time only by the owner's update request, rows go only by a delete request, errors and panics change nothing |
| `Handlers.RunSafe` | internal/domains/user/handler/handler.go:104-332 | over every run, each row that ends up changed or gone was acted on by its owner or an admin: other roles by an admin's role request, other columns but the update time by the owner's update request, and gone by a delete request |
| `Handlers.NoEscalation` | internal/domains/user/handler/handler.go:104-332 | without a stored admin, no run of delete, update, role and disable requests makes one, roles stay fixed, and rows change only on their owner's request |
| `KeyStore.KeyStore.LoadFromFileSystem` | pkg/keystore/keystore.go:38-123 | applies the walk's events to the store; returns the number of ids on success and 0 on failure |
| `KeyStore.KeyStore.Walk` | pkg/keystore/keystore.go:39-114 | the recursive walk does what its event list says, stopping at the first error |
| `KeyStore.KeyStore.PrivateKey` | pkg/keystore/keystore.go:125-135 | the private key stored under the id, or not found |
| `KeyStore.KeyStore.PublicKey` | pkg/keystore/keystore.go:137-147 | the public key stored under the id, or not found |
| `KeyStore.KeyStore.SetActiveKey` | pkg/keystore/keystore.go:149-167 | succeeds exactly for a stored key, and only then changes the active key |
| `KeyStore.LoadOverrides` | pkg/keystore/keystore.go:38-123 | success exactly without errors; either way the old store overridden by the keys loaded before the first error, the last per id winning |
| `KeyStore.EventsMet` | pkg/keystore/keystore.go:39-114 | the walk's events are exactly those of the nodes that a path outside internal directories leads to |
| `KeyStore.LoadFindsAll` | pkg/keystore/keystore.go:38-123 | succeeds exactly when nothing reachable stops it, and then every reachable `.pem` file is loaded under its id, no other id is added, and each key is an old one or such a file's |
| `KeyStore.KeyNamed` | pkg/keystore/keystore.go:63-66 | the names that give a key an id are exactly: white space, the id with no white space at its ends, white space, ".pem" |
| `KeyStore.LoadSucceeds` | pkg/keystore/keystore.go:39-114 | success if and only if every reachable directory not named with a leading ".." can be listed and the first 1048576 characters of every reachable `.pem` file decode to a key |
| `KeyStore.LoadStores` | pkg/keystore/keystore.go:38-123 | after a successful load, each reachable file named by an id is stored under that id, and the last such file in walk order gives the key: what its bytes decode to, with its public part |
| `KeyStore.LoadAddsOnly` | pkg/keystore/keystore.go:38-123 | an id that a successful load adds is named by some reachable file |
| `KeyStore.EventPlace` | pkg/keystore/keystore.go:39-114 | the events after that of a node on a path are those of nodes on later paths |
| `KeyStore.LoadKeepsPairs` | pkg/keystore/keystore.go:105-112 | every stored public key is the public part of its private key |
| `KeyStore.InternalUnused` | pkg/keystore/keystore.go:45-58 | nothing beneath a directory named with a leading ".." is used, not even its readability |
| `KeyStore.PemNames` | pkg/keystore/keystore.go:63-66 | the extension test keeps exactly the names ending in ".pem" |
| `KeyStoreLocks.ActiveKeyPresent` | pkg/keystore/keystore.go:149-173 | in every interleaving the active key is unset or stored, and a kid read after a successful set is always found |
| `KeyStoreLocks.LaterLookUpsFind` | pkg/keystore/keystore.go:125-173 | after a successful set, reading the active kid and looking it up any number of steps later finds a key under the kid that was active when read |
| `KeyStoreLocks.LoadAlone` | pkg/keystore/keystore.go:110-112 | the locked insertions of one load, run alone, amount to the sequential load |
| `KeyStoreLocks.SetActiveAlone` | pkg/keystore/keystore.go:149-167 | check and set under separate locks, run alone, amount to the sequential `SetActiveKey`; a missing kid changes nothing |
| `ConnCheck.ConnCheck` | internal/sqldb/sqldb.go:52-84 | the loop ends at the first attempt that connects or wakes up past the deadline, with that verdict and that time |
| `ConnCheck.TenSeconds` | internal/sqldb/sqldb.go:52-75 | without a deadline a failed attempt is retried if and only if its sleep ends within 9,999,999,999 ns; with one, if and only if before it |
| `ConnCheck.Backoffs` | internal/sqldb/sqldb.go:67-74 | attempt k + 1 starts when attempt k has returned and 100*k ms have passed |
| `ConnCheck.AttemptsBounded` | internal/sqldb/sqldb.go:61-75 | attempt k >= 2 is made only if 50*k*(k-1) ms is less than the time left at entry |
| `ConnCheck.AtMostFourteen` | internal/sqldb/sqldb.go:54-75 | at most 14 attempts without a deadline |
| `ConnCheck.FourteenReached` | internal/sqldb/sqldb.go:54-75 | pings that fail at once make exactly 14 |
| `ConnCheck.OvershootBounded` | internal/sqldb/sqldb.go:67-74 | a deadline error comes at or after the deadline, and at most the last sleep later if the last ping returned in time |

## Left out

- Gin, routing, middleware order and authentication: the acting user is an optional input, and no claim is made that it was authenticated.
- JWT, RSA, PEM and bcrypt internals, UUID and mail parsing, RFC 3339: abstract functions or inputs.
- Struct-tag validation and body binding: handlers start from the bound value or its absence. The role request puts
  `oneof` on a list of strings (internal/domains/user/handler/models.go:124), a kind on which the vendored validator
  panics (vendor/github.com/go-playground/validator/v10/baked_in.go:286-301), so the success half of
  `Handlers.RoleSafe` starts after a binding that does not return for such a body.
- CreateUser, QueryUserByID and Authenticate handlers: beyond the store calls modelled here they only convert fields and issue tokens. CreateUser stores the roles its caller names (internal/domains/user/handler/models.go:70), so it is outside `Handlers.NoEscalation`.
- Statements that fail for reasons outside the table's constraints, such as a lost connection, and cancelled contexts.
- Other SQL: comparisons and columns that the service's own statements never use are refused by the model's reader.
- Writes interleaved within one request: request lemmas about stored roles assume a current acting user, and `Handlers.StaleSnapshot` says what happens otherwise.
- Aliasing of byte slices and role slices between users and rows: both are values in the model.
- Invalid UTF-8: strings are sequences of code points.
- RoleColumn.Write: a list whose nested braces make more items than dimensions panics in the driver; the model lets the write fail. Only names with an opening brace can do this, and durable ones never do.
- PgArray.In: nested literals that only the database's reader sees, and literals with explicit dimensions, are refused. No name could come back through one, because what is read from it is shorter than the name.
- UserDb.Store.Update: a value too long for its column is refused before any row is looked for, as when the server plans the statement for the bound values; under a cached generic plan it is accepted for a missing id, also without effect.
- Zero characters in text, which PostgreSQL refuses in any value.
- Metrics, logging, telemetry, health, docker, migrations, the command line and error wording.
