# Threat-intelligence IOC API — a Dafny model

The server is an Express REST API over four tables:
- three indicator-of-compromise (IOC) tables: SHA-256 file hashes, malicious URLs and IP:port endpoints;
- a table of user accounts.

Anyone may read the IOC tables. The tables are changed as follows:
- Creating or updating a row needs a signed token for an active `researcher` or `admin`.
- Deleting a row needs an `admin`.

A seeding script loads the three IOC tables from comma-separated feed files in batches of 100 rows.

This project models that core and proves properties of it:

- `Auth` models the two middlewares of `middleware/auth.js`:
  - `authenticate` reads the bearer token, verifies it and loads the active user;
  - `authorize(...roles)` checks the role.
- `ErrorHandler` models `middleware/errorHandler.js`. It turns a thrown error into a status and an `{ error, message }` body.
- `IocModels` models the schemas of the three IOC tables as one record type and one validator. The validator is parameterised by the kind of indicator. It reproduces:
  - the NOT NULL checks;
  - the per-table `ioc_value` format rule;
  - the 0..100 bound on `confidence_level`;
  - Sequelize's messages for each.
- `IocStore` models the five operations of an IOC router (list, get, create, update, delete). Each is a function from the table before to the reply and the table after. It includes:
  - the listing's filters;
  - the newest-first ordering;
  - the `LIMIT`/`OFFSET` paging.
- `IocRoutes` models the three routers (`routes/sha256Routes.js`, `urlRoutes.js`, `ipPortRoutes.js`) as one class, `IocRouter`:
  - its table is the mutable fields `rows` and `nextId`;
  - each mutating route runs the middleware chain first, then changes the table in place;
  - every method is proved against the matching `IocStore` function and keeps the table invariant (rows stored under their own id, valid, and `ioc_id` unique).
- `AuthRoutes` models `routes/authRoutes.js`:
  - registration, login, the profile routes and the password change;
  - the class `UserStore`, whose user table is a mutable sequence.
- `CsvLine`, `FeedRows` and `Seed` model `database/seed.js`:
  - the quote-aware CSV tokenizer (a loop, proved against a scanning function);
  - JavaScript `parseInt`;
  - the mapping of a feed row to a record;
  - the line filter;
  - the batching loop, which is proved to hand every record to `bulkCreate` exactly once and in order, in full batches of 100 and a final partial one.
- `Strings` holds the JavaScript string operations the code relies on: first-occurrence `replace`, `trim`, `split`, `join` and `includes`.

The model takes some operations as parameters:
- Token signing and verification: `Auth.TokenService`, bound to the secret.
- validator.js's `isURL`.
- bcrypt's `comparePassword`.

Where the model needs these to behave, the lemmas say so. The lemmas that need a valid token assume `TokenServiceSound` (verifying a signed token gives back its claims). `RegisterThenLogin` assumes that `comparePassword` accepts the password an account was created with.

Four places where the code does something a reader may not expect:

1. **No numeric range check for IP:port values.** The column holds IPv4 endpoints such as "192.168.1.1:8080" (`tests/ipPort.test.js:21`). The validator in `database/models/IpPort.js:19` is only a regular expression. `IocModels.IpPortAcceptsOutOfRange` proves that "256.0.0.0:65536" is accepted.
2. **An admin cannot pick a new account's role.** The comment at `routes/authRoutes.js:35` says only admins can set the role. The route is mounted without `authenticate`, so `req.user` is always absent and the override at `routes/authRoutes.js:37-39` never applies. `AuthRoutes.RegisterAs` models the override for a given caller. `AuthRoutes.Register` (the route as mounted) is proved to create only analysts.
3. **Creating an IOC needs a researcher or admin token.** The test files create IOC rows without a token and expect 201. The route code requires the token, and the model follows the code.
4. **An update validates only the columns it changes.** Sequelize skips the validators of every other column (`IocModels.ChangedColumns`). A row that was already valid therefore gets the same verdict and the same messages as a whole-row check (`IocModels.ChangedColumnsSuffice`). A seeded row that is invalid can keep its bad columns through an update that does not touch them.

## Model

| member | source | states |
|---|---|---|
| Strings.ReplaceFirst | middleware/auth.js:8 | With no occurrence of the pattern the string is unchanged; otherwise exactly the first occurrence is replaced |
| Strings.ReplaceLeadingPrefix | middleware/auth.js:8 | Replacing a leading prefix with "" strips exactly that prefix |
| Strings.TrimFacts | database/seed.js:17 | `trim` yields a string with no surrounding white space, made only of characters of the input, and leaves a trimmed string unchanged |
| Strings.TrimDropsOnlySpace | database/seed.js:23 | `trim` removes only white space, from the two ends, and keeps the middle as a contiguous slice |
| Strings.Split | database/seed.js:37 | `split` on a character yields at least one part, and no part contains the separator |
| Strings.JoinSplit | database/seed.js:37 | Joining the parts of a split with the separator gives back the original text |
| Strings.SplitJoin | database/seed.js:37 | Splitting a join of separator-free parts recovers the parts |
| ErrorHandler.Handle | middleware/errorHandler.js:1-26 | Validation errors become 400 with the item messages joined by ", "; unique-constraint errors become 409 "Duplicate Entry"; any other error keeps its status code, name and message, each falling back to 500, "Internal Server Error" and "An unexpected error occurred"; 500 is answered exactly for such errors with no or a 500 status code |
| Auth.FindByPk | middleware/auth.js:22 | The user found has the requested id and is in the table; None means no user has that id |
| Auth.Authenticate | middleware/auth.js:6-39 | Every rejection is 401. A missing or empty token gives "No token provided" exactly. An unset secret or a token that does not verify gives "Invalid or expired token". The request continues exactly when the token verifies to the id of an existing, active user, and continues with that stored user |
| Auth.Authorize | middleware/auth.js:42-60 | No user gives 401 "Please login first."; a role outside the list gives 403 with the roles joined by " or "; the request continues exactly when the user's role is in the list, with the same user |
| Auth.Guard | routes/sha256Routes.js:56 | `authenticate` then `authorize`: an authentication failure is passed through unchanged; the request continues exactly when the authenticated user's role is allowed; every refusal is 401 or 403, and 403 exactly for an authenticated user with the wrong role |
| Auth.RoleMatrix | routes/sha256Routes.js:56-85 | Create and update admit exactly researchers and admins, delete admits exactly admins, and an unauthenticated request is refused with 401 on all of them |
| Auth.BearerHeaderToken | middleware/auth.js:8 | The header "Bearer t" yields the token t |
| Auth.SignedTokenAuthenticates | middleware/auth.js:21-32 | A token signed for a stored active user authenticates as that stored user, whatever role the token claims |
| IocModels.Apply | routes/sha256Routes.js:77 | Under `update`, an absent property leaves the column alone, `null` clears it, and a value sets it |
| IocModels.Patch | routes/sha256Routes.js:77 | An update never changes the primary key |
| IocModels.Build | routes/sha256Routes.js:58 | `create` yields the row an update of an all-NULL row with the same body would yield |
| IocModels.PatchIdempotent | routes/sha256Routes.js:77 | Updating twice with the same body equals updating once |
| IocModels.Messages | database/models/Sha256.js:10-62 | One message per violation, in order: message i is the text of violation i |
| IocModels.ValueViolations | database/models/Sha256.js:15-22 | The `ioc_value` validators find nothing exactly when the value has the table's format (64 hex digits either case; `isURL`; the IP:port pattern) |
| IocModels.ConfidenceViolations | database/models/Sha256.js:35-42 | The confidence validators find nothing exactly when 0 <= confidence <= 100 |
| IocModels.Violations | database/models/Sha256.js:10-62 | Over the checked columns, a row draws no violation exactly when it is valid there. Every "cannot be null" violation comes before every validator failure. A NULL `ioc_value` is reported as "cannot be null". A confidence below 0 draws the `min` violation and one above 100 the `max` violation |
| IocModels.NotNullCheck | database/models/Sha256.js:17 | A checked NULL column draws one "cannot be null" violation, and nothing else does |
| IocModels.NullViolations | database/models/Sha256.js:10-62 | The NULL checks of the checked non-null columns yield only "cannot be null" violations, and none exactly when none of those columns is NULL |
| IocModels.ValidatorViolations | database/models/Sha256.js:15-42 | The `validate` rules of `ioc_value` and `confidence_level` yield only validator failures, and none exactly when every checked non-NULL value passes its rules |
| IocModels.NullsFirst | database/models/Sha256.js:10-62 | Putting the null checks' violations ahead of the validator failures orders the list null-first |
| IocModels.ChangedColumnsSuffice | routes/sha256Routes.js:77 | On a row that was valid, checking only the changed columns gives the same violations, and the same verdict, as checking them all |
| IocModels.Repeat | database/models/Sha256.js:19 | `c` repeated n times has length n and only `c`s |
| IocModels.Sha256Examples | database/models/Sha256.js:19-20 | "invalid" fails both `len` and `is`; 64 'a's and 64 'A's pass (the pattern ignores case) |
| IocModels.DigitsHaveNoSeparator | database/models/IpPort.js:19 | Digit groups contain neither '.' nor ':' |
| IocModels.HostSplit | database/models/IpPort.js:19 | Four digit groups joined by dots split back into those four groups, with no colon |
| IocModels.ColonSplit | database/models/IpPort.js:19 | A colon-free host and port joined by ':' split back into the two |
| IocModels.IpPortOfParts | database/models/IpPort.js:19 | Every string of the form d.d.d.d:p with 1-3 digit groups and a 1-5 digit port passes the IP:port validator |
| IocModels.IpPortAcceptsTestValue | database/models/IpPort.js:19 | "192.168.1.1:8080" passes |
| IocModels.IpPortAcceptsOutOfRange | database/models/IpPort.js:19 | "256.0.0.0:65536" passes: there is no range check |
| IocModels.IpPortRejectsWithoutColon | database/models/IpPort.js:19 | A value without a colon is rejected |
| IocModels.IpPortRejectsTestValues | database/models/IpPort.js:19 | "invalid-ip-port" and "no-port" are rejected |
| IocStore.Get | routes/sha256Routes.js:38-53 | A stored id answers its row; any other id answers 404 with the table's message |
| IocStore.Create | routes/sha256Routes.js:56-63 | The row is created exactly when the body builds a valid row whose `ioc_id` no other row holds. It is stored under the next id and the counter advances. Otherwise the table is unchanged: an invalid row answers 400 with its violation messages, and a duplicate `ioc_id` answers 409 |
| IocStore.Update | routes/sha256Routes.js:66-82 | An unknown id answers 404 and changes nothing. Otherwise only the columns the body changes are validated. The patched row replaces the old one exactly when it passes those checks and its `ioc_id` is not held by another row. If it fails a check the reply is 400 with those checks' messages; if only the `ioc_id` clashes it is 409. Either way the table is unchanged. The set of ids and the counter never change |
| IocStore.Delete | routes/sha256Routes.js:85-101 | An unknown id answers 404 and changes nothing; a stored id is removed and every other row is kept as it was; the table invariant is preserved |
| IocStore.UniqueAfterPut | database/models/Sha256.js:10-14 | Storing a row whose `ioc_id` no other row holds keeps `ioc_id` unique |
| IocStore.PutKeepsInvariant | database/models/Sha256.js:10-62 | Storing a valid, non-duplicate row under its own id keeps the table invariant |
| IocStore.CreateKeepsInvariant | routes/sha256Routes.js:56-63 | Create keeps the table invariant; a successful create uses a fresh id and adds exactly one row |
| IocStore.UpdateKeepsInvariant | routes/sha256Routes.js:66-82 | Update keeps the table invariant |
| IocStore.CreateThenGet | routes/sha256Routes.js:38-63 | A created row reads back unchanged under its new id |
| IocStore.DeleteThenGet | routes/sha256Routes.js:38-101 | After a delete, reading or deleting the same id answers 404 |
| IocStore.Offset | routes/sha256Routes.js:10-11 | The offset is (page - 1) * limit, with page defaulting to 1 and limit to 50: offset 0 without a page, (page - 1) * 50 when only the page is given |
| IocStore.SelectIds | routes/sha256Routes.js:13-17 | Exactly the stored ids whose rows satisfy every supplied filter, in ascending order |
| IocStore.Fetch | routes/sha256Routes.js:19-24 | The rows of the given ids, one each, in the same order |
| IocStore.Insert | routes/sha256Routes.js:23 | Inserting into a newest-first list keeps it sorted and adds exactly that row |
| IocStore.InsertSeenAt | routes/sha256Routes.js:23 | An inserted row goes ahead of every row it ties with and leaves their order alone |
| IocStore.InsertHead | routes/sha256Routes.js:23 | Every row of the rest of a sorted list, with a row inserted that is not newer than the head, may follow the head |
| IocStore.SortNewestFirst | routes/sha256Routes.js:23 | The result is sorted by `first_seen_utc` descending (NULL last) and is a permutation of the input |
| IocStore.SortKeepsTies | routes/sha256Routes.js:23 | The sort is stable: rows with the same `first_seen_utc` keep their order, so a listing shows tied rows in ascending id (insertion) order |
| IocStore.MatchingRows | routes/sha256Routes.js:13-24 | The match list is sorted newest first and holds only stored rows satisfying every filter |
| IocStore.IncreasingTail | routes/sha256Routes.js:19-24 | The tail of an increasing id list is increasing and does not repeat its head |
| IocStore.FetchCount | routes/sha256Routes.js:19-24 | A row's count in a fetch is its count at the head plus its count in the rest |
| IocStore.FetchOnce | routes/sha256Routes.js:19-24 | Fetching distinct ids yields each stored row at most once, and exactly once when its id is fetched |
| IocStore.ListedExactlyOnce | routes/sha256Routes.js:13-24 | Over a table whose rows sit under their own ids (valid or not), every stored row that satisfies the filters appears exactly once in the match list, and nothing else appears |
| IocStore.Window | routes/sha256Routes.js:21-22 | `LIMIT`/`OFFSET`: at most `limit` rows, the i-th being row offset + i, and as many as remain |
| IocStore.WindowOfSorted | routes/sha256Routes.js:21-23 | A window of a sorted list is sorted and holds only rows of the list |
| IocStore.List | routes/sha256Routes.js:8-35 | `total` counts all matches; `page` and `limit` echo the query with defaults 1 and 50; `data` is the window of the sorted match list at offset (page - 1) * limit, at most `limit` rows, sorted, all stored and all matching |
| IocStore.TotalIgnoresPaging | routes/sha256Routes.js:19-27 | The total does not depend on the page or the limit |
| IocStore.PrefixThenWindow | routes/sha256Routes.js:21-22 | The first `lo` rows followed by the window at `lo` are the first `lo + limit` rows |
| IocStore.PagesArePrefix | routes/sha256Routes.js:10-24 | Pages 1..n concatenated are exactly the first n * limit matches |
| IocStore.PagesCoverAll | routes/sha256Routes.js:10-24 | With a positive limit, paging through all pages returns the whole match list, each row once |
| IocStore.ListIsPageOfMatches | routes/sha256Routes.js:10-30 | Page p of the listing is what follows pages 1..p-1 in the match list |
| IocRoutes.IocRouter.constructor | routes/sha256Routes.js:1-3 | A router starts with an empty, consistent table whose ids start at 1 |
| IocRoutes.IocRouter.List | routes/sha256Routes.js:8-35 | Answers `IocStore.List` on the current table: the count of all matches and at most `limit` stored, matching rows |
| IocRoutes.IocRouter.Get | routes/sha256Routes.js:38-53 | A stored id answers its row, any other id 404 |
| IocRoutes.IocRouter.Post | routes/sha256Routes.js:56-63 | A request the guard refuses gets the guard's 401/403 and the table is untouched; otherwise the table becomes what `Create` says; the invariant is kept |
| IocRoutes.IocRouter.Insert | routes/sha256Routes.js:57-62 | The handler changes the table and answers exactly as `Create` says, keeping the invariant |
| IocRoutes.IocRouter.Put | routes/sha256Routes.js:66-82 | A refused request changes nothing; otherwise the reply and the new table are `Update`'s; the invariant is kept |
| IocRoutes.IocRouter.Patch | routes/sha256Routes.js:67-81 | The handler changes the row in place exactly as `Update` says, keeping the invariant |
| IocRoutes.IocRouter.Delete | routes/sha256Routes.js:85-101 | Only admins get past the guard; a refused request changes nothing; otherwise the reply and the new table are `Delete`'s |
| IocRoutes.IocRouter.Destroy | routes/sha256Routes.js:86-100 | 404 for an unknown id, else the row is removed and 204 answered, keeping the invariant |
| IocRoutes.WriteGuard | routes/sha256Routes.js:56 | An analyst gets 403 and a request without a token 401 on the write routes, while a researcher is admitted |
| IocRoutes.RoleScenario | routes/sha256Routes.js:56-63 | Against one router, an analyst's POST answers 403 and an anonymous POST 401, neither changing the table; a researcher's POST of a valid new row is created under the next id; a POST that creates nothing leaves the router as it was |
| AuthRoutes.FindByEmail | routes/authRoutes.js:77 | The user found has that email; None means no user has it |
| AuthRoutes.RegisterAs | routes/authRoutes.js:9-62 | A body missing the username, email or password gets 400. An email or username already in use gets 409. Otherwise exactly one active user is appended with the next id and the granted role (the requested one only for an admin caller). The reply is 201 with a token signed for its id and role, or the 500 "JWT_SECRET" error when no secret is set, in which case the account is still created |
| AuthRoutes.Register | routes/authRoutes.js:9-62 | As mounted, a registration that adds an account always adds an analyst |
| AuthRoutes.Login | routes/authRoutes.js:65-115 | 400 without email or password. 401 "Invalid credentials or account is inactive." for an unknown or inactive email, and 401 "Invalid credentials." for a wrong password. Success exactly when the email belongs to an active user whose password matches and a secret is set; it returns that user with a token signed for its id and role. The status is one of 200, 400, 401 and 500 |
| AuthRoutes.UpdateProfile | routes/authRoutes.js:123-140 | Only non-empty username and email are applied to the caller's record. No other user changes. The update succeeds exactly when no other user holds the resulting username or email; otherwise it answers 409 and changes nothing |
| AuthRoutes.UpdateProfileEmptyBody | routes/authRoutes.js:125-131 | On a consistent table, a body with neither username nor email answers with the caller's unchanged profile and leaves the table as it was |
| AuthRoutes.ChangePassword | routes/authRoutes.js:143-171 | 400 without both passwords and 401 for a wrong current password, both without change. The password changes exactly when both are given and the current one matches, and only the caller's password changes |
| AuthRoutes.RegisterKeepsInvariant | routes/authRoutes.js:22-41 | Registration keeps ids in step with positions and emails and usernames unique |
| AuthRoutes.UpdateProfileKeepsInvariant | routes/authRoutes.js:125-131 | A profile update keeps ids and uniqueness of emails and usernames |
| AuthRoutes.ChangePasswordKeepsInvariant | routes/authRoutes.js:163 | A password change keeps ids and uniqueness of emails and usernames |
| AuthRoutes.FindByPkAt | middleware/auth.js:22 | In a table whose ids follow positions, `findByPk` finds the user at the id's position |
| AuthRoutes.FindByEmailUnique | routes/authRoutes.js:77 | With unique emails, looking up a user's email finds that user |
| AuthRoutes.LoginThenAuthenticate | routes/authRoutes.js:101-111 | The token a successful login returns authenticates, through `authenticate`, as the user who logged in |
| AuthRoutes.RegisterThenLogin | routes/authRoutes.js:41-115 | After a successful registration, logging in with the same email and password returns the new user and the same token |
| AuthRoutes.WrongPasswordKeepsPassword | routes/authRoutes.js:154-161 | A wrong current password leaves the table unchanged |
| AuthRoutes.UserStore.constructor | routes/authRoutes.js:1-6 | The user table starts empty and consistent |
| AuthRoutes.UserStore.PostRegister | routes/authRoutes.js:9-62 | The reply and the new table are `Register`'s, including the account kept when token signing then fails; the invariant is kept |
| AuthRoutes.UserStore.PostLogin | routes/authRoutes.js:65-115 | Answers `Login` on the current table; a logged-in user is a stored one |
| AuthRoutes.UserStore.GetMe | routes/authRoutes.js:118-120 | Answers the authenticated stored user, or `authenticate`'s 401 |
| AuthRoutes.UserStore.PutMe | routes/authRoutes.js:123-140 | A failed authentication changes nothing; otherwise the authenticated user's id is a valid position and the table becomes what `UpdateProfile` says |
| AuthRoutes.UserStore.UpdateMe | routes/authRoutes.js:124-139 | The handler changes the stored record in place exactly as `UpdateProfile` says, keeping the invariant |
| AuthRoutes.UserStore.PutChangePassword | routes/authRoutes.js:143-171 | A failed authentication changes nothing; otherwise the table becomes what `ChangePassword` says |
| AuthRoutes.UserStore.ChangeMyPassword | routes/authRoutes.js:144-170 | The handler changes the stored password in place exactly as `ChangePassword` says, keeping the invariant |
| CsvLine.ParseCsvLine | database/seed.js:6-26 | The loop computes exactly the fields the scanning function defines: the state after each character is the scanner's state on the prefix read so far |
| CsvLine.ScanFacts | database/seed.js:11-22 | After reading a prefix, the quote flag is the parity of the quotes seen; the finished fields number the commas outside quotes; no field contains a quote; every finished field is trimmed |
| CsvLine.CsvFieldCount | database/seed.js:6-26 | A line has one field more than it has commas outside quotes |
| CsvLine.CsvFieldsClean | database/seed.js:6-26 | Every field is trimmed and free of quote characters |
| CsvLine.Run | database/seed.js:19-21 | Characters that are neither quotes nor active separators are appended to the current field unchanged |
| CsvLine.QuotedRegion | database/seed.js:14-20 | Text between a pair of quotes, commas included, is copied into the current field verbatim |
| CsvLine.ScanJoin | database/seed.js:11-22 | Reading a comma-join of plain fields leaves all but the last as finished fields and the last as the current one |
| CsvLine.ScanComma | database/seed.js:16-18 | An unquoted comma after a trimmed field finishes it and starts an empty one |
| CsvLine.CsvRoundTrip | database/seed.js:6-26 | Plain fields (no quote, no comma, no surrounding white space) joined by commas are parsed back into the same fields |
| FeedRows.DigitRun | database/seed.js:54 | The longest prefix of digits of the radix: every character before it is a digit, the one after is not |
| FeedRows.ParseIntDecimal | database/seed.js:54 | A decimal numeral followed by nothing or a non-alphanumeric character parses to its value, and so does the confidence cell |
| FeedRows.UnsignedNumeral | database/seed.js:54 | Text starting with a digit is parsed from its first character |
| FeedRows.NegatedNumeral | database/seed.js:54 | A leading minus negates the numeral |
| FeedRows.ConfidenceOfNumeral | database/seed.js:54 | The cell "75" gives confidence 75 |
| FeedRows.ConfidenceOfText | database/seed.js:54 | A cell without digits, or an empty cell, gives confidence 0 |
| FeedRows.ConfidenceOfHex | database/seed.js:54 | The cell "0x1F" gives confidence 31: `parseInt` reads a "0x" prefix as base 16 |
| FeedRows.NoneAsNull | database/seed.js:52 | "None" becomes NULL, and any other text is kept |
| FeedRows.ParseDate | database/seed.js:28-31 | The empty cell becomes NULL, and any other text is kept for date parsing |
| FeedRows.MapRow | database/seed.js:48-60 | The optional columns `malware`, `reference` and `tags` are NULL exactly when their cell reads "None". The dates are NULL exactly when their cell is empty |
| FeedRows.SeedRowClean | database/seed.js:44-60 | Every text column of a seeded row is trimmed and free of quotes |
| FeedRows.KeepLines | database/seed.js:37 | The kept lines are exactly the non-blank lines not starting with '#' |
| FeedRows.KeepLinesAppend | database/seed.js:37 | Filtering two runs of lines is filtering each in turn, so kept lines keep their file order |
| FeedRows.KeepLinesSingle | database/seed.js:37 | One line is kept exactly when it is neither blank nor a comment |
| FeedRows.HeaderIgnored | database/seed.js:43 | The records do not depend on the first (header) line |
| FeedRows.RowsFromLongLines | database/seed.js:43-60 | Every pushed row is the mapping of a data line with at least 14 fields, and there are no more rows than lines |
| FeedRows.RowsOfNext | database/seed.js:44-48 | Reading one more line appends its row when it has at least 14 fields, and nothing otherwise |
| FeedRows.FlattenSnoc | database/seed.js:63 | Handing one more batch over appends its rows |
| Seed.AddRow | database/seed.js:48-67 | Pushing a row keeps the batching state: flushed batches and the pending batch hold all rows pushed, every flushed batch has exactly 100 rows, and the pending one has fewer |
| Seed.LoadLines | database/seed.js:43-71 | After the loop, the rows pushed are exactly the records of the data lines, batched as above |
| Seed.LoadLine | database/seed.js:44-67 | One iteration pushes the line's row, if any, keeping the batching state |
| Seed.FlushRest | database/seed.js:73-76 | After the final flush, the batches hold every pushed row in order, the count equals their number, every batch is non-empty, and all but the last are full |
| Seed.SeedLines | database/seed.js:39-76 | Every record of the data lines reaches `bulkCreate` exactly once, in file order. The count is the number of records. Batches hold 1 to 100 rows, all but the last exactly 100, and there is no empty batch |
| Seed.SeedTable | database/seed.js:33-79 | From the file content, the same guarantee over the filtered lines |

## Left out

- The database itself: Sequelize, SQLite/PostgreSQL, connections, transactions and `setup.js`. Tables are values; a create or update succeeds exactly as its validation and the unique index decide.
- The `LIKE` operator used by the `malware` filter is modelled as plain substring containment, and `%` and `_` in the filter text are not treated as wildcards.
- The database's tie order under `ORDER BY first_seen_utc DESC` is unspecified. The model breaks ties by ascending id (insertion order) and sorts NULL last.
- Query-string coercion: `page` and `limit` are taken as already parsed naturals with `page >= 1`. The model leaves out what JavaScript does with non-numeric, zero or negative values (NaN offsets and the like). `min_confidence` is taken as the integer `parseInt` produced. A truthy `min_confidence` of "0" is treated the same as any other value.
- Route ids that are not numbers: ids are naturals, so `/:id` with text is not modelled.
- Dates: IOC timestamps are integers, and seeded dates are kept as the text that `new Date` would parse; date parsing is not modelled.
- `createdAt`/`updatedAt` timestamps, and body properties that are not columns (including a body-supplied `id`).
- Password hashing: `comparePassword` is a parameter, and the stored password is what was submitted; hashing hooks and the removal of the password from JSON replies are not modelled.
- Token signing, expiry (`JWT_EXPIRES_IN`) and verification: `TokenService` is a parameter bound to the secret; an expired or forged token is one for which `verify` answers None.
- validator.js's `isURL` is a parameter of the URL table.
- `database/models/User.js` is not part of this model. The model assumes unique indexes on email and username (`AuthRoutes.StoreInvariant`) and the default role analyst (`AuthRoutes.GrantedRole`). No other validation of users is modelled, so a profile update with a malformed email is accepted.
- AuthRoutes.UpdateProfile: a clash on the unique index is reported through the error handler's 409, but other validation failures of the User model are not modelled.
- Seeding: `bulkCreate` with `ignoreDuplicates` is modelled as handing the batch over; which rows the database then skips, insert failures and the per-line `try`/`catch` are not modelled.
- Seeding: `seedSha256`, `seedUrls` and `seedIpPorts` (database/seed.js:33-175) differ only in file and table and are modelled by one loop (`Seed.SeedTable`); the file system, logging, `process.exit` and the order of the three calls are left out.
- IocStore.TableInvariant: `bulkCreate` does not run the model validators, so a seeded row may break the validity half of the invariant. The invariant covers tables built through the routes, and an update of such a row checks only the columns it changes.
- IocStore.Update: JSON body value types are not modelled. Every column is `Option` of its schema type, so a text or fractional `confidence_level` cannot be written, and what Sequelize and the database do with such a value (the INTEGER type check, coercion) is left out.
- IocModels.Violations: the order among the validator failures is the order the schema lists them; Sequelize runs the validators concurrently, and the order in which their failures settle is not modelled.
- `parseInt` is modelled on unbounded integers; the precision loss of JavaScript numbers above 2^53 is not modelled.
- The auto-increment counter is advanced only by successful inserts (a failed insert may consume an id in a real database).
- The Express plumbing (`server.js`, routing, JSON bodies, CORS, the static front end in `public/app.js`) and logging in the error handler are left out.

