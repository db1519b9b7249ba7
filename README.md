# Real-world backend core, modelled in Dafny

This project models the core of a Go implementation of the RealWorld
("Conduit") backend: the session table and its repository, the request
context that carries a session, the user record, password hashing with
Argon2id, the user repository and its partial-update statement builder, the
schema snapshot used as the update allow-list, the user and authentication
HTTP handlers, and the article repository and handlers.

The model uses these conventions:
- SQL tables are in-memory state.
  - The session table is a `seq<Session>` field of class `SessionStorage.SessionRepo`.
  - `user_data` is a `seq<Row>` field of class `UserRepo.UserRepo`. A row is a map from column name to driver value.
  - An UPDATE runs on the structured statement whose text `UserRepo.BuildUpdateQuery` renders.
  - The driver sends every argument that is not NULL or a byte string as text (`Sql.Coerce`). For a bytea parameter it hex-encodes the text's UTF-8 bytes itself, so any string is stored exactly, a backslash or NUL among its characters. For other columns the server converts the text to the column's type or refuses the statement; it refuses any text containing NUL. The `user_data` column types are assumed, since the schema is not part of this model: `id` integer, `password` and `salt` bytea, every other column text, and no column NOT NULL.
- The article repository keeps no table. Its methods take what the database answers (`ArticleRepo.ArticleDb`) and return the statements they send.
- Some functions, and all time, randomness and token values, are parameters:
  - Argon2id (`argon2.IDKey`) is `kdf`. Its output length is the requested key length.
  - `slug.Make` is `slugify`.
  - The token `CreateToken` returns is `token`. It must be non-empty and not already in the table.
  - The bytes `crypto/rand` yields are `random`.
  - `time.Now().Format(time.RFC3339)` is `now`.
- A database failure that the table contents do not explain is a boolean parameter of the call (`dbError`, `lookupFails`, ...).
- An HTTP response is a `Http.ResponseWriter`. It holds the status fixed by the first `WriteHeader` (or by the first `Write`, as 200) and the sequence of parts written.
  - JSON bodies are modelled as the value they encode (`UserRecord.JsonUser`, `ArticleRepo.JsonArticle`). A nil slice, which encodes as `null`, is `None`.
  - `NullStringWrapper` (internal/utils/null_string_wrapper.go) encodes an invalid string as `null`. Its `UnmarshalJSON` has a value receiver, so what it decodes is lost and a decoded bio stays NULL.
  - Each handler is specified for a fresh writer.

Two behaviours of the code differ from what a reader of the API might expect, and the model keeps them:
- The update allow-list is every column of `user_data`. `id`, `password`, `salt` and `created_at` are all accepted keys, with no exclusion (`DbExplorer.SensitiveColumnsAreWhitelisted`).
- A failing random source while generating a salt is only logged. Salt generation never fails, and the salt is then zero-filled where the source gave no bytes (`Password.GenerateRandomSalt`).

## Model

| member | source | states |
|---|---|---|
| SessionCtx.HeaderGet | internal/session/session_storage.go:30 | a header that is not sent reads as ""; a non-empty result is the header's first value |
| SessionCtx.FirstHeaderValueWins | internal/session/session_storage.go:30 | only the first value of a header counts, and an absent header reads as "" |
| SessionCtx.SaveToCtx | internal/session/ctx.go:15-17 | the new context is derived from `context.Background()`: it holds the session under `session_ctx_key` and no other key |
| SessionCtx.GetFromCtx | internal/session/ctx.go:10-13 | a session is returned exactly when the value under `session_ctx_key` is a session, and it is that session |
| SessionCtx.SavedSessionIsFound | internal/session/ctx.go:10-17 | a request carrying `SaveToCtx(s)` yields `s`, whatever context it had before |
| SessionCtx.MissingOrForeignValueIsAbsent | internal/session/ctx.go:10-13 | no value, or a value of another type, under `session_ctx_key` yields absent, not a crash |
| SessionStorage.UserIdByToken | internal/session/session_storage.go:66-80 | token lookup finds a user exactly when some row has that token, and the pair is a row |
| SessionStorage.TokenByUserId | internal/session/session_storage.go:82-92 | user lookup finds a token exactly when the user has a row, and the pair is a row |
| SessionStorage.Rotate | internal/session/session_storage.go:54-58 | the UPDATE keeps the number of rows and every row's user, rewrites the token of exactly the user's rows and inserts nothing |
| SessionStorage.RemoveUser | internal/session/session_storage.go:94-97 | the DELETE keeps no more rows than before, only rows that were there, and none of the user |
| SessionStorage.ResolveIsExact | internal/session/session_storage.go:66-80 | in a valid table a token resolves to `u` if and only if `(token, u)` is a row |
| SessionStorage.EmptyTokenResolvesToNoOne | internal/session/session_storage.go:29-31 | a missing Authorization header (empty token) resolves to no user |
| SessionStorage.LookupAfterAppend | internal/session/session_storage.go:39-43 | appending a row changes the lookup of no other token |
| SessionStorage.InsertResolves | internal/session/session_storage.go:39-43 | after the insert the new token resolves to the user and every other token resolves as before |
| SessionStorage.InsertPreservesValid | internal/session/session_storage.go:39-43 | inserting a fresh non-empty token keeps the table invariant |
| SessionStorage.RotateInvalidatesOldToken | internal/session/session_storage.go:54-58 | after the rewrite the user's old token resolves to no one |
| SessionStorage.RotateResolvesNewToken | internal/session/session_storage.go:54-58 | the returned token resolves to the user when the user had a row |
| SessionStorage.RotateWithoutRowChangesNothing | internal/session/session_storage.go:54-63 | for a user with no row the rewrite changes nothing and the returned token resolves to no one (success is still reported) |
| SessionStorage.RotateKeepsOtherUsers | internal/session/session_storage.go:54-58 | other users' tokens are unchanged |
| SessionStorage.RotatePreservesValid | internal/session/session_storage.go:54-58 | the rewrite keeps the table invariant |
| SessionStorage.RemoveUserRows | internal/session/session_storage.go:94-97 | delete keeps exactly the rows of other users |
| SessionStorage.RemoveUserIsIdempotent | internal/session/session_storage.go:94-102 | after delete the user has no row, deleting again changes nothing, and deleting a user without rows changes nothing |
| SessionStorage.RemoveUserRevokes | internal/session/session_storage.go:94-97 | after delete the user's tokens resolve to no one, other tokens resolve as before, and the invariant holds |
| SessionStorage.SessionRepo.constructor | internal/session/session_storage.go:15-17 | an empty table satisfies the invariant |
| SessionStorage.SessionRepo.Check | internal/session/session_storage.go:29-37 | succeeds exactly when the Authorization token has a row, returning that token and its user; the table is not changed |
| SessionStorage.SessionRepo.GetUserIdByToken | internal/session/session_storage.go:66-80 | exact-match lookup; an unknown token or a database error gives an error and no id |
| SessionStorage.SessionRepo.GetTokenByUserId | internal/session/session_storage.go:82-92 | the token of a row of the user; an error when the user has no row |
| SessionStorage.SessionRepo.Create | internal/session/session_storage.go:39-52 | on success one `(token, id)` row is added, the token resolves to the user, the user's Token is set and 201 with the user JSON is written; on failure nothing changes and nothing is written |
| SessionStorage.SessionRepo.UpdateToken | internal/session/session_storage.go:54-64 | on success the table is the rotation of the old one keyed on user id (no insert) and the new token is returned; on failure nothing changes |
| SessionStorage.SessionRepo.DestroyCurrent | internal/session/session_storage.go:94-102 | on success every row of the user is removed and no other; on failure nothing changes |
| UserRecord.UserRef.SetToken | internal/user/user.go:25-27 | sets Token and no other field |
| UserRecord.JsonShowsExactlyTaggedFields | internal/user/user.go:8-19 | Id, EncryptedPassword and Salt are hidden from the JSON; Password, Token and the other fields are visible (two users encode the same exactly when those agree) |
| UserRecord.ToJson | internal/user/user.go:8-19 | the JSON carries the password and token as they are; the bio is `null` exactly when it is not valid, otherwise its string |
| UserRecord.LogValue | internal/user/user.go:29-38 | the log value is one group keyed `user` with one attribute per key id, name, email, createdAt, updatedAt, bio, in that order and pairwise distinct; the id attribute is an unsigned integer holding the id, every other attribute the string field its key names (the bio's string even when NULL) |
| UserRecord.LogValueOmitsSecrets | internal/user/user.go:29-38 | the log group is independent of password, digest, salt and token and uses only the keys id, name, email, createdAt, updatedAt, bio |
| Password.PasswordArgon2WithSalt | internal/user/encrypt_password.go:17-19 | the digest is 32 bytes (parameters 1, 64*1024, 4, 32) |
| Password.IsValidPassword | internal/user/encrypt_password.go:21-23 | a stored value that matches has the digest's length |
| Password.HashThenVerify | internal/user/encrypt_password.go:12-23 | a digest verifies against its own password and salt; verification holds exactly when the stored bytes equal the recomputed digest element by element, so a length mismatch fails |
| Password.GenerateRandomSalt | internal/user/encrypt_password.go:25-33 | always exactly `n` bytes: the random bytes where the source gave them, zero after that; never fails |
| Password.GetPasswordSalt | internal/user/encrypt_password.go:10-15 | a 16-byte salt and the digest of the password with that salt, which verifies |
| UserRepo.ScanUser | internal/user/repo.go:44-67 | a row scans into a user only when it has exactly the `user_data` columns; the user's fields are the row's values and carry no token; a NULL salt scans as no bytes, as into a `[]byte` |
| UserRepo.FirstMatch | internal/user/repo.go:44-67 | `QueryRow ... WHERE column = $1` reads the first matching row, or none when no row matches |
| UserRepo.LookupUser | internal/user/repo.go:44-67 | a found user is the scan of a row matching the column (a NULL salt included); no matching row means no user |
| UserRepo.InsertedRow | internal/user/repo.go:25-41 | the inserted row has exactly the `user_data` columns, the inserted id, `now` in both timestamps, the digest and salt, and a NULL bio |
| UserRepo.InsertedRowReadsBack | internal/user/repo.go:25-41 | the inserted row reads back as the created user with the same timestamp twice, the digest and salt, and a NULL bio |
| UserRepo.FirstMatchOfAppended | internal/user/repo.go:25-55 | a row appended under a new email is the first match for that email |
| UserRepo.RegisteredUserCanLogIn | internal/user/repo.go:25-55 | a user created under a new email is found by that email and the registered password verifies against the stored digest and salt |
| UserRepo.BuildUpdateQuery | internal/user/repo.go:69-78 | the query is `UPDATE user_data SET f1 = $1, ..., fn = $n, updated_at = $(m+1) WHERE id = $(m+2)` for n fields and m values, field names verbatim and in order; the arguments are the values, then the timestamp, then the id |
| UserRepo.PlaceholdersBindArguments | internal/user/repo.go:74-78 | with equal lengths every placeholder is bound, `$k` of field k binds value k, `updated_at` binds the timestamp and `WHERE id` the id |
| UserRepo.PlaceholderClashWhenLengthsDiffer | internal/user/repo.go:75-77 | for any m values and more than m fields, field m and `updated_at` bind the same placeholder `$(m+1)` |
| Sql.FromText | internal/user/repo.go:80 | a converted text parameter has the column's type and is not NULL; a bytea column accepts every text; a text or integer column refuses text containing NUL |
| Sql.Coerce | internal/user/repo.go:80 | a stored argument has its column's type, and is NULL exactly when the argument is; NULL is always accepted |
| Sql.CoerceKeepsTypedValue | internal/user/repo.go:80 | an argument already of the column's type is stored unchanged (an integer survives its trip through decimal text) |
| Sql.BooleanIsNotAnInteger | internal/user/repo.go:80 | a boolean bound to an integer column is refused |
| Sql.LiteralsIntoText | internal/user/handlers.go:58 | a JSON number or boolean bound to a text column is stored as its literal ("5", "-12", "true") |
| Sql.StringIntoBytea | internal/user/handlers.go:58 | a JSON string bound to a bytea column is stored as exactly its UTF-8 bytes, a backslash or a NUL among them |
| Sql.NulRefusedOutsideBytea | internal/user/handlers.go:58 | a string with a NUL bound to a text or an integer column is refused |
| Sql.StringIntoInteger | internal/user/handlers.go:58 | a signed digit string bound to an integer column is stored as its number; other strings are refused |
| Sql.Utf8 | internal/user/repo.go:80 | the encoding has at least one byte per character |
| Sql.Utf8OfAscii | internal/user/repo.go:80 | an ASCII string encodes to its character codes, one byte each |
| Text.ParseInt | internal/user/repo.go:77-80 | a parsed integer comes from a non-empty literal, and a negative one starts with `-` |
| Text.DigitsValueOfNatToString | internal/user/repo.go:77-80 | the decimal rendering of n is all digits and denotes n |
| Text.ParseIntOfIntToString | internal/user/repo.go:77-80 | parsing the decimal rendering of any integer gives that integer back |
| UserRepo.ExecUpdate | internal/user/repo.go:80-85 | the statement is accepted exactly when its columns are known and distinct, every placeholder is bound, and every argument converts to the type of its column (the WHERE argument to integer); the table keeps its length |
| UserRepo.ApplyAssignmentsEffect | internal/user/repo.go:80 | assigned columns get their converted arguments and every other column is kept |
| UserRepo.ArgumentsConvertExactly | internal/user/repo.go:74-80 | for whitelisted distinct fields the arguments convert exactly when every value converts to its field's column type and the timestamp has no NUL; the id is compared as itself |
| UserRepo.UpdateAppliesFields | internal/user/repo.go:69-86 | an update with distinct known fields succeeds exactly when every value converts to its column's type; then the row with the id gets each field's converted value and the new `updated_at`, keeps every other column, and other rows are untouched |
| UserRepo.OneFieldUpdateReadsBack | internal/user/repo.go:57-86 | after a one-column update (not `id`) the user read back by id is the first row with that id, holding the converted value and the new `updated_at` |
| UserRepo.BioUpdateReadsBack | internal/user/repo.go:57-86 | updating the bio and reading the user back by id shows the new bio and the new `updated_at`, everything else as before |
| UserRepo.SaltClearedReadsBack | internal/user/repo.go:57-86 | setting the salt to NULL is accepted, and the user still reads back by id, with no salt bytes and the new `updated_at` |
| UserRepo.PasswordUpdateReadsBack | internal/user/repo.go:57-86 | a password sent as a JSON string, whatever its characters, is stored unhashed as its UTF-8 bytes, and the user still reads back with those bytes |
| UserRepo.NonNumericIdIsRefused | internal/user/repo.go:80-85 | setting `id` to "abc" or to `true` makes the whole update fail |
| UserRepo.UserRepo.Create | internal/user/repo.go:25-42 | both timestamps are `now`; the digest with a fresh 16-byte salt is stored with that salt; the returned user has the inserted id; an insert failure returns no user and changes nothing |
| UserRepo.UserRepo.GetUserById | internal/user/repo.go:57-67 | the scanned first row with that id (a NULL salt read as no bytes), whose id is the one asked for; an error otherwise |
| UserRepo.UserRepo.GetUserByEmail | internal/user/repo.go:44-55 | the scanned first row with that email (a NULL salt read as no bytes), whose email is the one asked for; an error otherwise |
| UserRepo.UserRepo.UpdateUser | internal/user/repo.go:69-86 | succeeds exactly when the database accepts the built statement and converts its arguments, and then the table is the updated one; a failure changes nothing |
| DbExplorer.GetTablesNames | internal/utils/db_explorer.go:27-42 | the set of listed table names (repeated names once); a query or scan failure is an error |
| DbExplorer.GetListOfCols | internal/utils/db_explorer.go:44-58 | the set of column names; a query failure is an error, and a `rows.Columns()` failure gives the empty set |
| DbExplorer.Snapshot | internal/utils/db_explorer.go:10-25 | a snapshot exists only when the table list was read; its keys are then exactly the table names, and no column query of theirs failed |
| DbExplorer.GetDbTablesCols | internal/utils/db_explorer.go:10-25 | the result is the all-or-nothing snapshot |
| DbExplorer.SnapshotIsComplete | internal/utils/db_explorer.go:10-25 | the snapshot exists exactly when the table list was read and every column query succeeded; its keys are then exactly the table names, each mapped to its column set |
| DbExplorer.SensitiveColumnsAreWhitelisted | internal/utils/db_explorer.go:44-58 | with `user_data`'s real columns, `id`, `password`, `salt` and `created_at` pass the allow-list |
| UserHandlers.LoginView | internal/user/auth_handlers.go:112-113 | the login body has the stored email, timestamps, username and token, and no password or bio |
| UserHandlers.ProfileView | internal/user/handlers.go:82-83 | the profile body has the stored email, timestamps, username, bio and the given token, and no password |
| UserHandlers.Rejected | internal/user/handlers.go:51-56 | the first key not in the `user_data` allow-list; none exactly when every key is allowed |
| UserHandlers.UserHandler.constructor | internal/user/handlers.go:13-17 | the handler holds the two repositories and the snapshot |
| UserHandlers.UserHandler.AuthMiddleware | internal/user/auth_handlers.go:12-22 | fails closed: without a session for the token it writes 401 "Forbidden" and `next` is not called; otherwise `next` gets the same request with exactly `SaveToCtx(session)` as its context, the session being the header's token and the user it resolves to, and nothing is written; the session table is not changed |
| UserHandlers.UserHandler.Logout | internal/user/auth_handlers.go:24-35 | 401 without a session and nothing deleted; a delete failure is 500; otherwise every row of the user is deleted and nothing is written |
| UserHandlers.UserHandler.Registration | internal/user/auth_handlers.go:37-65 | a read error is 500 and a malformed body 400; a create failure is a bare 500 with no session; otherwise the user row is inserted, then one session for the new id, and 201 with the user and token is written (echoing the submitted password, with a NULL bio whatever bio was sent); a session failure is a bare 500 |
| UserHandlers.UserHandler.SendUserInfo | internal/user/auth_handlers.go:101-122 | reads the user again by email (found whatever its salt) and its stored token; either failing is a bare 500; otherwise 200 with the login view |
| UserHandlers.UserHandler.Login | internal/user/auth_handlers.go:67-99 | an unreadable body or an unknown email is 400, a wrong password 401, a correct one the stored token with 200 (or 500 for a user with no session); 200 only for a password that verifies; no table changes |
| UserHandlers.UserHandler.CollectFields | internal/user/handlers.go:48-59 | the first key the allow-list refuses, if any; when none is refused, the keys and values of the body in order |
| UserHandlers.UserHandler.UpdateUser | internal/user/handlers.go:27-85 | 401 without a session before the body is read; any refused key, or no key, is 400 with no store call; otherwise update, then re-read by id, then token rotation; update failure (a refused conversion included) 400, re-read or rotation failure 500; success 200 with the re-read user and the new token |
| UserHandlers.UserHandler.CurrUser | internal/user/handlers.go:87-101 | 401 without a session; a lookup failure 500; otherwise (whatever the salt) the stored email, timestamps, username and bio with no token |
| ArticleRepo.GetTags | internal/article/repo.go:126-143 | one tag per row in row order; a query or scan failure is an error |
| ArticleRepo.ToJson | internal/article/repo.go:16-32 | the JSON keeps the slug and the tags; the author's bio is `null` exactly when it is not valid |
| ArticleRepo.JsonHidesIds | internal/article/repo.go:16-32 | `ID` and `UserID` never reach the JSON: two articles encode the same exactly when every other field agrees |
| ArticleRepo.BuildTagList | internal/article/repo.go:190-196 | the quoted tags joined by ", ": dropping two characters removes exactly the trailing separator |
| ArticleRepo.BuildLinkValues | internal/article/repo.go:205-213 | the tuples of the returned tag ids in row order, each followed by ","; a scan failure is an error |
| ArticleRepo.LinkScannedTags | internal/article/repo.go:205-226 | no matching tag id means no insert and success; otherwise one insert whose VALUES list is the tuples joined by "," with the trailing comma removed |
| ArticleRepo.LinkOutcome | internal/article/repo.go:186-228 | the intended outcome never crashes; no tags is success; with tags a failed lookup is failure; without an insert failure only a failed lookup or scan fails |
| ArticleRepo.LinkStatements | internal/article/repo.go:186-228 | no statement exactly when there are no tags; otherwise the IN query first, and the link insert second exactly when the lookup returned scanned rows |
| ArticleRepo.AddTags | internal/article/repo.go:186-228 | no tags means success and no statement; otherwise the IN query, then the link insert as above; failures are errors, never a crash |
| ArticleRepo.GenerateSlug | internal/article/repo.go:230-246 | a result exactly when the count was read; the slug starts with `slug(title)` and is exactly `slug(title)` for a count of 0 (the definition appends `--k` for k > 0; distinctness is `SlugsDifferByCount`) |
| ArticleRepo.SlugsDifferByCount | internal/article/repo.go:240-245 | different counts give different slugs |
| ArticleRepo.InsertQueryNamesColumns | internal/article/repo.go:146 | the INSERT names the columns slug, user_id, body, title, description, created_at, updated_at and binds `$1` to `$7` to them in order |
| ArticleRepo.InsertValues | internal/article/repo.go:146-156 | one argument per column the INSERT names, each the article field that belongs in that column: the owner is bound to `user_id` |
| ArticleRepo.CreateArticle | internal/article/repo.go:145-184 | the slug query comes first and its failure sends nothing more; the INSERT's arguments carry the slug, the given owner and `now` twice; the id is the one the insert returned; then tags, then the author; success exactly when every step succeeds (built on the corrected `addTags`, see Findings) |
| ArticleRepo.AddTagsAsWritten | internal/article/repo.go:198-204 | as written, a failing tag query with tags present crashes (nil rows closed by the deferred call) |
| ArticleRepo.TagLookupFailurePanics | internal/article/repo.go:198-204 | a concrete article with one tag whose tag query fails crashes as written |
| ArticleHandlers.ChooseListing | internal/article/handlers.go:29-44 | `author` before `tag`, each by its first value; all articles when neither is given |
| ArticleHandlers.AuthorTakesPrecedence | internal/article/handlers.go:34-39 | adding `tag` values does not change a listing chosen by author |
| ArticleHandlers.ListArticles | internal/article/handlers.go:46-65 | a repository error writes 500 and its message and then still a list body, with a `null` list and count 0; otherwise the JSON of the articles (an empty list, not `null`, for no rows) with 200; the count always equals the number of articles |
| ArticleHandlers.HandleGetArticles | internal/article/handlers.go:29-107 | the chosen listing's answer is written as above, with "error getting articles" or "error" as the message |
| ArticleHandlers.CreateArticle | internal/article/handlers.go:67-98 | 401 without a session and 400 for an unreadable body, both with no statement sent; the INSERT's owner argument is the session's user whatever the body says; a repository failure is 500, success 201 with the created article's JSON (built on the corrected `addTags`, see Findings) |
| Http.ResponseWriter.WriteHeader | internal/user/auth_handlers.go:56 | the first status written is kept |
| Http.ResponseWriter.Write | internal/user/auth_handlers.go:120 | a write without a status fixes 200 and appends the part |
| Http.Error | internal/user/auth_handlers.go:16 | the status, then the message |
| Text.NatToString | internal/article/repo.go:242 | decimal digits, one digit exactly for values below 10 |
| Text.NatToStringInjective | internal/article/repo.go:242 | different numbers have different decimal forms |

## Left out

- SQL text is not parsed. The model executes the structured statement its text renders. The `user_data` schema is not part of this model, so NOT NULL, UNIQUE and length constraints are not modelled.
- UserRepo.ExecUpdate: JSON numbers are modelled as integers. A fractional number such as 7.5, which the driver sends as "7.5" and an integer column refuses, cannot be expressed, and neither can the precision lost by `float64` above 2^53.
- UserHandlers.UserHandler.UpdateUser: a nested JSON object or array as a field value is not modelled. The driver refuses such a value, which gives 400.
- Sql.FromText: integer input with surrounding blanks, underscores or a non-decimal prefix is refused, and the integer's range is not checked.
- Sql.Coerce: a byte string bound to a column that is not bytea is refused. No statement of the model binds one.
- ArticleRepo.CreateArticle: it is built on the corrected `AddTags`. A failing tag lookup for an article with tags is an error here; the code as written panics there (see Findings).
- ArticleHandlers.CreateArticle: it is built on the corrected `AddTags`. A failing tag lookup for an article with tags gives 500 here; the code as written panics, and no response is sent.
- ArticleRepo.ToJson: a nil `Tags` slice (no `tagList` in the request) encodes as `null`. The model shows it as an empty list.
- The list queries `ArticlesByTag`, `ArticlesByAuthor` and `AllArticles` (internal/article/repo.go:45-124) are not modelled. Their joins belong to the database, so the list handlers take the repository's answer as a parameter.
- `getAuthor` is modelled only as the author (or error) the database answers.
- `GetId` is the field read `u.user.id`. It has no member of its own.
- Go's `uint` ids are modelled as `nat`. A negative or overflowing id from the driver is not modelled.
- `CreateToken`'s definition is not part of this model. Its results are assumed fresh and non-empty, as the session invariant requires.
- The salt differs from call to call only with high probability. That cannot be stated here, so the salt is a function of the random bytes given.
- Argon2id and `slug.Make` are uninterpreted. Only the digest length and determinism are used.
- HTTP body reading and JSON decoding are reduced to their outcome (`BodyRead`). JSON encoding is reduced to the value encoded. Marshal failures, which cannot occur for these types, are left out.
- `internal/app/realword.go` wiring, `cmd/realword/main.go` and logging are not part of this model.
- Concurrency between requests is left out.
- Go map iteration order is a parameter. The update body is a sequence of distinct keys in the order the loop visits them, and the snapshot loop picks tables in any order.
- UserHandlers.UserHandler.Login: the response is stated only for the first matching email row. No unique constraint on `email` is assumed.

## Findings

| source | as written | input that shows it | evidently intended | confidence | as-written member | corrected member |
|---|---|---|---|---|---|---|
| internal/article/repo.go:199-204 | `defer rows.Close()` is registered before `err` is checked, so when the tag query fails the deferred call closes a nil `*sql.Rows` and panics | an article with tags ["it's"], whose quote breaks the IN query so `Query` returns an error | return the query error without closing nil rows (check `err` first) | high, not executed | ArticleRepo.AddTagsAsWritten (shown by ArticleRepo.TagLookupFailurePanics) | ArticleRepo.AddTags |
