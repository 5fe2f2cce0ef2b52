# User CRUD service: repository, handlers and configuration

A Dafny model of the three pieces of logic in a small Go HTTP service that manages
one resource, users (id, name, lastname, age, email), stored in a PostgreSQL table:

- the **user repository** (`src/db/repository/user.go`): a class `UserRepository`
  whose fields are the users table (`map<int64, UserEntity>`) and the identifier
  sequence that hands out new ids. Its five operations are methods with `modifies`
  clauses whose postconditions give the new table and the result. The COALESCE update
  is the function `Merge`, with lemmas for its properties;
- the **HTTP handlers** (`src/api/rest/user.go`): the class `UserServiceApi`, one
  method per handler. A handler parses the path id the way `strconv.ParseInt(s, 10, 64)`
  does (module `StrConv`), takes the bound JSON body as an `Option`, calls the
  repository at most once and returns one `(status, body)` response;
- **configuration** (`src/config/config.go`): pure functions over an environment
  `map<string, string>`, the imperative `InitEnv` that fills a `Conf` object field by
  field, the connection string `GetDNS` and the connector address `host:port`.

How the database behaves on a given call is a parameter, `DbCall`. It says whether
the SELECT, the write statement or the affected-row count fails, and with which
message. Nothing else about the database is nondeterministic. A Go panic is an error
value: `NilDereference` in the repository, `Panicked` for a handler, `ConfigError`
for configuration.

Behaviour worth knowing, modelled as the code has it:

- `UpdateUser` builds its response by dereferencing all four optional fields. With a
  partial body, the row is updated first and then the handler panics. `Panicked` is the
  model's response for that; gin's recovery middleware would answer 500.
- `PartialUpdateUser` answers with the row as the existence check read it, before the
  update. After `PATCH {"age": 31}` the response still shows the old age. `Rest.Session`
  proves this.
- The read handler turns every repository error into 400 with the error's text. A
  missing row is `sql: no rows in result set` with 400, not 404.
- When the row count cannot be read after a successful DELETE, the row is gone but the
  handler answers 500.

In short: a missing user on read is answered 400, not 404, and a PATCH answers with
the row as it was before the update.

## Model

| member | source | states |
|---|---|---|
| `StrConv.ParseInt64` | src/api/rest/user.go:45-50 | an id is accepted exactly when it is an optional sign followed by at least one ASCII digit and its signed value lies in the int64 range, and the result is that value |
| `StrConv.NonCanonicalSpellings` | src/api/rest/user.go:45 | a '+' sign and leading zeros do not change the id ("+7", "007" and "7" agree), and "-0" is 0 |
| `StrConv.RejectsOutOfRange` | src/api/rest/user.go:45-46 | a magnitude above the largest int64 is an invalid id with or without '+', and with '-' unless it is exactly the smallest int64 |
| `StrConv.Int64Boundary` | src/api/rest/user.go:45-46 | "9223372036854775808" is an invalid id and "-9223372036854775808" is the smallest int64 |
| `StrConv.ParseFormat` | src/api/rest/user.go:45 | every int64 written in base 10 parses back to itself, and that spelling is canonical |
| `StrConv.FormatParse` | src/api/rest/user.go:45 | a canonical spelling that parses is exactly the base-10 formatting of its value, so parsing and formatting are inverse on canonical ids |
| `StrConv.RejectsNonDigit` | src/api/rest/user.go:45-46 | any character other than a digit, anywhere except a leading '+' or '-', makes the id invalid |
| `Repository.ErrorText` | src/api/rest/user.go:55 | the text a read failure carries: a storage error's own message unchanged, and a non-empty fixed text for the errors the code raises |
| `Repository.ErrorTextDistinct` | src/db/repository/user.go:15 | ErrUserNotFound, ErrNoRows and the nil-dereference panic have pairwise different texts |
| `Repository.Coalesce` | src/db/repository/user.go:104 | COALESCE(?, column): the supplied value when present, else the stored one |
| `Repository.Merge` | src/db/repository/user.go:102-109 | the COALESCE update never changes a row's id |
| `Repository.MergeFields` | src/db/repository/user.go:138-145 | each supplied field replaces the stored value, each absent field keeps it, the id is kept |
| `Repository.MergeIdempotent` | src/db/repository/user.go:102-109 | applying the same update schema twice stores the same row as applying it once |
| `Repository.MergeAgrees` | src/db/repository/user.go:138-145 | the merged row agrees with every supplied field; the update is a no-op exactly when the row already agrees with it |
| `Repository.MergeComplete` | src/db/repository/user.go:115-121 | with all four fields supplied, the stored row is the id plus the four supplied values, which is what UpdateUser's response holds |
| `Repository.UserRepository.constructor` | src/db/repository/user.go:17-19 | the repository starts over the given table and sequence, every row stored under its own id and below the sequence |
| `Repository.UserRepository.Select` | src/db/repository/user.go:24-28 | the select by id (also the existence checks at lines 93 and 129) succeeds exactly when no fault occurs and the id is present; it yields that row, else ErrNoRows or the storage error |
| `Repository.UserRepository.ReadUser` | src/db/repository/user.go:21-35 | an existing id yields the row whose id equals it; a missing row yields ErrNoRows (not ErrUserNotFound); a storage error passes through |
| `Repository.UserRepository.DeleteUser` | src/db/repository/user.go:38-61 | removes exactly that id; zero rows affected is ErrUserNotFound with the table unchanged; a failed DELETE changes nothing; a failed row count still deletes |
| `Repository.UserRepository.CreateUser` | src/db/repository/user.go:63-88 | on success exactly one row is added, under the next sequence id, which was not present before, with the four input fields, and the response is that row; on failure nothing changes |
| `Repository.UserRepository.CoalesceUpdate` | src/db/repository/user.go:101-112 | either the write fails and the table is unchanged, or only the row at id changes, to its COALESCE merge |
| `Repository.UserRepository.UpdateUser` | src/db/repository/user.go:90-124 | absent id: ErrUserNotFound, nothing changes; otherwise the row is merged, and the response is the new row when all four fields are present and a nil-dereference panic otherwise |
| `Repository.UserRepository.PartialUpdateUser` | src/db/repository/user.go:126-160 | absent id: ErrUserNotFound, nothing changes; otherwise the row is merged and the response is the row as read before the update |
| `Repository.DeleteTwice` | src/db/repository/user.go:56-58 | deleting the same existing id twice succeeds once and then reports ErrUserNotFound |
| `Repository.CreateThenRead` | src/db/repository/user.go:79-87 | reading back the id a successful create returned gives the created row; after a failed create nothing is read |
| `Rest.NotFoundOrInternal` | src/api/rest/user.go:92-100 | ErrUserNotFound maps to 404 "User not found" and every other error to 500 "Internal Server Error" |
| `Rest.ReadFailure` | src/api/rest/user.go:52-57 | every read error, including not-found, maps to 400 with the error's own text |
| `Rest.UserServiceApi.constructor` | src/api/rest/user.go:26-28 | the handlers use the repository they are given |
| `Rest.UserServiceApi.ReadUser` | src/api/rest/user.go:40-63 | a bad id is 400 "Invalid user ID" with no repository call; an existing id is 200 with the row of that id; a missing row or a storage error is 400 with the error text |
| `Rest.UserServiceApi.DeleteUser` | src/api/rest/user.go:76-105 | a bad id is 400 with the table unchanged; otherwise 200 "User deleted successfully" when the row existed, 404 when it did not, 500 on a storage error |
| `Rest.UserServiceApi.CreateUser` | src/api/rest/user.go:119-139 | an unbindable body is 400 "Invalid request payload" with no repository call; a storage error is 500 with nothing changed; success is 201 with the new row under a fresh id, and the sequence moves on by one |
| `Rest.UserServiceApi.UpdateUser` | src/api/rest/user.go:154-187 | the id is checked before the body; a bad id or body is 400 with the table unchanged; a missing id is 404; a storage error is 500; success is 200 with the merged row, or a panic after the write when the body is partial |
| `Rest.UserServiceApi.PartialUpdateUser` | src/api/rest/user.go:202-235 | same checks and order as UpdateUser; on success the row is merged and the answer is 200 with the row as it was before the update |
| `Rest.Session` | src/api/rest/user.go:222-234 | create, read, patch age, delete, read: 201 then 200 with the same user, 200 with the unpatched row while age 31 is stored, 200 deleted, then 400 with ErrNoRows' text |
| `Config.Getenv` | src/config/config.go:43 | os.Getenv: the variable's value when set, and "" exactly when it is unset or set to the empty string |
| `Config.GetEnvBool` | src/config/config.go:42-55 | true exactly for TRUE/true/True/T/t, false exactly for FALSE/false/False/F/f, and an error for every other value, unset and empty included |
| `Config.GetEnvBoolFormat` | src/config/config.go:46-49 | a variable holding a formatted boolean reads back as that boolean |
| `Config.BoolSpellings` | src/config/config.go:45-51 | the accepted spellings are ten, and none means both true and false |
| `Config.GetEnvOrDefault` | src/config/config.go:57-63 | the default when the variable is unset or empty, the value unchanged otherwise; never empty when the default is not |
| `Config.GetEnvOrPanic` | src/config/config.go:65-71 | fails exactly when the variable is unset or has length 0, otherwise returns the value unchanged |
| `Config.LoadDbArgs` | src/config/config.go:30-40 | succeeds exactly when DB_INSECURE is a valid spelling and DB_USER, DB_NAME, DB_HOST are set and non-empty; the password defaults to 123456789 and the port to 5432 |
| `Config.LoadDbArgsFirstError` | src/config/config.go:32-36 | the checks run in order, and the first failing one names the error: DB_INSECURE, then DB_USER, then DB_NAME, then DB_HOST |
| `Config.Conf.constructor` | src/config/config.go:31 | a new Conf holds the zero value in every field |
| `Config.InitEnv` | src/config/config.go:30-40 | fails with the same error as LoadDbArgs, or yields a freshly allocated Conf whose database settings are LoadDbArgs's and whose app port is empty |
| `Config.GetDNS` | src/config/config.go:74-87 | the connection string starts with "host=" and always ends in " sslmode=disable" |
| `Config.GetDNSJoin` | src/config/config.go:74-87 | the connection string is host=, user=, password=, dbname=, port=, sslmode=disable, in that order, joined by single spaces |
| `Config.GetDNSWords` | src/config/config.go:83 | when no field holds a space, splitting the string at spaces gives back those six words, the last one sslmode=disable |
| `Config.ConnectorAddr` | src/config/config.go:92 | the connector address is host, a colon, and port |
| `Config.ConnectorAddrParts` | src/config/config.go:92 | when host and port hold no colon, the address splits back into host and port |

## Left out

- The SQL itself: bun's query builders, `Scan` and `Exec`. The table is a map, and each statement acts on it atomically.
- Database constraint failures, such as a duplicate email, and connection loss. These are only the fault messages a `DbCall` may carry; the model does not derive them from the table.
- The generated id: the model uses a PostgreSQL-style sequence that advances only on a successful insert. A real sequence may also advance on a failed insert.
- The check-then-update race in UpdateUser and PartialUpdateUser. It exists only under concurrent requests; the model runs one call at a time.
- The column list and table alias of the read query ("u.*" under the alias u): the model reads the whole row, which is what that query selects.
- JSON binding (`ShouldBindJSON`) and JSON serialisation: a body is `Some(schema)` or `None`, and a response is a status with a body value. The model has no wire format.
- Integer width: a user's age is Go's `int`, taken as 64 bits, the width of the platforms the service targets.
- The package-level `conf` variable that InitEnv also assigns: the model returns the new `Conf` instead, and nothing in the modelled code reads that variable.
- Logging (`log.Println`): it has no effect on results.
- Process abort: `log.Panic`, `log.Panicf` and runtime panics are error values, not termination.
- `Rest.UserServiceApi.UpdateUser`: the `Panicked` outcome stops at the handler; the 500 that gin's recovery middleware would write is not modelled.
- `src/db/connection.go` (opening the pool, the 5-second ping): I/O and wall-clock time.
- `src/api/rest/middleware/middleware.go` (the 50-second timeout): it is a race between two writers.
- `src/api/rest/routes/routes.go` and `src/main.go` (routing, metrics, swagger): framework set-up. Only GET and DELETE are routed there; the model gives each handler on its own.
- `GetConnector`'s call to `pgdriver.NewConnector`: a foreign call. Only the address string it is given is modelled.
- `strconv.ParseInt`'s error values: syntax and range errors are both `None`, since every handler treats them alike.
