# SQLite helper for NativeScript — a Dafny model

The repository is a thin CRUD facade over the NativeScript SQLite driver, in three
generations: `sql_helper.js` (oldest: a connection opened at module load, no error
handling), `sqlite_helper.js` and `sqlite_helper.ts` (a lazily initialised, memoized
connection bootstrapped from a bundled template database, with every error the engine
or the bootstrap throws swallowed).

This project models, in Dafny:

- **the statement builders** inside each `SQL__*` function — pure string functions
  turning a table name, a field list, ordered `{field, value}` pairs, an optional `id`
  and an optional raw condition clause into SQL text plus bound parameters
  (`statements.dfy`, and the oldest forms in `legacy.dfy`);
- **`initializeDatabase`**, the "no connection → connection" bootstrap over a file
  system given as a map from paths to bytes (`bootstrap.dfy`);
- **the facade guard**: every `SQL__*` call runs the bootstrap, runs nothing when
  there is no connection, hands its statement to an abstract engine that records every
  call and may throw, and swallows a thrown error into `undefined` (or `[]`)
  (`facade.dfy`, with the engine in `driver.dfy`); the oldest helper lets the error
  reject the call instead (`legacy.dfy`).

JavaScript's own rules that the builders depend on are modelled explicitly in
`js_values.dfy`: truthiness (`undefined`, `null`, `""`, `0` are falsy), default
parameters (applied only for `undefined`), and how a value prints inside a template
literal or a `+` concatenation (`undefined`, `null`, the string, the decimal numeral).
`strings.dfy` holds `Array.prototype.join`, its partner `split`, and character counting.

Identifiers and clauses are opaque strings; no SQL is parsed or interpreted. Bound
values and result rows are type parameters.

Where the two later generations differ, the model takes a `Variant`
(`TypeScript` for `sqlite_helper.ts`, `JavaScript` for `sqlite_helper.js`):
update and delete without a truthy `id` print the clause with a `|| ""` fallback in
the TypeScript file and as is in the JavaScript file (so a missing clause becomes the
text `undefined`), and `SQL__query` resolves to `data || []` (and `[]` on any
failure) in the TypeScript file but to the raw result or `undefined` in the
JavaScript file.

Two behaviours of the code are worth stating on their own. A copy from the assets
folder that throws leaves the `try` block at the `await fileDb.copy` (sqlite_helper.ts
line 95), so the open is skipped and the call resolves to `undefined`. And
`SQL__truncate` issues `VACUUM` only when `DELETE FROM` did not throw, since both sit
in one `try` block.

## Model

| member | source | states |
|---|---|---|
| `Strings.SplitJoin` | sqlite_helper.ts:219-220 | a list joined with ", " splits back into the same parts when no part contains a comma |
| `JsValues.RenderOrEmpty` | sqlite_helper.ts:266 | the clause with its empty-string fallback is empty exactly when the clause is falsy, and is the printed clause otherwise |
| `JsValues.NatToDecimal` | sqlite_helper.ts:265 | the printed id is a non-empty string of digits with no leading zero |
| `JsValues.IntDecimalRoundTrip` | sqlite_helper.ts:265 | reading the printed integer back gives the integer |
| `JsValues.IntToDecimalInjective` | sqlite_helper.ts:298 | different ids print as different `WHERE id=` texts |
| `JsValues.RenderNumberHasNoMark` | sqlite_helper.ts:265 | a printed id contains no `?`, so it never adds a placeholder |
| `Statements.SelectSql` | sqlite_helper.ts:156-158 | the select starts with `SELECT <fields or *> FROM <table>`; it is longer exactly when the clause is truthy, and then the rest is one space and the clause |
| `Statements.InsertStatement` | sqlite_helper.ts:214-223 | no statement for empty data; otherwise one bound value per pair, equal to the pair values in order |
| `Statements.InsertPlaceholdersMatch` | sqlite_helper.ts:219-223 | the insert text has one `?` per bound value plus only those the caller put in the table or field names |
| `Statements.InsertListsReadBack` | sqlite_helper.ts:219-223 | the insert text is `INSERT INTO t (cols) VALUES (marks)` where cols splits back to the fields in pair order and marks to one `?` per pair |
| `Statements.UpdateStatement` | sqlite_helper.ts:256-266 | no statement for empty data; otherwise the pair values are bound in order and the text is `UPDATE t SET <assignments>` followed by ` WHERE id=<id>` for a truthy id, or by a space and the clause text |
| `Statements.UpdatePlaceholdersMatch` | sqlite_helper.ts:261-266 | the update text has one `?` per bound value plus only those in the table, field names or (without a truthy id) the clause |
| `Statements.UpdateAssignmentsReadBack` | sqlite_helper.ts:261 | the SET list splits back into one `field = ?` per pair, in pair order |
| `Statements.IdTakesPriority` | sqlite_helper.ts:264-266 | with a truthy id the clause is ignored, both generations agree, and the text ends ` WHERE id=` followed by a numeral that reads back to the id |
| `Statements.FalsyIdFallsThrough` | sqlite_helper.ts:297-299 | with `id` undefined, null or 0 the text ends with a space and the clause text, whatever the falsy id was |
| `Statements.GenerationsAgree` | sqlite_helper.js:245-247 | the TypeScript and JavaScript update/delete texts coincide exactly when a truthy id is given or the clause is a string |
| `Statements.MissingClauseDelete` | sqlite_helper.js:274-276 | with neither id nor clause, delete prints `DELETE FROM t ` in the TypeScript file and `DELETE FROM t undefined` in the JavaScript file |
| `Statements.DeleteSql` | sqlite_helper.ts:297-299 | delete is `DELETE FROM t WHERE id=<id>` for a truthy id, and otherwise `DELETE FROM t`, a space and the clause text of the generation |
| `Statements.DropTableSql` | sqlite_helper.ts:350-352 | the drop text starts with `DROP TABLE `, ends with the table, and carries `IF EXISTS ` exactly when `ifExist` is true; without it the text is exactly `DROP TABLE ` and the table |
| `Bootstrap.Initialize` | sqlite_helper.ts:66-112 | a memoized connection is returned with nothing touched; null comes exactly from an empty or placeholder name without a connection, and then nothing is touched; a healthy attempt (valid name, target present or copy working, open not failing) connects with the opened handle; the files change only by copying the template to a missing target; a connection results exactly when the outcome is the opened handle |
| `Bootstrap.FailureLeavesNoConnection` | sqlite_helper.ts:76-111 | the call resolves to undefined exactly when the open throws or a needed copy throws, and then no connection is kept |
| `Bootstrap.FailedCopySkipsOpen` | sqlite_helper.ts:95-102 | a copy that throws skips the open and leaves files and connection unchanged |
| `Bootstrap.FirstRunCopiesTemplate` | sqlite_helper.ts:77-100 | on first run the target becomes a byte-identical copy of the template and no other file changes |
| `Bootstrap.ConnectedIsFinal` | sqlite_helper.ts:67-69 | after a successful call the next call returns the same handle and changes nothing |
| `Bootstrap.RetryAfterFailedOpen` | sqlite_helper.ts:76-106 | after a failed open the copied file stays, and the next call opens it without copying again |
| `Bootstrap.InitializeAllKeeps` | sqlite_helper.js:44-93 | over any number of calls no existing file is overwritten, only the target can appear, and a connection once made is kept |
| `Bootstrap.MisconfiguredNeverConnects` | sqlite_helper.js:50-53 | with the placeholder name no number of calls changes anything |
| `Facade.Select` | sqlite_helper.ts:148-173 | bootstrap first; no connection runs nothing and gives undefined; otherwise exactly the select is issued, and a thrown error gives undefined |
| `Facade.SelectRaw` | sqlite_helper.js:166-188 | a falsy query or no connection runs nothing and gives undefined; otherwise the query is issued unchanged and its rows returned |
| `Facade.Insert` | sqlite_helper.ts:210-237 | always resolves to undefined; no statement without a connection or with empty data; otherwise exactly the insert with its bound values |
| `Facade.Update` | sqlite_helper.ts:247-280 | always resolves to undefined; no statement without a connection or with empty data; otherwise exactly the update with its bound values |
| `Facade.Delete` | sqlite_helper.ts:289-313 | always resolves to undefined; no statement without a connection; otherwise exactly the delete |
| `Facade.Truncate` | sqlite_helper.ts:320-337 | without a connection nothing runs; otherwise `DELETE FROM t` runs, and `VACUUM` follows exactly when it did not throw |
| `Facade.DropTable` | sqlite_helper.ts:346-366 | always resolves to undefined; without a connection nothing runs; otherwise exactly the drop statement |
| `Facade.Query` | sqlite_helper.ts:374-393 | the text is executed unchanged; the TypeScript file always resolves to an array (`[]` on failure, without a connection, or for a falsy result), the JavaScript file to the raw result or undefined |
| `Facade.PerformGrows` | sqlite_helper.ts:58-112 | every call keeps the recorded calls, keeps a made connection, and never overwrites a file |
| `Facade.PerformAllGrows` | sqlite_helper.ts:58-69 | the same holds over any sequence of calls made under one configuration |
| `Facade.ConnectedStoreIsFinal` | sqlite_helper.ts:67-69 | once connected, no later call changes the connection or any file |
| `Facade.MisconfiguredRunsNothing` | sqlite_helper.ts:71-74 | with the placeholder name no call of any kind reaches the engine or changes anything |
| `Legacy.SelectSql` | sql_helper.js:11-13 | the oldest select is the head, one space, and the printed clause — `undefined` when it is missing |
| `Legacy.SelectMatchesHelperIffClause` | sql_helper.js:12 | the oldest select equals the later helpers' select exactly when the clause is truthy |
| `Legacy.DeleteMatchesJavaScriptHelper` | sql_helper.js:71-73 | the oldest delete is the sqlite_helper.js delete without a truthy id |
| `Legacy.BuildInsert` | sql_helper.js:18-39 | the push-then-join loop builds the same statement as the map/join builder |
| `Legacy.Select` | sql_helper.js:11-15 | exactly the select is issued; it rejects exactly when the engine throws, otherwise resolves to the rows |
| `Legacy.Insert` | sql_helper.js:17-45 | empty data issues nothing and resolves to undefined; otherwise exactly one execute of the insert text of the map/join builder with the pair values bound in order, and the call rejects exactly when that execute throws |
| `Legacy.Delete` | sql_helper.js:71-73 | exactly the delete is issued; it rejects exactly when the engine throws |
| `Legacy.Truncate` | sql_helper.js:75-78 | `DELETE FROM t` then `VACUUM`; a throw from the first rejects the call before `VACUUM`, a throw from either rejects it, and otherwise it resolves to undefined |
| `Legacy.Query` | sql_helper.js:80-82 | the text is executed unchanged and the call resolves to nothing unless it throws |

## Left out

- Logging and the `debug` flag: they only print and never change a result.
- async/await scheduling: calls are modelled one after another; the race of two
  bootstraps started before either finishes is not modelled.
- The NativeScript file APIs (`knownFolders`, `File.exists`, `File.fromPath`, `copy`):
  the file system is a map from paths to bytes; `path.join` is modelled as joining with
  `/` without normalisation; `getFolder` creating a missing folder is not modelled.
- Bootstrap.Initialize: a copy is modelled as throwing when the template is missing or
  the platform reports a fault; what the platform really does with a missing template
  (for instance `File.fromPath` creating an empty file) is platform behaviour outside
  this model.
- Bootstrap.Initialize: `openOrCreate` creating a missing file is not modelled, since
  the open is only reached when the target file exists.
- The SQLite engine: an engine is any function from the calls made so far and the new
  call to a result or a thrown error; SQL is never parsed or interpreted.
- Facade.Delete: an `execute` call without a parameter array is recorded with an empty
  one; the difference between no array and `[]` is not kept.
- Facade.SelectRaw: only string, `null` and `undefined` queries are modelled; a query of
  another type is not.
- JsValues.NatToDecimal: an `id` is an unbounded integer printed with its exact
  digits. JavaScript Numbers are doubles: integers beyond `Number.MAX_SAFE_INTEGER`
  (2^53 - 1) print as their shortest round-trip digits padded with zeros (2^64 prints
  as `18446744073709552000`), magnitudes of 10^21 and more print in exponent notation,
  and non-integral numbers (including NaN) are not modelled; the numeral stated here
  agrees with JavaScript only for safe integers.
- Statements.UpdateStatement, Statements.DeleteSql: the untyped `id` of sqlite_helper.js (line 229) is modelled as a
  number, `null` or `undefined` only; a string id (for example `"0"`, which is truthy
  there) is not modelled.
- Facade.Insert, Facade.Update: `data` is modelled as an array of `{field, value}`
  pairs only. `data.length` and `data.map` run outside the `try` block, so when a
  connection exists a non-array `data` such as `null` rejects the call with a
  TypeError; that rejection is not modelled (without a connection the call resolves to
  `undefined`, as modelled).
- Field names are strings, as declared by `DataField`; a missing field name (which
  `join` would print as empty but a template literal as `undefined`) is not modelled.
- `SQL__update` of sql_helper.js (lines 47-69): the statement is bound inside the `if`
  and `else` blocks and used after them, so every call with data throws a ReferenceError;
  it is not modelled as intended behaviour.
- The connection of sql_helper.js is opened once when the module loads; the model
  takes it as given and records its calls.
