# Bedrock `Core` plugin — a Dafny model

This project models the request-handling logic of the `Core` plugin of a
Bedrock server: the plugin's identity and its command factory, and the three
commands `HelloWorld`, `CreateMessage` and `GetMessages`. Bedrock runs each
command in two phases. `peek` is a read-only evaluation that may finish the
command. `process` runs inside a write transaction and runs only when `peek`
did not finish it.

Layout (one module per file):

- `wrappers.dfy` (`Wrappers`): `Option`, `Result` (a value or a raised error) and `Outcome` (pass or a raised error).
- `text.dfy` (`Text`): decimal rendering of unsigned integers, as `SToStr` does, with its parser and round trip. ASCII case-insensitive equality, as `SIEquals` does. The UTF-8 byte length of a string, which is what `std::string::size()` counts.
- `bedrock.dfy` (`Bedrock`): attribute tables (`STable`). An `STable` is a map whose comparator ignores ASCII letter case, so it is keyed here by the lower-cased name; each entry keeps the spelling of its first write and its value, and a missing name reads as `""`. Also the `Command` class, with a fixed request and a response the phases update in place, and the raised `Error`. The library helpers are passed in as values (`Libstuff`, `SizeLimits`).
- `store.dfy` (`Store`): the `messages` table as a class `Database`, whose `rows` field is a sequence of `(messageID, name, message, createdAt)` kept in rowid order. It has three operations: the insert, the read of `last_insert_rowid()`, and the newest-first listing. Each of them may fail.
- `core.dfy` (`Core`): `getName`, `getVersion`, `getInfo`, `shouldLockCommitPageOnTableConflict` and `getCommand`.
- `hello_world.dfy`, `get_messages.dfy`, `create_message.dfy`: the three commands.
- `dispatch.dfy` (`Dispatch`): a small driver that runs `peek` and then `process` if needed. Also the properties that span several commands: the create-then-list round trip and the "three inserts, limit 2" scenario.

Modelling choices:

- Store calls may fail at any time. The model expresses this as a nondeterministic `ok`. On success, `db.write` of the INSERT appends `Row(NextId(rows), name, message, createdAt)`, where `NextId` is one more than the largest id in use. This is SQLite's rule for an `INTEGER PRIMARY KEY` below the 64-bit ceiling. A successful insert also records the new id as `last_insert_rowid()`.
- `ORDER BY messageID DESC LIMIT n` is `Store.Newest`: the last `min(n, |rows|)` rows of the id-ordered table, last first. `Store.NewestIsLargestDescending` proves that this is exactly "the `n` rows with the largest ids, in strictly descending order".
- Several library values are inputs to the model:
  - `calc64`, the JSON composers and `MAX_SIZE_SMALL`/`MAX_SIZE_QUERY`;
  - the current time, `now`, rendered in decimal.
- `verifyAttributeSize` raises an error naming the attribute. Its exact status text belongs to the library and is not part of this model.
- Each phase reports a raised error (`STHROW`) as `Fail`/`Failure` carrying the status line, for example `"502 Failed to insert message"`. Every such path leaves the response exactly as it was.
- `HelloWorld.cpp` defines `peekCommand`/`processCommand` with a `BedrockCommand::RESULT` return type. These do not match the declarations in `server/core/commands/HelloWorld.h`. The model follows the bodies in the `.cpp` file. The comment on `peekCommand` says that `COMPLETE` there means "go on and process", so the driver always runs `processCommand` after it.
- Two behaviours of the code worth noting:
  - `getCommand` routes only `HelloWorld`. `CreateMessage` and `GetMessages` are answered "not mine" (`Core.GetCommandRoutesOnlyHelloWorld`), so the driver reaches those two commands only when it is given their kind directly.
  - A failed read-back of the new id raises after the insert has succeeded, and the model keeps that row and the recorded id. Removing them again is the job of the host's transaction rollback.

## Model

| member | source | states |
|---|---|---|
| `Core.GetName` | server/core/Core.cpp:10-14 | the plugin's name is always "Core" |
| `Core.GetVersion` | server/core/Core.cpp:39-42 | the plugin's version is always "1.0.0" |
| `Core.GetInfo` | server/core/Core.cpp:44-49 | the info table has exactly the attributes `name` and `version`, spelled so, bound to the plugin's name and version |
| `Core.ShouldLockCommitPageOnTableConflict` | server/core/Core.cpp:51-55 | false for every table name |
| `Core.GetCommand` | server/core/Core.cpp:29-37 | total; yields the HelloWorld command exactly when the method line equals "HelloWorld" letter by letter after ASCII lower-casing, and "not mine" otherwise |
| `Core.GetCommandRoutesOnlyHelloWorld` | server/core/Core.cpp:29-37 | "CreateMessage" and "GetMessages" are not routed; "HelloWorld", "helloworld" and "HELLOWORLD" are |
| `Bedrock.Get` | server/core/commands/HelloWorld.cpp:24 | reading an attribute yields the value stored under its name in any letter case, and "" when there is none |
| `Bedrock.GetIgnoresCase` | server/core/commands/HelloWorld.cpp:24 | two names that differ only in letter case read the same value |
| `Bedrock.Set` | server/core/Core.cpp:45-47 | writing an attribute adds it if absent, after which it reads back the written value; every other attribute keeps its entry |
| `Bedrock.SetKeepsFirstSpelling` | server/core/Core.cpp:45-47 | a write under another letter case replaces the value and keeps the name as first written |
| `Bedrock.SetHeld` | server/core/commands/GetMessages.cpp:53-55 | writing the value an attribute already holds leaves the table as it was |
| `HelloWorld.GetName` | server/core/commands/HelloWorld.cpp:44-46 | the command's name is "HelloWorld" (defined at line 5) |
| `HelloWorld.GetDescription` | server/core/commands/HelloWorld.cpp:48-50 | the description is the fixed sentence defined at line 6 |
| `HelloWorld.PeekCommand` | server/core/commands/HelloWorld.cpp:16-20 | always COMPLETE; with no reads clause it cannot look at the store or the response |
| `HelloWorld.GreetedName` | server/core/commands/HelloWorld.cpp:23-27 | the request's `name` when non-empty, "World" when empty or missing; never empty |
| `HelloWorld.GreetsNameInAnyCase` | server/core/commands/HelloWorld.cpp:24-27 | a request that spells the attribute `Name` or `NAME` is greeted by that value, as the table ignores letter case |
| `HelloWorld.Greeting` | server/core/commands/HelloWorld.cpp:31 | the text is "Hello, " then the name then "!", so the name can be read back from it |
| `HelloWorld.Response` | server/core/commands/HelloWorld.cpp:29-37 | exactly the four attributes `message`, `from`, `timestamp`, `plugin_version`, each spelled so: the greeting, "Bedrock Core Plugin", the time, and the plugin's version |
| `HelloWorld.ProcessCommand` | server/core/commands/HelloWorld.cpp:22-42 | replaces the whole response with that fresh table (no earlier field survives) and returns COMPLETE |
| `GetMessages.EffectiveLimit` | server/core/commands/GetMessages.cpp:22-25 | 20 for an empty `limit`; otherwise the value clamped into [1, 100] (below 1 gives 1, above 100 gives 100, in range is kept); always in [1, 100] |
| `GetMessages.ItemsOfOne` | server/core/commands/GetMessages.cpp:41-51 | a row with fewer than 4 columns yields no record; any other row yields exactly one |
| `GetMessages.ItemsOfConcat` | server/core/commands/GetMessages.cpp:41-51 | the records of a result are the records of its parts, in row order |
| `GetMessages.ItemsBounded` | server/core/commands/GetMessages.cpp:41-51 | never more records than result rows |
| `GetMessages.Item` | server/core/commands/GetMessages.cpp:45-49 | the record has exactly the attributes `messageID`, `name`, `message`, `createdAt`, spelled so (the field names of its JSON object), holding columns 0 to 3 of the row |
| `GetMessages.ItemsOfFullRows` | server/core/commands/GetMessages.cpp:41-51 | when no row is short, there is one record per row and record i is the record of row i |
| `GetMessages.WithListing` | server/core/commands/GetMessages.cpp:53-55 | the response gains exactly the attributes `resultCount`, `messages` and `format` |
| `GetMessages.WithListingFields` | server/core/commands/GetMessages.cpp:53-55 | `resultCount` is the decimal count of the composed records, `messages` their composed array, `format` is "json" |
| `GetMessages.WithListingSpelling` | server/core/commands/GetMessages.cpp:53-55 | each of the three written attributes keeps the spelling it already had in the response, and a new one is spelled as written |
| `GetMessages.WithListingKeeps` | server/core/commands/GetMessages.cpp:53-55 | every other attribute of the response keeps its entry |
| `GetMessages.ListingIsNewestFirst` | server/core/commands/GetMessages.cpp:27-51 | the listing has min(limit, table size) records, the i-th carrying the id (in decimal), name, message and creation time of the i-th newest row; ids strictly descend |
| `GetMessages.ListingIdempotent` | server/core/commands/GetMessages.cpp:12-19 | writing the listing a second time over the same table changes nothing, so peek followed by process answers as peek alone |
| `GetMessages.CollectRows` | server/core/commands/GetMessages.cpp:40-51 | the loop yields one composed object per row of at least 4 columns, in row order |
| `GetMessages.BuildResponse` | server/core/commands/GetMessages.cpp:21-56 | only the response changes, not the store; on a successful read the listing of the newest rows under the effective limit, each composed, is written over it; a failed read raises "502 Failed to fetch messages" with the response untouched |
| `GetMessages.Peek` | server/core/commands/GetMessages.cpp:12-15 | builds the listing and finishes the command (true), or raises the fetch error |
| `GetMessages.Process` | server/core/commands/GetMessages.cpp:17-19 | writes the same response as peek does |
| `Store.NewestIsLargestDescending` | server/core/commands/GetMessages.cpp:27-33 | on an id-ordered table, the rows fetched are min(n, table size) rows of the table, in strictly descending id order, and each left-out row has a smaller id than each fetched row |
| `Store.NextId` | server/core/commands/CreateMessage.cpp:25-30 | the generated id is positive and larger than every id in use |
| `Store.AppendNextKeepsOrder` | server/core/commands/CreateMessage.cpp:25-30 | appending the new row keeps ids ordered and positive, and the next id grows, so successive inserts get strictly increasing ids |
| `Store.Database.InsertMessage` | server/core/commands/CreateMessage.cpp:25-32 | a successful write appends exactly one row with the next id and records that id; a failed one changes nothing |
| `Store.Database.ReadLastInsertRowid` | server/core/commands/CreateMessage.cpp:34-38 | a successful read yields one row holding the last inserted id in decimal |
| `Store.Database.ReadNewest` | server/core/commands/GetMessages.cpp:27-38 | a successful read yields the columns of the newest rows under the given limit |
| `Bedrock.VerifyAttributeSize` | server/core/commands/CreateMessage.cpp:48-49 | passes exactly when the byte length of the attribute's value lies between the two bounds; otherwise raises an error naming the attribute |
| `Text.ByteLengthBounds` | server/core/commands/CreateMessage.cpp:48-49 | the byte length is at least the number of characters, and equal to it exactly when every character is ASCII |
| `CreateMessage.ValidateRequest` | server/core/commands/CreateMessage.cpp:47-50 | passes exactly when `name` has 1..MAX_SIZE_SMALL bytes and `message` 1..MAX_SIZE_QUERY bytes; `name` is checked first and the failing attribute is named |
| `CreateMessage.Peek` | server/core/commands/CreateMessage.cpp:12-16 | never reads the store; raises the validation error, or asks for the write phase (false) |
| `CreateMessage.NewRow` | server/core/commands/CreateMessage.cpp:21-28 | the inserted row carries a fresh id above all existing ones, the request's name and message, and the creation time in decimal |
| `CreateMessage.WithStored` | server/core/commands/CreateMessage.cpp:40-44 | the response gains exactly the attributes `result`, `messageID`, `name`, `message` and `createdAt` |
| `CreateMessage.WithStoredFields` | server/core/commands/CreateMessage.cpp:40-44 | `result` is "stored" and the other four hold the id read back, the name, the message and the creation time |
| `CreateMessage.WithStoredSpelling` | server/core/commands/CreateMessage.cpp:40-44 | each of the five written attributes keeps the spelling it already had in the response, and a new one is spelled as written |
| `CreateMessage.WithStoredKeeps` | server/core/commands/CreateMessage.cpp:40-44 | every other attribute of the response keeps its entry |
| `CreateMessage.StoredIdReadsBack` | server/core/commands/CreateMessage.cpp:34-41 | the `messageID` answered after a successful insert is a string of digits that reads back as the id of the stored row |
| `CreateMessage.Process` | server/core/commands/CreateMessage.cpp:18-45 | invalid input raises the validation error and leaves the store untouched; a failed write raises "502 Failed to insert message" and leaves the store untouched; a failed id read-back raises "502 Failed to retrieve inserted messageID" after exactly one row was appended and its id recorded; on success the same row and id, and the response holds the stored fields with the new id in decimal; no raised error touches the response |
| `Dispatch.Execute` | server/core/commands/CreateMessage.cpp:12-19 | peek then process unless peek finished: HelloWorld always greets, GetMessages and HelloWorld leave the store unchanged, CreateMessage validates before writing, a valid request ends only in success or one of the two 502 errors, and the store and response guarantees of its process carry over |
| `Dispatch.Handle` | server/core/Core.cpp:29-37 | an unrecognised method line is "not mine" and touches nothing; a raised error is answered with that error; a HelloWorld line, which never raises, answers with the greeting table |
| `Dispatch.HelloWorldNameIsRouted` | server/core/Core.cpp:31-33 | the HelloWorld command's own name is routed to it |
| `Dispatch.StoredMessageListedFirst` | server/core/commands/CreateMessage.cpp:21-44 | after a successful insert, the next listing, whatever its limit, lists the new row first with its id, name and message |
| `Dispatch.ThreeStoredListTwo` | server/core/commands/GetMessages.cpp:27-55 | three inserts into an empty table and a listing with limit 2 give exactly the last two, newest first (ids "3" then "2"), and a count of "2" |

## Left out

- `server/api/api.php` (HTTP routing, CORS headers, client configuration and the network call) and `server/api/Log.php` (a logging wrapper): I/O around the plugin.
- Plugin loading (`BEDROCK_PLUGIN_REGISTER_CORE`), constructors, destructors and the `SINFO` logging: host machinery with no behaviour to verify.
- The host's plugin registry, its "unrecognised method" error reply and the replication layer that decides where `process` runs. These are host code and are not part of this model. `Dispatch` models only the Core plugin's "not mine" answer.
- SQL text, quoting (`SQ`, `fmt::format`) and the SQLite engine. The table is an abstract sequence of rows.
- Transaction rollback after a raised error. It belongs to the host.
- `Store.NextId`: when the largest id is already the 64-bit maximum, SQLite picks a random unused id. The model always takes the largest id plus one.
- `calc64`, `SComposeJSONObject`, `SComposeJSONArray`, `MAX_SIZE_SMALL` and `MAX_SIZE_QUERY` are parameters. The text of `verifyAttributeSize`'s error is abstract.
- `serializeData`/`deserializeData` and the `SQLiteCommand&&` constructor are only declared in `server/core/commands/HelloWorld.h`. They have no body to model.
- How `STimeNow()` becomes the `timestamp` attribute in `HelloWorld.cpp:33` is not shown. The model takes the decimal text of the time, as `CreateMessage` does explicitly with `SToStr`.
- Core.GetCommand: the method line is compared with "HelloWorld" as a whole string. `SIEquals` compares with `strcasecmp` on the C string, which ends at the first NUL character, so a line such as "HelloWorld" followed by a NUL and more text is routed there and not here. The two differ only for names that contain a NUL character.
- Bedrock.Get: attribute names are compared as whole strings. The table's comparator uses `strcasecmp` on the C string and so ignores everything after a NUL character in a name; the two differ only for names that contain one.
- Bedrock.Set: keys are whole lower-cased names, so two names that agree up to a NUL character and differ after it are two attributes here and one in the table's comparator; the two differ only for names that contain a NUL character.
- Case-insensitive matching covers ASCII letters only, as `strcasecmp` does in the C locale. Locale-dependent lower-casing is not modelled.
- The order in which an `STable` iterates its entries (and so the order of fields in a composed JSON object) is not modelled; the composers are parameters.
- Attribute values are sequences of Unicode characters measured in UTF-8 bytes, so a value holding bytes that are not valid UTF-8 cannot be represented.
- Reading a missing attribute through a non-const request may insert an empty entry into the request. The model treats the request as immutable, as it is once dispatched.
- `GetMessages.Process` is specified and verified on its own, but the driver never reaches it, because `GetMessages.Peek` always finishes the command.
