# Manual backup command: a Dafny model

This project models the pure logic of the `/backup` slash command of a
NightScout MongoDB backup bot (`src/commands/admin/backup.ts`). The command
does three things that are not plumbing:

1. It parses the optional `collections` string option into "no filter" or an
   ordered list of collection names: split on `,`, trim each piece, drop the
   empty pieces. A missing or empty option means "no filter".
2. It sends a fixed request to the backup service: `createThread = true`,
   `isManual = true`, and the parsed collections.
3. It turns the service's result record into a reply. The reply takes either
   the completed or the failed branch, has a description, and carries a list
   of labelled fields.

The model is written in four modules:

- `Wrappers` (`wrappers.dfy`): the `Option` type. `None` is a missing value:
  `null` for the command's option, and `undefined` for an absent field of the
  result record.
- `JsString` (`js_string.dfy`): the ECMAScript built-ins the command calls.
  These are `split` with a one-character separator, `trim`, `join`, the
  `filter` that drops empty strings, and `toString` on a non-negative
  integer. `trim` takes the whitespace predicate as a parameter.
  `EcmaWhitespace` is the set ECMAScript uses: the WhiteSpace and
  LineTerminator productions of ECMA-262, sections 12.2 and 12.3.
- `CollectionsOption` (`collections_option.dfy`): the parse, with an
  algebraic description of it and a round trip.
- `BackupCommand` (`backup_command.dfy`): the request, the result record,
  the abstract reply and the lemmas about it.

Four details of the code shape the model:

- **Truthiness.** The tests on the result's URL and thread id are truthiness
  tests, so an empty string counts as absent. `Truthy` models this. In the
  same way, the option is tested for truthiness, which sends both `null` and
  `""` to "no filter".
- **No de-duplication.** The parsed list keeps repeated names.
  `ParseKeepsDuplicates` proves it.
- **Two "None" tests.** The two branches decide "None" differently. The
  completed branch replaces an empty joined string by "None"; the failed
  branch shows "None" only for an empty list. They agree on every list except `[""]`:
  the completed branch shows "None" for it, and the failed branch shows an
  empty string. Both are modelled as written.
- **`undefined` error.** A missing `error` appears in the failure
  description as the text `undefined`. This is how a template literal prints
  `undefined`.

## Model

| member | source | states |
|---|---|---|
| `CollectionsOption.ParseCollections` | src/commands/admin/backup.ts:36-39 | The result is "no filter" exactly when the option is missing or the empty string. Otherwise every parsed name is non-empty, has no whitespace at either end, and contains no comma. There are at most (number of commas + 1) names. |
| `CollectionsOption.Names` | src/commands/admin/backup.ts:38 | Every name that split, trim and filter produce is a valid collection name: non-empty, trimmed and comma-free. |
| `CollectionsOption.ParseSegments` | src/commands/admin/backup.ts:38 | A value without a comma gives its trim, or nothing when the trim is empty. A comma concatenates the names on its left and the names on its right, in input order. Together these two facts pin the parse down on every non-empty input. |
| `CollectionsOption.ParseOnlySeparators` | src/commands/admin/backup.ts:37-38 | A non-empty value gives the empty list `Some([])`, not "no filter", exactly when every character is a comma or whitespace. Both directions are proved. |
| `CollectionsOption.ParseJoinRoundTrip` | src/commands/admin/backup.ts:38 | Valid names joined with a comma plus any padding parse back to the same list. Nothing is reordered, merged or dropped. |
| `CollectionsOption.ParseRenormalises` | src/commands/admin/backup.ts:38 | Re-joining a non-empty parsed list with commas and parsing it again gives the same list. |
| `CollectionsOption.ParseKeepsDuplicates` | src/commands/admin/backup.ts:38 | A name written twice is kept twice. |
| `JsString.Split` | src/commands/admin/backup.ts:38 | `split(',')` yields at least one piece, even for `""`. No piece contains the separator. |
| `JsString.SplitCount` | src/commands/admin/backup.ts:38 | `split(',')` yields exactly one more piece than there are separators. |
| `JsString.Join` | src/commands/admin/backup.ts:63-117 | `join` (used at lines 63 and 117) of no element is `""`. Otherwise its length is the total length of the elements plus one separator per gap. `JoinSingle` and `JoinAppend` determine its contents for every separator, including `", "`. |
| `JsString.JoinSingle` | src/commands/admin/backup.ts:63-117 | A single element joins to itself. |
| `JsString.JoinAppend` | src/commands/admin/backup.ts:63-117 | Joining two non-empty lists gives the join of the first, one separator, then the join of the second. |
| `JsString.SplitConcat` | src/commands/admin/backup.ts:38 | Splitting `a + sep + b` gives the pieces of `a` followed by the pieces of `b`. |
| `JsString.JoinSplit` | src/commands/admin/backup.ts:38 | Joining the pieces with the separator gives back the original string. |
| `JsString.SplitJoin` | src/commands/admin/backup.ts:38 | Splitting a join of separator-free pieces gives back the pieces. |
| `JsString.Trim` | src/commands/admin/backup.ts:38 | `trim()` returns a contiguous slice of its input. Only whitespace lies before and after the slice, and the slice has no whitespace at either end. |
| `JsString.TrimUnique` | src/commands/admin/backup.ts:38 | Two strings that both meet that description for the same input are equal, so the description determines `trim`. |
| `JsString.TrimFixedPoint` | src/commands/admin/backup.ts:38 | `trim` leaves a string unchanged exactly when the string has no whitespace at either end. |
| `JsString.TrimIdempotent` | src/commands/admin/backup.ts:38 | Trimming twice gives the same result as trimming once. |
| `JsString.TrimEmptyIff` | src/commands/admin/backup.ts:38 | The trim is empty exactly when the string is all whitespace. |
| `JsString.TrimPadded` | src/commands/admin/backup.ts:38 | Whitespace added around a trimmed string is exactly what `trim` removes. |
| `JsString.TrimAll` | src/commands/admin/backup.ts:38 | Trimming every piece keeps the number of pieces, and the piece at each position is the trim of the input piece at that position. |
| `JsString.TrimAllConcat` | src/commands/admin/backup.ts:38 | Trimming every piece of `a + b` gives the trimmed pieces of `a` followed by those of `b`. |
| `JsString.DropEmpty` | src/commands/admin/backup.ts:38 | The filter on a positive length never grows the list. A string is in the result exactly when it is in the input and is not empty. |
| `JsString.DropEmptyConcat` | src/commands/admin/backup.ts:38 | The filter distributes over concatenation, so it keeps the input order. |
| `JsString.DropEmptyKeepsNonEmpty` | src/commands/admin/backup.ts:38 | The filter removes nothing from a list with no empty strings, so repeated names stay. |
| `JsString.JoinEmptyIff` | src/commands/admin/backup.ts:63 | With a non-empty separator, `join` gives `""` exactly for `[]` and for `[""]`. |
| `JsString.NumberToString` | src/commands/admin/backup.ts:68 | `toString()` of a count is a non-empty string of decimal digits. It starts with `0` only for zero, which gives `"0"`. |
| `JsString.NumberToStringRoundTrip` | src/commands/admin/backup.ts:68 | Reading the digits back gives the count. |
| `BackupCommand.BackupRequest` | src/commands/admin/backup.ts:36-54 | The request always has `createThread` and `isManual` set. Its collections are the parse result: `None` exactly for a missing or empty option, otherwise valid names. |
| `BackupCommand.Summarize` | src/commands/admin/backup.ts:56-122 | The reply takes the completed branch exactly when `result.success` holds. The failure description is the fixed prefix followed by the error text, and the success description is fixed. The fields appear in a fixed label order, so no label appears twice. |
| `BackupCommand.SummarizeFields` | src/commands/admin/backup.ts:56-122 | Under each label the reply shows exactly the expected field. On success: the processed list, the document count and the time. The download link appears exactly on success with a truthy URL, and the thread exactly on success with a truthy thread id. On failure: only the partial list. |
| `BackupCommand.ProcessedTextsAgree` | src/commands/admin/backup.ts:63-118 | For every list except `[""]`, both branches show the names joined with `", "`, or `"None"` for the empty list. |
| `BackupCommand.ProcessedTextsDifferOnEmptyName` | src/commands/admin/backup.ts:63-118 | On `[""]` the completed branch shows `"None"` and the failed branch shows `""`. |
| `BackupCommand.ProcessedTextParsesBack` | src/commands/admin/backup.ts:37-63 | For a non-empty list of valid names, the list text in either branch parses back through the `collections` option to the same list. |
| `BackupCommand.ExampleRequest` | src/commands/admin/backup.ts:36-54 | The option `"users, events"` gives the request `{collections: ["users", "events"], createThread: true, isManual: true}`. |
| `BackupCommand.ExampleCompletedReply` | src/commands/admin/backup.ts:56-99 | A completed run over `users` and `events` with 260 documents, a URL and a thread shows five fields, in order: `"users, events"`, `"260"`, the time, the link and the thread mention. |
| `BackupCommand.ExampleFailedRun` | src/commands/admin/backup.ts:109-122 | A failed run shows the error in its description and `"None"` as its only field. It shows no link or thread, even when the record carries them. |

## Left out

- Command registration, decorators, permissions and preconditions (lines 1-29): framework configuration with no logic of its own.
- `deferReply`, `editReply`, and the "in progress" embed (lines 31, 42-47, 101, 124): I/O towards the chat platform.
- Colours, titles, emoji and the `setTimestamp()` calls of the embeds (lines 45, 77, 122): presentation only, and the timestamp reads the current clock. The branch tag and the field labels stand in for them.
- The localised date string of the backup time (line 73): it comes from a date library. The reply keeps the instant as `LocalizedTime(at)`.
- Logger calls (lines 103-107, 126-129): side effects only.
- The `catch` path (lines 132-144): it handles exceptions thrown by the service or the platform, and it converts an `Error` or any other value to a string by runtime reflection.
- `backupService.performBackup` (the service behind `#lib/services/backup`): it is not part of this model. `BackupResult` is an input, and the reply is proved correct for every result record, consistent or not.
- UTF-16: strings are sequences of Unicode scalar values. This changes nothing here, because `,` and every whitespace code point lie in the Basic Multilingual Plane and are not surrogates.
- JsString.NumberToString: matches `toString` only for integers up to 2^53. A count is a double in the source. Above 2^53 a double cannot hold every integer, and ECMAScript prints the shortest digits that round back to the double: 2^64 prints as `18446744073709552000`, while the model prints the exact `18446744073709551616`. From 10^21 on, ECMAScript switches to exponent notation. `BackupResult.totalDocumentsProcessed` is a `nat`, so it also admits integers that no double can hold. A document count is never negative or fractional.
- JsString.EcmaWhitespace: fixes the Unicode "Zs" category as of Unicode 15. A later Unicode version could add code points that a real engine's `trim` removes.
- BackupCommand.TemplateText: a missing `error` is taken to be `undefined` and prints as "undefined". The result type belongs to the service, which is not part of this model; an `error` that is `null` would print as "null" instead.
