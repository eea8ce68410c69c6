# ApiTest core in Dafny

A model of the core of Naivic/ApiTest, a small PHP framework for testing HTTP APIs.

A test catalog (`TestProvider`) holds test descriptions by id. It also holds named
shortcuts into a fixture store (`DataProvider`).

The runner (`Test`) starts each test on a result collector (`Result`) and runs a per-test
body. The body calls `check($name, $expect, $given)`, which walks a given value (a decoded
API answer) against an expectation descriptor:
- a basic comparison `==`, `!=`, `>=`, `<=`, `>`, `<`;
- `object`, with per-field descriptors;
- `array`, with per-item descriptors;
- `object_equal`, naming a path to a fixture;
- anything else, which throws.

Every outcome becomes a note on the collector. Every composite check brackets its notes in
a section.

The collector keeps, for the current test:
- a result, which is true until a failing note;
- a tree of notes and section headers;
- a stack of open sections.

Each `start` seals the current test into a ledger: records by id, plus the ids that passed
and failed. `show` renders the ledger as text.

## Structure

| file | module | what it holds |
|---|---|---|
| `common.dfy` | `Common` | values (PHP scalars and arrays as ordered key/value lists), exceptions, key-list helpers (`array_keys`, `array_diff`, `array_intersect`), string conversions |
| `data_provider.dfy` | `DataProviders` | the fixture store. `get` is a loop, proved equal to the recursive `Walk`. |
| `test_provider.dfy` | `TestProviders` | the catalog: `getById`, `getAll`, `dp`, `__call` |
| `notes.dfy` | `Notes` | the message tree and the section cursor (the stack is a path of child indices). The collector calls are `Event`s; `Step` and `Replay` give their effect. |
| `ledger.dfy` | `Ledgers` | sealed test records and the sealing done by `start` |
| `render.dfy` | `Rendering` | `show`, `showtest`, `showmsg` as pure string functions |
| `result.dfy` | `Collector` | class `Result`, whose fields are updated in place by `start`, `note`, `startSection` and `endSection` |
| `matching.dfy` | `Matching` | descriptors, comparison, and the pure function `Trace`. `Trace` gives the collector calls a check makes and the exception it throws. |
| `tests.dfy` | `Tests` | class `Test`: `check`, `checkObject`, `checkObjectEqual`, `checkArray`, `runAll`, `runById` |

Each matcher method changes the shared collector in place. Its contract says that the
collector's new state is the old one replayed through `Trace`'s events, and that it throws
`Trace`'s exception. The properties of checks are then proved about `Trace`.

PHP exceptions are `Failure` values. A composite check that throws leaves its section
open, as in PHP, because the `endSection` after it is never reached.

## Behaviour notes

- **An exception ends a run at once.** `runAll` and `runById`
  (src/Naivic/ApiTest/Test.php:45-72) catch nothing, so an exception leaves them before the
  closing `start("", "")`.
  - `Tests.Test.RunAll` and `Tests.Test.RunById` return the exception.
  - The closing start is then not made, and the test that threw is not sealed.
- **An array check on an empty given array.** The code (src/Naivic/ApiTest/Test.php:90-97)
  records the "given is an empty array" failing note and then still checks every expected
  item against `array_shift` of the empty array, which is null. `Matching.ArrayEdgeCases`
  states this.
- **`start` with an empty id.** `start` skips sealing when the current id is empty
  (src/Naivic/ApiTest/Result.php:65), not only when no test is open. So `runById("")`
  records no entry for the empty id. It still seals the test that was open before it, when
  that test has a non-empty id.

## Model

| member | source | states |
|---|---|---|
| `Common.IndexOf` | src/Naivic/ApiTest/Test.php:138 | `$array[$k]` finds the first entry with key `k`. It is absent exactly when `k` is not a key. |
| `Common.Minus` | src/Naivic/ApiTest/Test.php:121-122 | `array_diff` on key lists: exactly the keys of the first list missing from the second. A list of distinct keys gives distinct keys. |
| `Common.Inter` | src/Naivic/ApiTest/Test.php:132 | `array_intersect` on key lists: exactly the keys of the first list present in the second. A list of distinct keys gives distinct keys. |
| `Common.DiffsOrdered` | src/Naivic/ApiTest/Test.php:121-132 | Both `array_diff` and `array_intersect` keep the order of their first list: each result is that list with some entries dropped. |
| `DataProviders.Walk` | src/Naivic/ApiTest/DataProvider.php:45-57 | An empty path yields the starting value. A failure is a not-found or not-an-array failure naming a key of the path. |
| `DataProviders.LogPath` | src/Naivic/ApiTest/DataProvider.php:44-53 | The consumed-path log is empty exactly when no step has been consumed. |
| `DataProviders.DataProvider.Get` | src/Naivic/ApiTest/DataProvider.php:41-59 | The step-by-step loop, with its running log, returns exactly what the recursive lookup gives. That is the value at the end of the path, or the exception of the first step that fails. The stored data is never changed. |
| `DataProviders.LookupEmptyPath` | src/Naivic/ApiTest/DataProvider.php:43-57 | An empty path yields the whole stored data. |
| `DataProviders.LookupStep` | src/Naivic/ApiTest/DataProvider.php:45-54 | When the value reached by a path is an array holding key `k`, one more step `k` yields the value under `k`. |
| `DataProviders.WalkConcat` | src/Naivic/ApiTest/DataProvider.php:45-56 | Walking `p + q` is walking `p`, then `q` from where `p` ended. It fails exactly when one of the two parts fails. |
| `DataProviders.LookupConcat` | src/Naivic/ApiTest/DataProvider.php:45-56 | `get(p ++ q)` equals looking up `q` inside `get(p)`, and fails when either part fails. |
| `DataProviders.WalkNotFound` | src/Naivic/ApiTest/DataProvider.php:47-51 | A not-found exception names the missing key. That key is a step of the path, and the log is the path consumed before it. |
| `DataProviders.LookupNotFound` | src/Naivic/ApiTest/DataProvider.php:47-51 | A not-found exception names the key at some step `i` of the path. Its log is "/k1/.../k(i-1)", and the log is empty exactly when `i` is 0. |
| `TestProviders.TestProvider.GetById` | src/Naivic/ApiTest/TestProvider.php:85-89 | It returns a test exactly when `id` is a key of the catalog, and then the test stored under `id`. Otherwise it returns null. |
| `TestProviders.TestProvider.GetAll` | src/Naivic/ApiTest/TestProvider.php:71-77 | It yields every `(id, test)` pair once, in insertion order. |
| `TestProviders.TestProvider.Dp` | src/Naivic/ApiTest/TestProvider.php:44-46 | It forwards its path unchanged to the fixture store's lookup. |
| `TestProviders.TestProvider.Call` | src/Naivic/ApiTest/TestProvider.php:58-64 | An unregistered shortcut name throws "undefined data element". A registered one runs the lookup on its stored path followed by the arguments. |
| `TestProviders.CallComposes` | src/Naivic/ApiTest/TestProvider.php:62-63 | A registered shortcut first resolves its own prefix, then continues with the arguments inside that value. It fails when the prefix does. |
| `TestProviders.TestProvider.DpFromTest` | src/Naivic/ApiTest/Test.php:157 | The call as written from class `Test` throws "undefined data element : dp" whenever the catalog has no shortcut named "dp". |
| `TestProviders.DpFromTestFails` | src/Naivic/ApiTest/Test.php:157 | For every catalog without a "dp" shortcut and with an array store, the empty path yields the store through `dp`, but throws when called as written. |
| `TestProviders.DpFromTestExample` | src/Naivic/ApiTest/Test.php:157 | A concrete catalog whose store is {"user": 1}: the as-written call throws where `dp` returns the fixture. |
| `Notes.AppendAt` | src/Naivic/ApiTest/Result.php:97 | A message goes to the end of the innermost open section's list and nowhere else. The path stays valid, and every message off the path is unchanged. |
| `Notes.AppendAtFrame` | src/Naivic/ApiTest/Result.php:97 | Every section whose path is not a prefix of the target path is still reachable and keeps exactly its messages. |
| `Notes.AppendAtOnPath` | src/Naivic/ApiTest/Result.php:97 | Each list enclosing the target keeps its length and every entry but the one the path goes through. That entry is still a section with the same header. |
| `Notes.ValidExtend` | src/Naivic/ApiTest/Result.php:109-112 | The new section's index, appended to the stack, names that section, and its children become the append target. |
| `Notes.ValidPrefix` | src/Naivic/ApiTest/Result.php:122 | Popping the stack leaves a valid path to the enclosing section. |
| `Notes.Step` | src/Naivic/ApiTest/Result.php:96-124 | The effect of each collector call:<br>- a note is appended to the innermost section and ANDs into the result;<br>- a section is appended and becomes the innermost;<br>- closing pops one level;<br>- closing at the root throws, and nothing else throws. |
| `Notes.StepFrame` | src/Naivic/ApiTest/Result.php:96-113 | A note or a new section changes no section off the path to the innermost open one. |
| `Notes.ReplayConcat` | src/Naivic/ApiTest/Result.php:96-124 | Two runs of calls, one after the other, act as their concatenation. |
| `Notes.ReplayResult` | src/Naivic/ApiTest/Result.php:96-101 | After any calls, the result is the earlier result AND every note's flag. |
| `Notes.OpensDeepen` | src/Naivic/ApiTest/Result.php:108-113 | N `startSection` calls deepen the stack by N, keep its outer part and keep the result. |
| `Notes.ClosesPop` | src/Naivic/ApiTest/Result.php:118-124 | `endSection` called N times succeeds exactly when N is at most the depth. It then pops N levels and leaves the tree and the result unchanged. |
| `Notes.SectionsBalance` | src/Naivic/ApiTest/Result.php:108-124 | N `startSection` calls followed by N `endSection` calls restore the stack exactly. |
| `Notes.SectionsUnderflow` | src/Naivic/ApiTest/Result.php:118-124 | One `endSection` more than the open levels throws. |
| `Ledgers.Seal` | src/Naivic/ApiTest/Result.php:65-77 | With no test open or an empty id, nothing is sealed. Otherwise:<br>- the record is stored under its id, overwriting an earlier one;<br>- the id is appended to exactly one of the passed and failed lists, by its result, even when it was listed before;<br>- the ledger stays consistent. |
| `Ledgers.SealAllFromEmpty` | src/Naivic/ApiTest/Result.php:65-77 | Sealing records with distinct non-empty ids into an empty ledger:<br>- stores each record under its id;<br>- lists the passing and the failing ids in order;<br>- counts each test once. |
| `Ledgers.PassedFailedDisjoint` | src/Naivic/ApiTest/Result.php:72-76 | With distinct ids, an id is in the passed list exactly when its test passed, and in the failed list exactly when it failed. |
| `Ledgers.IdSetSize` | src/Naivic/ApiTest/Result.php:66 | Distinct ids give as many ledger entries as tests. |
| `Rendering.Escape` | src/Naivic/ApiTest/Result.php:197 | The escaped message has no newline. It is one character longer per newline it replaced. A message without newlines is unchanged. A lone newline becomes backslash and `n`, and any other single character stays. |
| `Rendering.EscapeConcat` | src/Naivic/ApiTest/Result.php:197 | Escaping distributes over concatenation. With the one-character case, each newline becomes backslash-n and every other character stays, in order. |
| `Rendering.Trim` | src/Naivic/ApiTest/Result.php:197 | A shown message is at most `MSG_MAXLEN` = 200 characters. A longer one keeps its first 197 characters and ends in "...". |
| `Rendering.Tabs` | src/Naivic/ApiTest/Result.php:189 | The indentation is exactly `level` tab characters. |
| `Rendering.ShowMsg` | src/Naivic/ApiTest/Result.php:187-201 | A message prints nothing exactly when it is a note whose flag differs from the test's result. |
| `Rendering.MsgLayout` | src/Naivic/ApiTest/Result.php:188-199 | A section prints "\n\t\t", `level` tabs and its header, then its messages one level deeper. A shown note prints "\n\t\t", `level` tabs, "+ " or "- " by the test's result, and its text escaped and trimmed. |
| `Rendering.ShowMsgs` | src/Naivic/ApiTest/Result.php:190-192 | A list of messages prints nothing exactly when every entry is a note whose flag differs from the test's result. |
| `Rendering.ShowMsgsLines` | src/Naivic/ApiTest/Result.php:190-192 | A list of messages prints each message's `showmsg` output, concatenated in list order, all at the same level. |
| `Rendering.VerboseEntry` | src/Naivic/ApiTest/Result.php:171-176 | A verbose entry is the id line, then the test's messages printed from level 0 under the test's own result, then a newline. |
| `Rendering.ShowTest` | src/Naivic/ApiTest/Result.php:170-178 | A test's entry starts with "\n\t" id " : " name. Without verbose it is exactly that line. With verbose it ends with a newline. |
| `Rendering.ShowTests` | src/Naivic/ApiTest/Result.php:148-150 | The entries of a list of ids are empty exactly when the list is. |
| `Rendering.ShowTestsLines` | src/Naivic/ApiTest/Result.php:148-155 | The entries are each id's entry, concatenated in list order. Without verbose that is the concatenation of "\n\t" id " : " name. |
| `Rendering.Block` | src/Naivic/ApiTest/Result.php:146-157 | There is no block for no ids. Otherwise the block is its title followed by the entries of its ids. |
| `Rendering.Render` | src/Naivic/ApiTest/Result.php:142-161 | The report starts with the totals: "Total : " and the number of tests, then "\nSuccess : " and the number passed, then ", Fails : " and the number failed. It is exactly the totals when no test is listed as passed or failed. |
| `Rendering.RenderBlocks` | src/Naivic/ApiTest/Result.php:146-157 | After the totals comes the "\nProblematic:" block, present exactly when some test failed. Then comes the "\nDone:" block, present exactly when some test passed. Each lists the entries of its ids in ledger order. |
| `Rendering.PrunedShowsTheSame` | src/Naivic/ApiTest/Result.php:187-201 | A verbose report shows a test's tree exactly as it shows that tree with every note whose flag differs from the test's result removed. The pruned tree holds only matching notes. |
| `Rendering.QuietReportIgnoresMessages` | src/Naivic/ApiTest/Result.php:170-178 | Two ledgers give the same non-verbose report when they agree on size, id lists and names, whatever their results and messages. |
| `Collector.Result.constructor` | src/Naivic/ApiTest/Result.php:18-30 | A new collector has an empty ledger and no open test. |
| `Collector.Result.Start` | src/Naivic/ApiTest/Result.php:65-86 | The new ledger is the old one with the current test sealed. The new test is passing, with no messages, only the root open and level 0. |
| `Collector.Result.Note` | src/Naivic/ApiTest/Result.php:96-101 | The note is appended to the innermost open section. The result becomes false on a failing note and is otherwise unchanged. The stack, ledger and test identity are unchanged. |
| `Collector.Result.StartSection` | src/Naivic/ApiTest/Result.php:108-113 | An empty section is appended to the innermost section and becomes the new innermost. The level grows by one. |
| `Collector.Result.EndSection` | src/Naivic/ApiTest/Result.php:118-124 | It throws exactly at level 0, and then changes nothing. Otherwise it pops one level and keeps the tree. |
| `Collector.Result.GetStatus` | src/Naivic/ApiTest/Result.php:131-133 | It returns the current result (null before the first start) and reads only. |
| `Collector.Result.Perform` | src/Naivic/ApiTest/Test.php:49 | A per-test body's collector calls, made one by one, leave the collector in `Replay`'s state. The calls stop with an exception exactly when `Replay` fails. |
| `Collector.Result.Show` | src/Naivic/ApiTest/Result.php:142-161 | Depth "verbose" gives the verbose report of the sealed ledger, and any other depth the non-verbose one. Both start with the totals line. |
| `Collector.ResultIsConjunction` | src/Naivic/ApiTest/Result.php:96-101 | A test's result is the conjunction of its notes. Once false, no later call makes it true. |
| `Matching.Order` | src/Naivic/ApiTest/Test.php:198 | The three-way comparison gives -1, 0 or 1, and only for two values of one kind. On non-arrays it gives 0 exactly when the values are equal. |
| `Matching.Eval` | src/Naivic/ApiTest/Test.php:198 | On integers, each of the six operators is the arithmetic comparison. |
| `Matching.ScalarOrderMirrors` | src/Naivic/ApiTest/Test.php:14 | On scalars:<br>- `>` and `<` are mirror images, and so are `>=` and `<=`;<br>- `==` is symmetric and `!=` is its negation;<br>- two values of one kind satisfy exactly one of `<`, `==`, `>`. |
| `Matching.CmpEvent` | src/Naivic/ApiTest/Test.php:197-202 | A basic check makes one note, which passes exactly when `given op val` holds. |
| `Matching.Trace` | src/Naivic/ApiTest/Test.php:191-227 | A check records nothing exactly when its type tag is unknown. A basic check never throws, and the others throw only a check exception. A composite check opens its section first and, when it completes, closes it last. |
| `Matching.ObjectTrace` | src/Naivic/ApiTest/Test.php:111-141 | An object check throws only a check exception, only when given an array, and only when that array shares a key with the expectation. |
| `Matching.FieldsTrace` | src/Naivic/ApiTest/Test.php:137-139 | The field loop throws only a check exception, and only when some field is left. When nothing throws, it records at least one call per field. |
| `Matching.ObjectEqualTrace` | src/Naivic/ApiTest/Test.php:150-182 | An object-equality check throws only when given an array, and then before recording anything. It throws only a check exception. |
| `Matching.EqualNotes` | src/Naivic/ApiTest/Test.php:178-180 | The `==` loop records one call per common field. |
| `Matching.ArrayTrace` | src/Naivic/ApiTest/Test.php:81-101 | An array check first records a note that passes exactly when it was given an array. It throws only a check exception, only when given an array and only when items are expected. |
| `Matching.ItemsTrace` | src/Naivic/ApiTest/Test.php:94-97 | The item loop throws only a check exception, and only while items are left. When nothing throws, it records at least one call per remaining item. |
| `Matching.ArrayNoItems` | src/Naivic/ApiTest/Test.php:87-88 | With no item expectations, an array check on an array records only the passing type note inside its section. |
| `Matching.ObjectNotArray` | src/Naivic/ApiTest/Test.php:113-116 | An object check, plain or against a fixture, on a non-array records one failing note inside its section and nothing more. There is no key comparison and no fixture lookup. |
| `Matching.CmpRecordsOneNote` | src/Naivic/ApiTest/Test.php:193-202 | A basic descriptor records exactly one note, passing iff `given op val` holds. It opens no section and throws nothing. |
| `Matching.UnknownRecordsNothing` | src/Naivic/ApiTest/Test.php:205-223 | An unrecognised type tag throws "Unknown check type" before recording anything. |
| `Matching.TraceBalanced` | src/Naivic/ApiTest/Test.php:207-221 | A check that completes leaves the section stack as it found it, on every early-return path too. A check that throws never closes a section it did not open. |
| `Matching.ObjectBalanced` | src/Naivic/ApiTest/Test.php:111-141 | Likewise for the body of an object check. |
| `Matching.FieldsBalanced` | src/Naivic/ApiTest/Test.php:137-139 | Likewise for its loop over the common fields. |
| `Matching.ArrayBalanced` | src/Naivic/ApiTest/Test.php:81-101 | Likewise for the body of an array check. |
| `Matching.ItemsBalanced` | src/Naivic/ApiTest/Test.php:94-97 | Likewise for its loop over the items. |
| `Matching.ObjectEqualBalanced` | src/Naivic/ApiTest/Test.php:150-182 | Likewise for the body of an object-equality check. |
| `Matching.ObjectEqualRecordsNotes` | src/Naivic/ApiTest/Test.php:150-182 | An object-equality check records only notes. It records nothing when the fixture lookup throws. |
| `Matching.EqualNotesAreNotes` | src/Naivic/ApiTest/Test.php:178-180 | Its field loop records one note per common field. The note passes exactly when the given value `==` the fixture's value. |
| `Matching.DiffNotesFailing` | src/Naivic/ApiTest/Test.php:124-135 | The key comparison records only failing notes. |
| `Matching.DiffNotesSpec` | src/Naivic/ApiTest/Test.php:121-135 | It records:<br>- the excess-fields note iff the given object has a key not expected;<br>- the missing-fields note iff an expected key is absent;<br>- the no-common-field note iff no given key is expected. |
| `Matching.DiffNotesNone` | src/Naivic/ApiTest/Test.php:121-135 | The key comparison records nothing iff both objects have the same key set and the given object has at least one key. |
| `Matching.ItemsAligned` | src/Naivic/ApiTest/Test.php:94-97 | Item `n` is checked against the `n`-th value, or null once the values run out. Values beyond the expected items are never looked at. |
| `Matching.ArrayReadsLeadingValues` | src/Naivic/ApiTest/Test.php:88-97 | Two given arrays are checked alike when they agree on their leading values and on being empty, whatever their keys or further values. |
| `Matching.ArrayEdgeCases` | src/Naivic/ApiTest/Test.php:83-97 | A non-array gives one failing note inside the section. An empty array gives the "empty array" failing note, and then every item is checked against null. |
| `Matching.ArrayPassing` | src/Naivic/ApiTest/Test.php:83-92 | An array check with no failing note was given an array, and a non-empty one when items are expected. |
| `Matching.ObjectPassing` | src/Naivic/ApiTest/Test.php:113-135 | An object check with no failing note was given an array with exactly the expected key set, which is not empty. |
| `Matching.EqualNotesAsFields` | src/Naivic/ApiTest/Test.php:178-180 | The `==` loop records exactly the notes of the object field loop over those expectations, and throws nothing. |
| `Matching.ObjectEqualIsObjectOfEquals` | src/Naivic/ApiTest/Test.php:150-180 | With a fixture array at the path, `object_equal` records and throws exactly as `object` does with a `==` expectation per fixture field. |
| `Matching.ObjectEqualFixtureErrors` | src/Naivic/ApiTest/Test.php:157-159 | When the lookup throws, that exception ends the check after the section opens. A scalar fixture throws too. |
| `Tests.Test.constructor` | src/Naivic/ApiTest/Test.php:24-29 | The runner keeps the catalog and the collector it is given. |
| `Tests.Test.CheckBasic` | src/Naivic/ApiTest/Test.php:196-202 | It records the one note of a basic check. The result is ANDed with whether `given op val` holds. |
| `Tests.Test.Check` | src/Naivic/ApiTest/Test.php:191-227 | The collector ends where `Trace`'s calls lead from where it was, and the method throws what `Trace` throws. The ledger and the test identity are unchanged. |
| `Tests.Test.EndSectionUnlessThrown` | src/Naivic/ApiTest/Test.php:208-221 | The `endSection` after a composite check is made only when the check did not throw, and then always succeeds. |
| `Tests.Test.CheckObject` | src/Naivic/ApiTest/Test.php:111-141 | The collector follows `ObjectTrace`, and the method throws what it throws. |
| `Tests.Test.DiffStep` | src/Naivic/ApiTest/Test.php:118-135 | It records the key comparison's notes and returns the common keys in given order. |
| `Tests.Test.CheckFields` | src/Naivic/ApiTest/Test.php:137-139 | One recursive check per common key, in given order, with that field's expectation. It stops at the first one that throws. |
| `Tests.Test.CheckObjectEqual` | src/Naivic/ApiTest/Test.php:150-182 | The collector follows `ObjectEqualTrace`, and the method throws what it throws. |
| `Tests.Test.CheckEqualFields` | src/Naivic/ApiTest/Test.php:178-180 | One `==` check per common key against the fixture's value. |
| `Tests.Test.CheckArray` | src/Naivic/ApiTest/Test.php:81-101 | The collector follows `ArrayTrace`, and the method throws what it throws. |
| `Tests.Test.CheckItems` | src/Naivic/ApiTest/Test.php:94-97 | Item `n` is checked against the value `array_shift` takes, or null. It stops at the first check that throws. |
| `Tests.Test.RunAll` | src/Naivic/ApiTest/Test.php:45-53 | `start` is called once per catalog test, in order, followed by the body, then `start("", "")`. The ledger gains every test's record in order.<br>On an exception, the run stops at the first test whose run throws, after every earlier test completed. Then `start` has been called for the tests up to that one, the ledger holds the previously current test and every earlier catalog test sealed, and the test that threw is the current one, unsealed, under its id and name. When its calls replay, the collector holds the result and messages they leave. The exception is returned. There is no closing start. |
| `Tests.Test.RunById` | src/Naivic/ApiTest/Test.php:60-72 | An unknown id is sealed as a failing "Invalid test id" test with the single note "test not found". A known id is run and sealed like one test of `RunAll`. The closing start follows unless the body threw. When it throws, only the previously current test is sealed, and the exception is returned. The thrown test stays current under its id and name, holding the result and messages its calls leave when they replay. |
| `Tests.TestRun` | src/Naivic/ApiTest/Test.php:47-50 | A test yields a record with its id and name exactly when its body throws nothing. |
| `Tests.StopHere` | src/Naivic/ApiTest/Test.php:45-50 | When a test throws after a run of completed ones, the run stops there, and the whole run ends with that test's exception. |
| `Tests.RunTestsStops` | src/Naivic/ApiTest/Test.php:45-50 | Once a test throws, the run ends with that exception, whatever tests follow. |
| `Tests.RunTestsRecords` | src/Naivic/ApiTest/Test.php:45-50 | A run without exceptions yields one record per test, in catalog order. |
| `Tests.RunAllOnFreshCollector` | src/Naivic/ApiTest/Test.php:45-53 | A full run on a fresh collector over distinct non-empty ids:<br>- records every test once under its id;<br>- lists it as passed exactly when its result is true and as failed exactly when it is false;<br>- counts every test once. |

## Left out

- **Operator dispatch.** `eval` of the operator string (src/Naivic/ApiTest/Test.php:198) is
  replaced by the closed operator type `Op` and `Eval`.
- **PHP loose comparison and type juggling.**
  - `Eval` compares values of one kind only: integers, strings (byte order), booleans,
    null, and arrays equal by key/value pairs.
  - Values of different kinds are unequal and unordered.
  - Floats are not modelled.
- **`var_export`.** It is approximated by a single-line `Export`.
- **Output buffering.** `ob_start`/`echo` in `show` are replaced by string concatenation.
- **`mb_strimwidth` display widths.** Every character counts one column.
- **PHP references in the section stack** (src/Naivic/ApiTest/Result.php:83, 112). The
  stack is a path of child indices into a tree the collector owns.
- **`Test::run` and the API driver.** The per-test body is a parameter of `RunAll`/`RunById`.
  It gives the collector calls it makes and the exception it throws, if any.
- **Constructors and `init` hooks.** Those of `Test`, `TestProvider` and `DataProvider` only
  store their arguments.
- **Lazy generation in `getAll`.** `GetAll` returns the list itself.
- **Keys.** Test ids and keys are strings. PHP's conversion of numeric-string array keys to
  integers is not modelled.
- **Calls before the first `start`.** `note`, `startSection` and `endSection` require a
  started collector. In PHP they fail on uninitialised typed properties.
- **Error paths of `array_key_exists` and `array_keys`.** `get` on a scalar in mid-path and
  `object_equal` on a scalar fixture throw a TypeError. These are the `NotAnArray` and
  `FixtureNotAnArray` failures, and their text is not modelled exactly.
- **`checkArray` item names.** An item's name uses its position in the expectation list,
  which is its key in a PHP list.
- Collector.Result.GetStatus: it returns the collector's own field, and its contract only
  ties that field to the current cursor.
- **Unknown type tags.** `Desc.Unknown(tag)` may carry a tag that is one of the known
  ones. The model treats any `Unknown` as unrecognised, where PHP would dispatch a known tag
  to its check. Descriptors built from PHP arrays use the other constructors for those tags.
- **Repeated keys.** The entry lists of `Value.Dict`, of an object expectation, of the
  catalog's tests and of its data shortcuts may repeat a key, which a PHP array cannot.
  Lookups (`IndexOf`, `At`, `GetById`, `Call`) take the first entry with the key, and
  `Tests.RunAllOnFreshCollector` requires distinct test ids.

## Findings

| source | as written | input that shows it | evidently intended | confidence | as-written member | corrected member |
|---|---|---|---|---|---|---|
| src/Naivic/ApiTest/Test.php:157 | `checkObjectEqual` fetches its fixture with `$this->testprov->dp(...)`. But `dp` is protected (src/Naivic/ApiTest/TestProvider.php:44), so from class `Test` PHP passes the call to `__call("dp", $path)`. That throws "undefined data element : dp" unless the catalog happens to register a shortcut named "dp". | a catalog with no "dp" shortcut and store {"user": 1}; any `object_equal` check on an array answer | the fixture at the path, which `dp` returns | not executed | `TestProviders.TestProvider.DpFromTest` (shown by `TestProviders.DpFromTestFails`, `TestProviders.DpFromTestExample`) | `TestProviders.TestProvider.Dp`, used by `Matching.ObjectEqualTrace` and `Tests.Test.CheckObjectEqual` |
