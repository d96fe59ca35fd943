# rocks-level, modelled in Dafny

rocks-level is an `abstract-level` database backed by RocksDB through a
Node-API binding. This project models the parts of it that decide which
keys are read, written or removed, and how results are handed back:

- the native `Database` (open, close, attached iterators, column families);
- the native iterator: the bounds it derives from `lt`/`lte`/`gt`/`gte`,
  `SeekToRange`, `Seek`, the limit counter, and the batch fetch
  `iterator_nextv` with its `sizes`/`data` buffer encoding (which `db_get_many`
  shares);
- `db_clear`, both the range-delete path and the limited chunked path;
- the write batch, `BatchIterator` and `batch_iterate`'s stride-4 array;
- the JavaScript `ChainedBatch` (`put`/`del`/`merge` validation, `toArray`,
  iteration, `_write`);
- the JavaScript `RocksLevel` class (constructor checks, the open guards,
  the columns `createColumn` registers and `_close` tears down) and the
  `Query`/`Updates` resources behind the `query` and `updates` generators.

The storage engine is modelled as one strictly ascending sequence of
entries per column family (`Engine.Table`), ordered bytewise
(`Bytes.Less`). An engine iterator is an index into the in-range entries
laid out in iteration order, so "invalid" is the index one past the end.
Native calls that cannot be seen (the engine's status, `column_init`'s
handle, the native close) become parameters.

Files: `wrappers.dfy` (Option/Result/Outcome), `bytes.dfy` (byte strings
and their order), `bounds.dfy` (range options, iterator bounds, the clear
span), `engine.dfy` (tables), `result_buffer.dfy` (the `sizes`/`data`
encoding), `cursor.dfy` (the iterator and `iterator_nextv`), `clear.dfy`
(`db_clear`), `batch.dfy` (write batch and `BatchIterator`), `js.dfy`
(JavaScript values), `chained_batch.dfy`, `database.dfy`, `rocks_level.dfy`,
`resources.dfy`.

## Model

| member | source | states |
|---|---|---|
| Bytes.BelowSuccessor | binding.cc:296-313 | appending a zero byte turns an inclusive bound into an exclusive one: `k < x + [0]` exactly when `k <= x` |
| Bytes.BelowFill | binding.cc:1106-1109 | every key that does not start with a million 0xFF bytes sorts below that fill |
| Bounds.UpperBoundAdmits | binding.cc:296-304 | the iterator's upper bound admits `k` exactly when `k <= lte` if `lte` is given, else `k < lt` if `lt` is given, else always |
| Bounds.LowerBoundAdmits | binding.cc:306-314 | the lower bound admits `k` exactly when `k >= gte` if given, else `k > gt` if given, else always |
| Bounds.BoundsMatchOptions | binding.cc:296-314 | a key is inside the iterator's bounds exactly when the range options admit it, `lte` taking precedence over `lt` and `gte` over `gt` |
| Bounds.ClearSpanMatchesOptions | binding.cc:1092-1111 | the range-delete span covers exactly the admitted keys, minus those starting with a million 0xFF bytes when there is no upper option |
| Bounds.EmptySpan | binding.cc:1113 | a span whose begin does not sort below its end covers no key |
| Engine.Within | binding.cc:399-414 | the iterator sees exactly the table's entries inside its bounds, still in ascending order |
| Engine.DeleteSpan | binding.cc:1115 | `DeleteRange` removes exactly the entries whose keys lie in the span and keeps the table ordered |
| Engine.DeleteKeys | binding.cc:1138 | a batch of deletes removes exactly the entries with those keys |
| Engine.Lookup | binding.cc:1009 | a point read finds a value exactly when the key is present, and it is that key's value |
| ResultBuffer.RoundUp8 | binding.cc:1320-1322 | `(n \| 7) + 1` for unaligned `n` is the least multiple of 8 at or above `n` |
| ResultBuffer.Push | binding.cc:1315-1328 | pushing a slot appends its size (or -1 for a missing one) and, for a present slot, its bytes padded with zeros to the next multiple of 8 |
| ResultBuffer.Encode | binding.cc:1315-1351 | one size per slot, in order, and data that stays a multiple of 8 long |
| ResultBuffer.EncodeData | binding.cc:1315-1328 | the data buffer is the concatenation of the padded chunks of the present slots |
| ResultBuffer.DecodeEncode | binding.cc:1315-1328 | reading the buffers back with the sizes gives every slot back, missing ones as missing |
| ResultBuffer.GetMany | binding.cc:1019-1034 | `db_get_many` pushes -1 exactly for the keys not found and the value's length for the others, data aligned to 8 |
| ResultBuffer.EstimateExact | binding.cc:1011-1017 | the reserved size, the sum over present values of `size & 7 ? (size \| 7) + 1 : size`, is exactly the length of the data buffer produced |
| ResultBuffer.MultiGet | binding.cc:1001-1009 | one answer per requested key, in request order, found exactly when the key is in the table |
| ResultBuffer.GetManyPositional | binding.cc:948-1061 | decoding `db_get_many`'s buffers gives, at position `i`, exactly the lookup of the `i`-th key |
| Cursor.SizeT | binding.cc:438 | a signed value passed as a `size_t` keeps a non-negative value and wraps a negative one to `2^64` plus it |
| Cursor.Open | binding.cc:1198-1259 | a fresh iterator covers exactly the table entries the range admits, unseeked, counter at zero, with the `int32_t` high-water mark handed on as a `size_t` |
| Cursor.SeekToRange | binding.cc:322-332 | `SeekToRange` lands on the first entry in iteration order and is valid exactly when the range is non-empty |
| Cursor.SeekToRangeFirst | binding.cc:322-332 | after `SeekToRange` every other in-range entry comes later in iteration order |
| Cursor.Seek | binding.cc:334-351 | a target outside the bounds leaves the iterator invalid; otherwise it lands on the first entry at or past the target in iteration order and skips none |
| Cursor.SeekPositions | binding.cc:334-351 | after an in-range seek the iterator is on the least key at or above the target (greatest at or below it in reverse) and is invalid only when there is none |
| Cursor.Increment | binding.cc:365-368 | `Increment` succeeds exactly when unlimited or the counter is below the limit, and bumps the counter whenever a limit is set, even when it fails |
| Cursor.IncrementsBounded | binding.cc:365-368 | however often `Increment` is called, no more than `limit` calls succeed |
| Cursor.FillLimit | binding.cc:1330-1357 | every row the `iterator_nextv` loop visits used up one unit of the limit, and nothing else did |
| Cursor.FillFinished | binding.cc:1337-1340 | a fetch reported finished leaves the iterator exhausted or out of limit |
| Cursor.FillFinishedAt | binding.cc:1337-1340 | a fetch that reports finished visited every row up to the end of the entries, or used up the limit |
| Cursor.FillStopped | binding.cc:1353-1356 | an unfinished fetch stopped because more than `highWaterMarkBytes` were read or `count` rows pushed |
| Cursor.FillCap | binding.cc:1342-1356 | when keys or values are selected, a fetch visits at most `count` rows (one row when `count` is 0) |
| Cursor.Visit | binding.cc:1306-1357 | a fetch visits a gap-free run of entries starting at the iterator's position, after seeking to the range on first use |
| Cursor.VisitCounts | binding.cc:1330-1357 | the rows a fetch visits are at most `count` and each uses up one unit of the limit |
| Cursor.VisitEnd | binding.cc:1330-1357 | a finished fetch leaves the iterator done, having visited up to the end of the entries or used up the limit; an unfinished one met its stop rule and sits on its last row, so the next fetch steps first |
| Cursor.DoneStaysDone | binding.cc:1337-1340 | once finished, further fetches return no rows and stay finished |
| Cursor.NextV | binding.cc:1286-1384 | the buffers `iterator_nextv` returns decode to the visited rows' key and value slots in iteration order, with unselected fields missing |
| Cursor.VisitProgress | binding.cc:1286-1357 | a fetch from an iterator `n` rows into its life continues at entry `n` without gaps |
| Cursor.VisitComplete | binding.cc:1330-1357 | a fetch that reports finished completes the quota: with the rows before it, every in-range entry, or the first `limit` of them |
| Cursor.DrainProgress | binding.cc:1286-1357 | after any sequence of fetches the iterator is as far into its life as the rows delivered, and if finished it has delivered the quota |
| Cursor.FinishedAfterFinish | binding.cc:1337-1340 | a fetch reporting finished leaves an iterator every later fetch finds finished |
| Cursor.DrainAfterFinish | binding.cc:1337-1340 | after a finished fetch, further fetches deliver nothing and stay finished |
| Cursor.DrainFinishes | binding.cc:1337-1340 | if any fetch of a drain reports finished, the drain ends finished |
| Cursor.DrainInOrder | binding.cc:1286-1357 | any sequence of fetches on a fresh iterator delivers the in-range entries in iteration order without gaps or repeats, never more than `limit`; once a fetch has reported finished the rows delivered are all the in-range entries, or the first `limit` of them |
| Clear.ClearRange | binding.cc:1092-1118 | with `limit` -1, `db_clear` removes exactly the admitted keys, except those starting with a million 0xFF bytes when there is no upper bound |
| Clear.Scan | binding.cc:1123-1127 | the limit path iterates over exactly the admitted entries with the caller's limit |
| Clear.Gather | binding.cc:1134-1141 | one chunk collects one key per row it passes; its byte count grows only if it took a row, and does grow when the first row it took has a non-empty key |
| Clear.GatherCounted | binding.cc:1134-1141 | a chunk never takes more rows than the limit allows, and a chunk that ends empty under the byte budget has used up the quota |
| Clear.GatherKeys | binding.cc:1134-1141 | a chunk's keys are the keys of the rows it passed, in order |
| Clear.RoundsAsWritten | binding.cc:1133-1154 | the as-written loop only ever adds deletes to what was already written |
| Clear.RoundsKeys | binding.cc:1133-1154 | the corrected loop writes the keys of exactly the first `limit` admitted entries in iteration order |
| Clear.ClearAsWritten | binding.cc:1119-1163 | the limit path as written only ever removes entries of the table |
| Clear.Clear | binding.cc:1119-1163 | `db_clear` with the corrected loop only ever removes entries of the table, taking the range path exactly when `limit` is -1 |
| Clear.ClearLimited | binding.cc:1119-1163 | with a limit other than -1, `db_clear` removes exactly the first `limit` admitted entries in iteration order (all of them for a negative limit) |
| Clear.ClearUnlimited | binding.cc:1119-1163 | a negative limit other than -1 removes every admitted key, without the 0xFF exception of the range path |
| Clear.ClearNone | binding.cc:1119-1163 | a limit of 0 removes nothing |
| Clear.EmptyKeySurvives | binding.cc:1133-1146 | the loop as written leaves an admitted empty key in place where the corrected one removes it |
| Clear.ClearAgrees | binding.cc:1133-1154 | when no key is empty the loop as written and the corrected loop clear the same entries |
| Batch.CountWrites | binding.cc:1395-1468 | each of `batch_put`, `batch_del` and `batch_merge` adds exactly one to `batch_count` |
| Batch.Handle | binding.cc:184-262 | a record gives an entry exactly when it is in the filtered column family (or is a blob and `data` is on), with the fields the options select |
| Batch.KeptRecordsMembers | binding.cc:184-262 | the records the handler keeps are exactly the batch's records that pass the filter |
| Batch.CollectEntries | binding.cc:129-132 | the cache holds one entry per kept record, in batch order, each describing its record |
| Batch.Flatten | binding.cc:149-177 | the array has four slots per entry: the type name, the key, the value, and null |
| Batch.IterateLength | binding.cc:129-177 | without a column filter the array has four slots per record, blobs dropped when `data` is off |
| Batch.RestoreCollect | binding.cc:129-262 | with default options the cache of a single-column batch gives the batch back record for record |
| ChainedBatch.Utf8Ascii | chained-batch.js:37-38 | `Buffer.from` of an ASCII string is its character codes |
| ChainedBatch.ToBuffer | chained-batch.js:37-38 | strings become their UTF-8 bytes; everything else passes through unchanged |
| ChainedBatch.Put | chained-batch.js:24-41 | `put` refuses a null or undefined key first, then a null or undefined value; otherwise it calls `batch_put` with the converted arguments and the options or `{}` |
| ChainedBatch.Del | chained-batch.js:43-53 | `del` refuses exactly a null or undefined key, otherwise calls `batch_del` |
| ChainedBatch.Merge | chained-batch.js:84-101 | `merge` applies the same two checks as `put` in the same order, then calls `batch_merge` |
| ChainedBatch.WritesAppend | chained-batch.js:24-53 | a valid `put`, `del` or `merge` appends exactly one record with the key's and value's bytes in the option's column family, and `length` grows by one |
| ChainedBatch.ToArrayFields | chained-batch.js:103-121 | `toArray` without options lists the same items as iterating with the defaults; `keys: false` leaves every key cell absent and `values: false` every value cell of a non-data item |
| ChainedBatch.ToArrayOptions | chained-batch.js:114-121 | `keys`, `values` and `data` default to true and an explicitly given option overrides its default |
| ChainedBatch.ItemsFlatten | chained-batch.js:103-112 | iterating reads one item per group of four slots, taking type, key and value |
| ChainedBatch.IterateBatch | chained-batch.js:103-121 | iterating a chained batch yields one item per cached entry, in batch order |
| ChainedBatch.IterateRecovers | chained-batch.js:103-121 | with default options, the items of a single-column batch give back every record in order |
| ChainedBatch.Write | chained-batch.js:59-70 | `_write` never throws: a failed native write reaches the callback as its error, a successful one as no error |
| Database.Attach | binding.cc:82-86 | attaching registers the closable and changes nothing else |
| Database.Detach | binding.cc:88-92 | detaching unregisters the closable and changes nothing else |
| Database.AttachDetach | binding.cc:82-92 | attaching a new closable and detaching it restores the database |
| Database.Close | binding.cc:56-80 | closing a database that is not open reports OK, closes nothing and changes nothing; otherwise it closes each attached closable exactly once and no other, empties the registry and columns, and reports the engine's close status |
| Database.CloseTwice | binding.cc:56-80 | a second close after closing an open database closes nothing and reports OK |
| Database.Install | binding.cc:907-912 | the column map afterwards holds exactly the old ids and the ids of the opened handles |
| Database.InstallLast | binding.cc:907-912 | each opened id maps to the name of the last handle carrying it |
| Database.InstallKeeps | binding.cc:907-912 | an id no handle carries keeps its old name |
| Database.Open | binding.cc:774-926 | an open database is not reopened and returns its current columns synchronously without calling back; otherwise the answer goes to the callback: an engine failure changes nothing and calls back with the error, and success opens the database with the returned handles installed and calls back with the columns |
| Database.OpenTwice | binding.cc:780-788 | opening a fresh database calls back with exactly the engine's column families, and opening it again changes nothing and returns the same columns without calling back |
| RocksLevel.Construct | index.js:15-46 | a legacy callback argument is refused first, then a location that is not a non-empty string; a new database starts opening with no columns |
| RocksLevel.GetProperty | index.js:103-116 | a non-string property is a TypeError whatever the status; a string on a database that is not open is refused; otherwise the property is read |
| RocksLevel.CreateColumn | index.js:118-130 | refused unless open; otherwise the new handle joins the columns set, which keeps its insertion order and holds no handle twice |
| RocksLevel.Close | index.js:63-69 | `_close` closes every column in insertion order, then the database |
| RocksLevel.ColumnsClosedFirst | index.js:63-69 | within one `_close`, every column created through `createColumn` is closed exactly once, before the database |
| RocksLevel.RequireOpen | index.js:133-137 | `query` and `updates` proceed exactly when the database is open, and fail with the not-open error otherwise |
| Resources.Start | index.js:139-147 | a resource is created only on an open database, starts open with no fetch pending, and is attached |
| Resources.Next | index.js:149-168 | a closed resource answers at once without a native call; an open one starts a native fetch |
| Resources.Close | index.js:170-195 | `close` settles a pending fetch, runs the native close exactly when not already closed, throws only when that fails without a callback, and always detaches |
| Resources.NextAfterClose | index.js:149-152 | after any `close`, `next` answers with no rows and no native call, and keeps doing so |
| Resources.StartClose | index.js:139-147 | a resource started under a fresh id on an open database and then closed runs its native close and leaves the database's registry as it was |
| Resources.FreshRefuses | index.js:15-46 | a database fresh from the constructor is still opening and refuses `getProperty`, `createColumn`, `query` and `updates` with a not-open error |
| Resources.CloseOnce | index.js:170-195 | a second `close` makes no native call, reports no error and leaves the resource detached |
| Resources.QueryLoopAsWritten | index.js:198-208 | the query generator as written yields at most once per answer it awaits |
| Resources.QueryLoop | index.js:198-208 | the corrected query generator yields only batches with rows, each carrying the sequence captured at creation |
| Resources.QueryAsWrittenSpins | index.js:198-208 | once its query is closed, the generator as written yields undefined rows for every `next` and never returns |
| Resources.QueryReturnsWhenClosed | index.js:198-208 | the corrected generator returns at the first answer from a closed query |
| Resources.QueryLoopsAgree | index.js:198-208 | on answers from a query that stays open, the generator as written and the corrected one behave the same |
| Resources.QueryLoopYields | index.js:198-211 | the query generator yields every batch up to and including the first finished one, each with the sequence captured at creation, and raises the first failure |
| Resources.Finally | index.js:209-211 | a generator that has returned or raised has closed its resource without a callback, so the resource is closed and detached and a failing native close surfaces only as a throw; one still waiting has not closed it |
| Resources.GeneratorsClose | index.js:198-211 | for every sequence of answers on which the query or updates generator ends, the resource ends closed and detached, the native close ran exactly when it was still open, and a failure of it is thrown |
| Resources.ClosedQueryEnds | index.js:198-211 | a query closed from outside ends the corrected generator at the next answer with nothing yielded, and its `finally` makes no second native close |
| Resources.UpdatesLoop | index.js:275-286 | the updates generator yields at most once per answer it awaits |
| Resources.UpdatesLoopYields | index.js:275-286 | the updates generator yields every answer with rows in order, with its own sequence, and ends at the first answer without rows or the first failure |

## Left out

- Node-API argument conversion (`GetValue`, `GetProperty`, `Convert` of
  `util.h`) is not part of this model; a JavaScript value that is neither a
  string nor a Buffer is not turned into bytes, and a missing field of a
  batch entry is the `Absent` cell rather than what `Convert` produces for
  it. When the sizes or the data vector is empty, `db_get_many` and
  `iterator_nextv` pass `undefined` instead of a buffer (binding.cc:1041-1055,
  1362-1376); `ResultBuffer.Encoded` and `Cursor.NextV` give an empty sequence
  there.
- Key and value encodings (`keyEncoding`/`valueEncoding`): array slots and
  fetched rows are bytes; the utf8 string form is not modelled.
- `runAsync`, threads, mutexes, the environment cleanup hook and finalizers:
  every asynchronous native call is modelled as completing in one step.
- Snapshots and tailing iterators: an iterator reads the table as it was
  when the iterator was created; `fillCache`, `ignoreRangeDeletions`,
  `lowPriority` and other tuning options have no effect in the model.
- The option parsing of `db_open` (column descriptors, block cache, WAL
  settings, merge operators) and `fs.mkdir` in `_open`: the engine's open is
  a parameter returning handles or an error.
- Column names in `db_open`'s result object are the map from column id to
  name; two columns with the same name collapsing into one property is not
  modelled.
- The `int32_t` truncation of `limit` and `highWaterMarkBytes` and the
  `int32_t` sizes of the result buffer: integers are unbounded.
- Engine failures inside `db_clear`'s limit path (`it.Status()`, a failed
  `Write`) and iterator status errors in `iterator_nextv`: the engine never
  fails there in the model.
- The `Empty` operation of `BatchEntry` is never produced by the handler
  callbacks and is left out.
- `batch_clear`, `batch_write` and `_writeSync` beyond `_write`'s error
  handling; the write of a batch to the engine is a parameter of
  `ChainedBatch.Write`.
- ChainedBatch.Write: `_write` and `_writeSync` call
  `binding.batch_write_sync` (chained-batch.js:63, 73), which binding.cc does
  not export (it exports `batch_write`, binding.cc:1481, 1585); calling it
  would throw a TypeError, which the try/catch hands to the callback. The
  model takes the outcome of that call as the `native` parameter, so the
  TypeError is one `Fail` and the `Pass` branch assumes a binding that
  provides the function.
- RocksLevel.ColumnsClosedFirst: `_close` never empties the columns set
  (index.js:63-69), so after a reopen a second `_close` closes the old
  handles again; "exactly once" holds per `_close`.
- Iterator objects of `iterator.js`, `cache.js`, `db_get`, `db_put`,
  `db_del`, `batch_do`, `column_init`, `column_close`, `updates_init`,
  `updates_next`, `updates_close`, `iterator_get_sequence` and
  `db_get_property`: these are not part of this model; their results enter
  as parameters (a column handle, the answers a resource's `next`
  resolves to, the sequence number).
- `Query.next` fetches 1000 rows at a time (index.js:154); the answers it
  resolves to are a parameter of the generator loops, so the count is not
  modelled there, while `Cursor.NextV` takes any count.
- ChainedBatch.Utf8Ascii: `Buffer.from` is modelled on Unicode scalar
  values; lone UTF-16 surrogates, which Node replaces with U+FFFD, are not
  modelled.
- Cursor.DoneStaysDone: a fetch after one that finished because the engine
  iterator ran out steps that invalid iterator again (binding.cc:1331-1332,
  which calls `Next` at binding.cc:370-377); the engine leaves that
  undefined, and the model keeps the cursor exhausted instead.
- Cursor.Open: `highWaterMarkBytes` is read as an `int32_t` (binding.cc:1224-1225)
  and handed on as a `size_t` (binding.cc:438), so a negative value wraps to
  nearly `2^64` (`Cursor.SizeT`); the worker then asks `state.data.reserve` for
  that many bytes (binding.cc:1311), which cannot succeed. The model keeps the
  wrapped mark, under which no fetch stops on bytes, and does not model the
  failed allocation.
- Cursor.DrainInOrder: fetches after the one that finished on an exhausted
  iterator rely on the same choice as `Cursor.DoneStaysDone` and are not a
  promise of the engine.
- RocksLevel.Construct: `binding.db_init()` is called with no argument
  (index.js:44) although `db_init` reads its first argument as a location
  string or a bigint and throws otherwise (binding.cc:484-517); the model
  assumes a binding that accepts the call and creates the native database.
- Database.Open: `_open` passes the context, the location, the options and
  the callback (index.js:56, 59) while `db_open` reads three arguments with
  the options second (binding.cc:774-792); the model takes the options
  parsing as a parameter and the callback as the reply, so the argument
  order is not modelled.
- Resources.QueryLoopYields: `iterator_nextv` calls back with
  `(err, sizes, data, finished)` (binding.cc:1359-1378) while `Query.next`
  reads `(err, rows, finished)` (index.js:154), which would take the data
  buffer for `finished`; the generator loops are stated over answers that
  already carry rows and `finished` as index.js means them.
- Resources.Close: the `process.nextTick` deferral of the callback is not
  modelled; the report is what the callback receives.

## Findings

| source | as written | input that shows it | evidently intended | confidence | as-written member | corrected member |
|---|---|---|---|---|---|---|
| binding.cc:1133-1146 | the chunk loop of `db_clear`'s limit path stops when a chunk read zero bytes, and drops that chunk without writing it | a database holding only the empty key, cleared with `limit: 1`: the chunk holds one delete of the empty key but `bytesRead` is 0 | stop when the chunk collected no keys, so an empty key is deleted like any other | not executed | Clear.ClearAsWritten (shown by Clear.EmptyKeySurvives) | Clear.Clear (Clear.ClearLimited, Clear.ClearAgrees) |
| index.js:198-208 | the `query` generator loops until an answer has `finished` set, but a closed `Query` answers `{}` to every `next`, whose `finished` is undefined | close the database (which closes every attached resource) while a consumer is iterating a query: each further step yields `{ rows: undefined, sequence: undefined }` and the loop never returns | return when the answer has no rows, as the `updates` generator does | not executed | Resources.QueryLoopAsWritten (shown by Resources.QueryAsWrittenSpins) | Resources.QueryLoop (Resources.QueryReturnsWhenClosed, Resources.QueryLoopsAgree) |
