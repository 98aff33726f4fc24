# bitcask-lite in Dafny

A model of the core of bitcask-lite, a key-value store that serves
`/get` and `/set` over HTTP and keeps its data Bitcask-style:

- Every `Set` appends one record, `expire,len(key),len(value),key,value,`,
  to the current log file.
- The log rolls to a new file when the record would take the current file
  to its capacity (32 MiB by default).
- An in-memory *keydir* maps each live key to an `Item`. The item gives the
  key's file, its expiry (Unix milliseconds), and the position and length of
  its value.
- `StreamGet` reads the value back from the item, and evicts the key once it
  has expired.
- `CreateLogStore` rebuilds the keydir at start-up. It parses every log file
  in name order and merges each file's keys over the keys of the files
  before it.
- A key is deleted by writing it with an expiry that has already passed.
- The keydir is a sharded map: 128 maps, with each key in the shard its
  32-bit FNV-1 hash selects.

The project has these modules:

- `Wrappers` holds `Option` and `Result`.
- `Decimal` has Go's `fmt.Sprintf("%d")` and `strconv.Atoi` on bytes, and
  proves that `Atoi` reads back every integer `%d` writes.
- `FileNames` has Go's string order and the sort of the directory listing.
- `ConcurrentMaps` has `fnv32` and `getShard`, and the class
  `ConcurrentMap` over an array of shard maps. A ghost `Contents` is the map
  the shards represent together.
- `LogCodec` holds the record format and `parseLogFile`. The parser is a
  method with a loop, proved equal to the specification function
  `ParseSpec`. `ParseSpec` reads the records (`Records`) and applies them in
  order (`Index`). This module proves that what `Set` writes, `parseLogFile`
  reads back.
- `Store` is the class `LogStore`, with `Set`, `StreamGet`,
  `CreateLogStore` and the load order.
- `Server` holds the handlers as functions from a request, and from the
  store's answer to it, to a response. It also has `getEnv`, and two methods
  that run a `/set` and then a `/get` through a store.

What the server offers:

- `main.go` registers only `/get` and `/set` (main.go:19-20). There is no
  delete route: a key is deleted by a `/set` whose `?expire` has passed
  (`Server.ExpiredSetThenGet`).
- Every write persists to a log file before the keydir changes.
- Besides 400 and 404, the handlers answer 500 when the store fails
  before writing anything (main.go:34-37 and 81-85), or when the request
  body cannot be read.

## Model

| member | source | states |
|---|---|---|
| Decimal.FormatInt | logstore.go:80 | a formatted integer is non-empty and holds no comma, so it never ends a field early |
| Decimal.Atoi | logstore.go:158 | `strconv.Atoi` accepts a field only when it is non-empty, with an optional sign followed by at least one digit and nothing but digits; a leading minus gives a value at most 0, otherwise at least 0 |
| Decimal.DigitsValue | logstore.go:158 | the digits of a field have a value exactly when every byte of it is a decimal digit |
| Decimal.AtoiFormatInt | logstore.go:158 | `strconv.Atoi` reads back every 64-bit integer that `%d` formats |
| Decimal.AtoiShift | logstore.go:158 | `Atoi` applied to a field of the file depends only on that field's bytes |
| ConcurrentMaps.Fnv32 | concurrentmap.go:67-76 | the loop computes the FNV-1 hash of the key: multiply by 16777619 with wrap-around at 2^32, then xor in the byte, starting from 2166136261 |
| ConcurrentMaps.FnvFromAppend | concurrentmap.go:67-76 | hashing a concatenation is hashing the second part from the hash of the first |
| ConcurrentMaps.Fnv1KnownValues | concurrentmap.go:67-76 | the hash is FNV-1 (multiply, then xor) and not FNV-1a: the published values for "" and "a" |
| ConcurrentMaps.ShardIndex | concurrentmap.go:63-65 | the shard index is always below 128 |
| ConcurrentMaps.ConcurrentMap.constructor | concurrentmap.go:17-26 | always 128 empty shards and an empty map, whatever shard count is requested |
| ConcurrentMaps.ConcurrentMap.Set | concurrentmap.go:37-40 | binds the key and leaves every other binding; each key stays in its own shard |
| ConcurrentMaps.ConcurrentMap.MSet | concurrentmap.go:43-48 | the result is the old map overridden by `data`; keys outside `data` keep their bindings |
| ConcurrentMaps.ConcurrentMap.Get | concurrentmap.go:51-55 | reports a value exactly when the key is bound, and then the value bound to it |
| ConcurrentMaps.ConcurrentMap.Delete | concurrentmap.go:58-61 | removes only the key; deleting an absent key changes nothing |
| FileNames.SortNames | logstore.go:231-233 | the listing in strictly ascending Go string order, as a permutation of the listing |
| FileNames.InsertSorted | logstore.go:231-233 | inserting a new name keeps a sequence of names ascending |
| FileNames.LessTotal | logstore.go:232 | any two different names are ordered one way or the other |
| LogCodec.FindComma | logstore.go:150 | `ReadBytes(',')` stops at or after the cursor and within the file |
| LogCodec.FindCommaFirst | logstore.go:150 | `ReadBytes(',')` stops at the first comma, or at the end of the file |
| LogCodec.RecordFrom | logstore.go:150-181 | only the expire field may meet the end of the file cleanly; a record that is read ends after the cursor, inside the file |
| LogCodec.RecordFromKey | logstore.go:183-197 | reading the key and skipping the value never ends the file cleanly; a record read ends after the cursor, within the file |
| LogCodec.RecordAt | logstore.go:149-198 | one pass of the loop advances the cursor and leaves the value inside the file |
| LogCodec.Records | logstore.go:149-210 | every record read from a file has its value inside the file |
| LogCodec.ParseSpec | logstore.go:136-212 | every item parsed from a file names that file, and its value lies inside it |
| LogCodec.IndexWithin | logstore.go:199-209 | applying records whose values lie inside the file keeps every item inside the file |
| LogCodec.ReadRecord | logstore.go:150-161 | reading the expire field: io.EOF ends the file and a bad integer is an error, as the specification function says |
| LogCodec.ReadKeySize | logstore.go:163-171 | reading the key-size field, as the specification function says |
| LogCodec.ReadValueSize | logstore.go:173-181 | reading the value-size field, as the specification function says |
| LogCodec.ReadKey | logstore.go:183-197 | reading the key by length and skipping the value by length, as the specification function says |
| LogCodec.ParseLogFile | logstore.go:136-212 | the loop returns exactly what `ParseSpec` says: the records applied in file order, or the first error |
| LogCodec.ParseEnd | logstore.go:150-154 | io.EOF in the expire field ends the parse with the keys built so far |
| LogCodec.ParseFails | logstore.go:155-197 | an error in any record is the error of the whole file |
| LogCodec.ReadEncoded | logstore.go:80-105 | the record `Set` writes is `expire,len(key),len(value),key,` with the numbers in decimal, then the value and a comma; at offset `at` it reads back as its expiry, its key (empty included) and its value size; the value offset is `at` plus the header length, which is what `Set` indexes; the next record starts right after it |
| LogCodec.EncodeLogAppend | logstore.go:94-95 | each `Set` extends the log by exactly its record |
| LogCodec.LayoutAppend | logstore.go:78-105 | the record of one more `Set` lands at the old end of the log |
| LogCodec.ReadLog | logstore.go:149-210 | a run of written records reads back as their layout, followed by whatever comes after them |
| LogCodec.WrittenLogParses | logstore.go:136-212 | a log written by `Set` calls parses into its records applied in order, with no error |
| LogCodec.ReadWrites | logstore.go:150-154 | a log cut inside the expire field of one more record still reads back as the records written |
| LogCodec.ReadTail | logstore.go:150-154 | bytes without a comma after the last record end the file cleanly |
| LogCodec.ExpireNotInteger | logstore.go:158-161 | an expire field that is not an integer makes the parse fail |
| LogCodec.KeySizeNotInteger | logstore.go:168-171 | a key-size field that is not an integer makes the parse fail |
| LogCodec.KeySizeFails | logstore.go:168-171 | once the expire field is read, a key size that `Atoi` rejects is an error |
| LogCodec.ValueSizeNotInteger | logstore.go:178-181 | a value-size field that is not an integer makes the parse fail |
| LogCodec.ValueSizeFails | logstore.go:178-181 | once the expire and key-size fields are read, a value size that `Atoi` rejects is an error |
| LogCodec.FindCommaPrefix | logstore.go:150 | in a file cut short, `ReadBytes(',')` finds the same comma when it lies before the cut, and meets the end of the file otherwise |
| LogCodec.AtoiPrefix | logstore.go:158 | cutting the file after a field does not change what `Atoi` reads from the field |
| LogCodec.TruncatedRecordFails | logstore.go:163-197 | a record `Set` writes, at any offset and cut by the end of the file anywhere after the comma of its expire field, makes the parse fail; only a cut inside the expire field is a clean end |
| LogCodec.CutFails | logstore.go:163-197 | a record at any offset whose fields are read, cut after the expire field and before the record's end, fails: in the key size, the value size, the key or the value |
| LogCodec.TornWriteFails | logstore.go:136-197 | a log of complete records followed by one more record torn after its expire field does not parse: the whole file is an error |
| LogCodec.TruncatedAfterExpire | logstore.go:163-167 | a file that ends inside the key-size field is an error, not a clean end |
| LogCodec.LastFor | logstore.go:199-209 | the last record of a key, if any, is a record of the file with that key and no later record has the key; without one, no record has the key |
| LogCodec.IndexLastWriterWins | logstore.go:199-209 | last writer wins: a key is bound exactly when its last record is live, and then to that record's item; an expired last record deletes it; a key without records keeps its binding |
| Store.GrowsKeepsValue | logstore.go:94-97 | appending never moves or changes a value already indexed |
| Store.AppendedValue | logstore.go:94-105 | after an append, the value sits right after the header and just before the final comma |
| Store.Rolls | logstore.go:80-84 | the log rolls exactly when `end + len(line) + len(value) + 1 >= maxLogFileBytes` |
| Store.SetItem | logstore.go:100-105 | the item names the log file and the expiry, its value position is `end + len(line)`, its size is `len(value)`, and the value and its comma end the record |
| Store.LogStore.NextLogFile | logstore.go:119-127 | the new file is created empty and becomes the log file; no other file changes |
| Store.LogStore.AppendRecord | logstore.go:94-105 | the record is appended to the log file, and the item `Set` builds finds exactly the value in it |
| Store.LogStore.UpdateIndex | logstore.go:107-114 | an item that has expired by `now` deletes its key; any other item is bound to it |
| Store.LogStore.Set | logstore.go:68-117 | rolls exactly when `end + lineLength >= maxLogFileBytes`, and then writes into the new empty file at offset 0; otherwise appends and stays under capacity; indexes `valuePos = end + len(line)` or deletes an expired key; a live key then reads back its value; the keydir stays valid |
| Store.LogStore.StreamGet | logstore.go:35-64 | found exactly when the key is indexed and not expired, and then the value is the bytes at the item's position; an expired item is evicted from the keydir |
| Store.LogStore.constructor | logstore.go:273-279 | the store holds the directory, the log file, the keydir and the capacity it is given, and is valid: the log file is in the directory and every item of the keydir lies inside its file |
| Store.LoadLogFiles | logstore.go:235-242 | each file parsed in sorted order and merged with `MSet` over the keys before it; the first file that fails stops the load with its error |
| Store.LoadStops | logstore.go:237-240 | no file after a file that fails to parse is read |
| Store.OpenLogFile | logstore.go:244-271 | reopens the latest file when it is under capacity; otherwise, or for an empty directory, creates an empty new file |
| Store.CreateLogStore | logstore.go:215-280 | the keydir is the sorted files merged in order, or the first parse error; the log file is the chosen one; the capacity defaults to 32 MiB |
| Store.NamesInDir | logstore.go:236-237 | every sorted name is a file of the directory |
| Store.SetAgreesWithParse | logstore.go:100-114 | offset agreement: reparsing a log after one more record changes the parsed keys exactly as `Set` changes the keydir, `valuePos` included |
| Store.LoadParsesAll | logstore.go:236-241 | a successful load parsed every file without error |
| Store.LoadLaterWins | logstore.go:236-242 | a key takes its item from the last file, in name order, whose parse binds it |
| Store.LoadFromFiles | logstore.go:236-242 | every loaded key comes from some file that binds it |
| Store.OneRecordParses | logstore.go:199-209 | a file holding one record parses into that key's item, or into nothing when the record has expired |
| Store.ReloadKeepsDeletedKey | logstore.go:235-242 | `MSet` only adds: a key deleted by an expired record in a later file comes back after a reload, bound to its item from the earlier file |
| Store.OneFileDropsDeletedKey | logstore.go:206-209 | the same two records in one file leave the key deleted |
| Store.GreatestIsLast | logstore.go:231-246 | in the sorted listing, the greatest name is the last one |
| Store.ChosenOfSorted | logstore.go:244-264 | the file reopened is the greatest name, only while it is under capacity |
| Store.ChosenIsLatest | logstore.go:244-264 | after the sort, the reopened file is the one with the greatest name, and only while it is under capacity; otherwise it is a new file |
| Store.ChosenInEmptyDirectory | logstore.go:265-271 | an empty directory gets a new file |
| Server.Get | main.go:24-49 | 400 with "missing ?key" exactly when the key is empty; 404 exactly when the store did not find it; 500 exactly when the store failed before writing; otherwise 200 with what was written, the whole value when nothing failed |
| Server.ExpireOf | main.go:60-72 | no `?expire` means MaxInt64; otherwise `strconv.Atoi` of the parameter |
| Server.PlanSet | main.go:51-79 | 400 "missing ?key" exactly for an empty key; 400 "?expire must be an integer" exactly for a bad expire; 500 exactly for an unreadable body; otherwise the store is asked to set the key, expiry and body |
| Server.SetResponse | main.go:81-87 | 500 exactly when `Set` failed; otherwise an empty 200 |
| Server.ExpireParamRoundTrip | main.go:65-71 | every 64-bit expiry written in decimal reaches the store unchanged |
| Server.SetThenGet | main.go:51-88 | a `/set` without `?expire`, then a `/get` of the same key, answers 200 with exactly the body that was set, the empty body included |
| Server.ExpiredSetThenGet | main.go:51-88 | a `/set` whose expiry has passed, then a `/get`, answers 200 and then 404 |
| Server.GetEnv | main.go:90-95 | the variable's value when it is set, even if empty; otherwise the fallback |

## Left out

- Locks are not modelled: the shard mutexes, `AccessShard` and `logFileMu`.
  Every operation is one sequential step, so per-key atomicity is not
  stated.
- Failures of the file system are not modelled: `Stat`, `Write`, `Open`,
  `Seek`, `MkdirAll`, `ReadDir`, `os.Create` and `os.OpenFile`.
  - `Store.LogStore.Set` and `Store.LogStore.StreamGet` never fail in the
    model.
  - The handlers take a store failure as an input: `Lookup.LookupFailed`
    for `/get` and `SetResponse(false)` for `/set`.
- Reads are exact. A short `Read` of the key from the bufio reader, which
  Go does not retry, is not modelled. A key or value cut off by the end of
  the file is an error (`ShortKey`, `ShortValue`). Go does not always fail
  there: on the file `9223372036854775807,1,-1,k` its `Read` returns the one
  byte `k` without an error and `Discard(0)` succeeds, so Go indexes the
  key `k` with `valuePos` 26 and `valueSize` -1, where the model reports
  `ShortKey`.
- A negative key size makes Go panic, in `make` or in the slice after the
  read. The model reports it as the error `BadKeyLength`. A key size of
  MaxInt64, where `keySize+1` wraps to a negative length, or one beyond
  what `make` can allocate, also makes Go panic at `make`. The model
  reports `ShortKey` for these, as the file is shorter than the key.
- `time.Now()` is a parameter `now`. `Set` and `StreamGet` read the clock
  once. `parseLogFile` reads it once per record, so one load of the source
  can judge records at different instants. The model judges a whole load
  at one `now`.
- `createLogFile`'s name (a timestamp and 16 random characters) is a
  parameter `freshName`, assumed to name no existing file.
  `rndFileString` is not part of this model.
- Paths are file names: `path.Join(logDir, name)` with one directory is
  identified with `name`, and `Item.file` holds the name.
- Files are byte sequences in a map, not `*os.File` handles.
  - `defer Close` is not modelled.
  - The fresh file is empty because `os.Create` truncates.
- `CreateLogStore` builds its keydir with `NewMapOfMaps` and `MSet` of a
  `MapOfMaps`. That type is not part of this model, and
  `ConcurrentMaps.ConcurrentMap`, which has the same operations, stands in
  for it.
- The `opts` argument of `CreateLogStore` is `Option<int>` (`Capacity`):
  None means `MAX_LOG_FILE_BYTES`.
- `StreamGet` copies the value into an `io.Writer`. The model returns the
  bytes instead.
- `main()` is not modelled: `http.HandleFunc`, `ListenAndServe`,
  `log.Fatalf` and `log.Printf`, and the defaults `./store` and port
  `8000`. Query parsing by net/http is also left out: the handlers receive
  the query values as bytes.
- FileNames.FileName is a `string`, a sequence of Unicode code points,
  and `FileNames.Less` compares code points. Go compares the bytes of a
  name, which need not be valid UTF-8. The two orders agree on ASCII
  names, which is all `createLogFile` produces.
- LogCodec.ReadEncoded requires `|key|` and `|value|` to be at most
  MaxInt64. A Go `len` always is, so no record `Set` can write is excluded.
- Store.LogStore.Set does not state outright that every other key keeps
  its value bytes. That follows from its `Grows` postcondition and
  `Store.GrowsKeepsValue`.
