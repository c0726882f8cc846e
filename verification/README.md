# Versioned keys of the RocksDB index benchmark

This project is a Dafny model of the versioned-key layer of the RocksDB
benchmark in `index/rocksdb/`, with proofs of its properties. The layer has
five parts.

- **Byte codec** (`ByteCodec`, `Util`). The fixed-width `memcpy` encoders
  of `int` and `long long`. Native order is fixed as little-endian two's
  complement, with round trips in both directions.
- **Ordered store and point-in-time lookup** (`ByteOrder`, `Store`,
  `PerfTest`).
  - The store is a finite map from byte strings to byte strings, ordered by
    RocksDB's bytewise comparator. `LexLe` is unsigned lexicographic order
    and is proved a total order.
  - `SeekForPrev` lands on the greatest key at or before the target.
  - `getUniqueRowId` returns -1 when no key qualifies. Otherwise it
    returns the row id in the value of the key it lands on, without checking
    that this key belongs to the record it was asked for. The iterator is
    taken to be invalid only when nothing qualifies (see "Left out").
- **Worker loops** (`PerfTest`, `SequentialLoad`). Each worker runs as a
  sequential loop.
  - The read-modify-write loop of `threadWorker` takes key `i % id_range`,
    reads the old row id, writes `oldRow + 1` (or a random draw on a miss)
    as a new version, and bumps the counter. `MultiThreadPerf` runs worker
    `i` with `indexId = i`.
  - The bulk load of `fillSequentialData` writes one entry per record
    `(t, key)` at timestamp 0.
  - The wall clock and the random generator are oracles passed in as
    functions. Counter totals are stated as products.
- **Store opening** (`Factory`). Covers column-family name normalisation,
  the per-strategy column-family options, and handle collection.
  `ListColumnFamilies` and `DB::Open` are parameters whose outcomes the
  model takes as given.
- **Configuration** (`Config`). Covers the printed strategy names, the
  preset table, and the `Config(scale, ts_type)` constructor with its
  database path.

`Counting` is generic. It counts the distinct values of a two-argument
function that has a left inverse, and it tabulates a function over
`0 .. n - 1`. `Arithmetic` holds magnitudes, loop counts and two product facts.

Bytes are the integers `0 .. 255` (`ByteCodec.byte`), not `bv8`. A byte is
only ever stored, compared and decoded arithmetically, never shifted or
masked, so the subset type states the same thing with plain arithmetic.

## Model

| member | source | states |
|---|---|---|
| ByteCodec.LittleEndianRoundTrip | index/rocksdb/rocksdb_test.cc:41-43 | decoding the little-endian bytes of `u` at any width that holds `u` returns `u` |
| ByteCodec.FromLittleEndianRoundTrip | index/rocksdb/rocksdb_test.cc:63-65 | every byte string is the little-endian image, at its own width, of the number it decodes to |
| ByteCodec.TwosComplementRoundTrip | index/rocksdb/rocksdb_test.cc:41-43 | reading back a signed value's two's-complement pattern returns the value |
| ByteCodec.EncodeInt32 | index/rocksdb/rocksdb_test.cc:41-42 | the native image of an `int` is 4 bytes that decode back to it |
| ByteCodec.EncodeInt64 | index/rocksdb/rocksdb_test.cc:43 | the native image of a `long long` is 8 bytes that decode back to it |
| ByteCodec.DecodeInt32RoundTrip | index/rocksdb/rocksdb_test.cc:41-42 | every 4-byte string is the image of the `int` it decodes to, so the two directions are inverse |
| ByteCodec.DecodeInt64RoundTrip | index/rocksdb/rocksdb_test.cc:63-65 | every 8-byte string is the image of the `long long` it decodes to, so the `memcpy` read loses nothing |
| ByteCodec.Int32FirstByte | index/rocksdb/rocksdb_test.cc:41-42 | the first byte of an `int`'s native image is the value modulo 256, negative values included |
| ByteCodec.WrapInt64 | index/rocksdb/rocksdb_test.cc:77 | the conversion of `rng()` and of `oldRow + 1` to `long long`; its meaning is stated by `WrapInt64Congruent` |
| ByteCodec.WrapInt64Congruent | index/rocksdb/rocksdb_test.cc:77 | the conversion to `long long` keeps in-range values and is congruent to its input modulo 2^64 |
| ByteOrder.LexLe | index/rocksdb/rocksdb_test.cc:57 | the bytewise comparator, unsigned byte by byte with a proper prefix first; `LexLeReflexive`, `LexLeAntisymmetric`, `LexLeTransitive` and `LexLeTotal` make it a total order |
| ByteOrder.LexLeReflexive | index/rocksdb/rocksdb_test.cc:57 | every key sorts at or before itself under the bytewise comparator |
| ByteOrder.LexLeAntisymmetric | index/rocksdb/rocksdb_test.cc:57 | two keys that each sort at or before the other are equal |
| ByteOrder.LexLeTransitive | index/rocksdb/rocksdb_test.cc:57 | the bytewise order is transitive |
| ByteOrder.LexLeTotal | index/rocksdb/rocksdb_test.cc:57 | any two keys are comparable, so the order is total |
| ByteOrder.LexLeCommonPrefix | index/rocksdb/rocksdb_test.cc:38-45 | a shared prefix does not change how two keys compare |
| Store.FloorUnique | index/rocksdb/rocksdb_test.cc:57 | at most one key is the greatest one at or before a target |
| Store.Floor | index/rocksdb/rocksdb_test.cc:57-61 | the seek result is absent exactly when every key sorts after the target, and otherwise it is the greatest key at or before the target |
| Store.SeekForPrev | index/rocksdb/rocksdb_test.cc:57-61 | the scan finds nothing exactly when no key is at or before the target, and otherwise finds the greatest such key, which is `Floor` |
| PerfTest.EncodeKey | index/rocksdb/rocksdb_test.cc:38-45 | the key is 16 bytes, with `indexId` read back at offset 0, `key` at 4 and `timestamp` at 8 |
| PerfTest.EncodeKeyInjective | index/rocksdb/rocksdb_test.cc:38-45 | distinct `(indexId, key, timestamp)` triples never share a key |
| PerfTest.DecodeKeyRoundTrip | index/rocksdb/rocksdb_test.cc:38-45 | every 16-byte string is the key of the fields read back from it |
| PerfTest.EncodeValue | index/rocksdb/rocksdb_test.cc:47-65 | the value is 8 bytes, and the lookup's `memcpy` read returns the original row id |
| PerfTest.DecodeRowId | index/rocksdb/rocksdb_test.cc:63-65 | the `memcpy` read of a value's first 8 bytes as a `long long`; `ByteCodec.DecodeInt64RoundTrip` shows those bytes are the image of the row id read |
| PerfTest.WellFormedReadable | index/rocksdb/rocksdb_test.cc:63-65 | when every stored value holds at least 8 bytes, whatever entry a seek lands on can be read |
| PerfTest.RowIdAt | index/rocksdb/rocksdb_test.cc:53-67 | the lookup result is -1 when no stored key sorts at or before the seek key, and otherwise the row id of the greatest such key |
| PerfTest.GetUniqueRowId | index/rocksdb/rocksdb_test.cc:53-67 | returns -1 when no stored key is at or before `encodeKey(indexId, key, ts)`; otherwise it returns the row id decoded from the value of the greatest such key, whichever record that key belongs to |
| PerfTest.LookupAtWrittenKey | index/rocksdb/rocksdb_test.cc:56-66 | a lookup at exactly the key of a stored version returns that version's row id |
| PerfTest.LookupCrossesRecords | index/rocksdb/rocksdb_test.cc:56-66 | with no prefix check, a lookup for a record of worker `i2` returns the row id of worker `i1`'s entry when that entry is the only one and `i1`'s low byte is smaller than `i2`'s |
| PerfTest.SameWorkerCrossesRecords | index/rocksdb/rocksdb_test.cc:56-76 | within one worker, a lookup for `key` returns the row id of another key's entry when that entry is the only one and its key has a smaller low byte; so from iteration 1 the lookup for key 1 lands on key 0's entry |
| PerfTest.SmallerFirstByteSortsFirst | index/rocksdb/rocksdb_test.cc:38-45 | a key whose `indexId` has a smaller low byte (its value modulo 256, for either sign) sorts before the other key, whatever the other fields |
| PerfTest.KeyFirstByte | index/rocksdb/rocksdb_test.cc:41 | the first byte of a key is its `indexId` modulo 256, for either sign; so an `indexId` in [0, 256) is itself the first byte |
| PerfTest.StoredMinusOneLooksLikeMiss | index/rocksdb/rocksdb_test.cc:56-77 | a stored row id of -1 is found and read back as -1, the value a miss returns, so the `oldRow == -1` test cannot tell the two apart |
| PerfTest.LittleEndianHidesEarlierVersion | index/rocksdb/rocksdb_test.cc:43-61 | with a little-endian timestamp, a version written at an earlier `t1` whose low byte exceeds `t2`'s is invisible to a lookup at `t2` |
| PerfTest.CppRem | index/rocksdb/rocksdb_test.cc:74 | C++ `%` on `int`, truncating toward zero; its meaning is stated by `CppRemIsRemainder` |
| PerfTest.CppRemIsRemainder | index/rocksdb/rocksdb_test.cc:74 | C++ `%` completes truncating division, is smaller than the divisor in magnitude, and takes the dividend's sign |
| PerfTest.NextRow | index/rocksdb/rocksdb_test.cc:77 | the next row id from the old one and a draw; its meaning is stated by `NextRowSpec` and `NextRowCanBeMinusOne` |
| PerfTest.NextRowSpec | index/rocksdb/rocksdb_test.cc:77 | on a miss the new row is the draw's 64 bits read as signed; otherwise it is `oldRow + 1`, wrapping from the largest to the smallest `long long` |
| PerfTest.NextRowCanBeMinusOne | index/rocksdb/rocksdb_test.cc:77 | both branches can produce -1: a draw of all one bits, and the successor of -2 |
| PerfTest.OpKeyIsOwn | index/rocksdb/rocksdb_test.cc:79 | the key an iteration writes lies in its worker's partition (its first 4 bytes are the worker's `indexId`) |
| PerfTest.Misses | index/rocksdb/rocksdb_test.cc:77 | the random draws counted are at most the iterations |
| PerfTest.ApplyOps | index/rocksdb/rocksdb_test.cc:79-81 | putting iterations' entries loses no existing key and keeps every value readable |
| PerfTest.ApplyOpsSnoc | index/rocksdb/rocksdb_test.cc:79-81 | one more iteration puts exactly its own entry, `encodeKey(indexId, key, ts)` mapped to `encodeValue(newRow)`, on top of the earlier ones |
| PerfTest.MissesSnoc | index/rocksdb/rocksdb_test.cc:77 | one more iteration draws once exactly when its lookup gave -1 |
| PerfTest.ApplyOpsStaysInPartition | index/rocksdb/rocksdb_test.cc:79-81 | a worker adds keys only in its own partition and changes no entry of another partition |
| PerfTest.IterateKeepsInvariant | index/rocksdb/rocksdb_test.cc:73-84 | a step that keeps an invariant and appends one record keeps it for `n` steps and appends `n` records |
| PerfTest.IteratePrefix | index/rocksdb/rocksdb_test.cc:73-84 | iterating further only appends records and never changes earlier ones |
| PerfTest.RecordReached | index/rocksdb/rocksdb_test.cc:79-81 | recording an iteration's put keeps the worker's store equal to the initial store with each record's entry put in order |
| PerfTest.NextOp | index/rocksdb/rocksdb_test.cc:74-77 | the record of the next iteration (key, clock reading, row found, row written); `RunIteration` states it per iteration |
| PerfTest.Record | index/rocksdb/rocksdb_test.cc:79-83 | the state after an iteration's new version is put and its record kept, with one more draw on a miss; its meaning is stated by `RecordReached` |
| PerfTest.Iteration | index/rocksdb/rocksdb_test.cc:74-83 | one loop iteration: `NextOp`'s record, then `Record`; its meaning is stated by `IterationReached` and `RunNext` |
| PerfTest.IterationReached | index/rocksdb/rocksdb_test.cc:74-81 | one loop iteration from a reachable state reaches a state with exactly one more record |
| PerfTest.StepAppends | index/rocksdb/rocksdb_test.cc:73-84 | every iteration keeps the state reachable and appends exactly its own record |
| PerfTest.Run | index/rocksdb/rocksdb_test.cc:73-84 | the state after the first `n` iterations of a worker; `RunStore`, `RunIteration` and `RunPrefix` state what it holds |
| PerfTest.RunNext | index/rocksdb/rocksdb_test.cc:73 | iteration `n + 1` starts from the state left by the first `n` |
| PerfTest.RunStore | index/rocksdb/rocksdb_test.cc:73-84 | after `n` iterations, `n` records exist, the store is the initial one with their entries put in order, and one draw was made per miss |
| PerfTest.RunWellFormed | index/rocksdb/rocksdb_test.cc:73-84 | every value stays at least 8 bytes long, so every later lookup can read its entry |
| PerfTest.RunPrefix | index/rocksdb/rocksdb_test.cc:73-84 | the first `m` records of a longer run are those of the run of `m` iterations |
| PerfTest.RunIteration | index/rocksdb/rocksdb_test.cc:73-81 | iteration `j` uses key `j % id_range` (in `[0, id_range)` when `id_range > 0`) and clock reading `j`; it reads the row id a lookup finds in the store left by the earlier iterations, and writes `NextRow` of it using the next unused draw |
| PerfTest.WorkerIteration | index/rocksdb/rocksdb_test.cc:74-81 | the loop body computes the iteration's record and puts exactly its entry, and stored values stay readable |
| PerfTest.ThreadWorker | index/rocksdb/rocksdb_test.cc:69-85 | `ops_per_thread` iterations (none if it is not positive) add that many to the counter; the final store is the initial one with each iteration's entry put, and the records are those of the run |
| PerfTest.WorkerExtendsPartitions | index/rocksdb/rocksdb_test.cc:95-99 | after worker `i`, on top of workers `0 .. i-1`, only partitions `0 .. i` differ from the initial store |
| PerfTest.RunWorker | index/rocksdb/rocksdb_test.cc:95-99 | running worker `i` adds `ops_per_thread` to the shared counter and extends the changed partitions to `0 .. i` |
| PerfTest.MultiThreadPerf | index/rocksdb/rocksdb_test.cc:88-108 | the total is `thread_num * ops_per_thread` and is positive exactly when both are; no entry is lost, and new or changed entries lie only in the workers' partitions |
| SequentialLoad.EncodeKey | index/rocksdb/rocksdb_load.cpp:44-59 | the key is 16 bytes for `retina` and 8 bytes for `udt`, and it is empty exactly for any other strategy |
| SequentialLoad.EncodeKeyFields | index/rocksdb/rocksdb_load.cpp:45-56 | `indexId` and `key` read back at offsets 0 and 4; for `retina` the timestamp also reads back at offset 8 |
| SequentialLoad.RetinaKeyIsPerfKey | index/rocksdb/rocksdb_load.cpp:45-50 | the `retina` key is the read-modify-write test's 16-byte key |
| SequentialLoad.UdtKeyIsRetinaPrefix | index/rocksdb/rocksdb_load.cpp:51-56 | the `udt` key is the first 8 bytes of the `retina` key, so the timestamp is not embedded |
| SequentialLoad.EncodeKeyInjective | index/rocksdb/rocksdb_load.cpp:44-56 | for `retina` and `udt`, distinct `(indexId, key)` pairs at the same timestamp get distinct keys |
| SequentialLoad.EncodeValue | index/rocksdb/rocksdb_load.cpp:61-65 | the value is 8 bytes that decode back to the row id |
| SequentialLoad.EncodeValueAgrees | index/rocksdb/rocksdb_load.cpp:61-65 | the load's value equals the read-modify-write test's value and the buffer `longToSlice` fills, and the lookup's read returns the row id |
| SequentialLoad.LoadPut | index/rocksdb/rocksdb_load.cpp:78-84 | the write of record `(t, key)`; `LoadPutReadsBack` states what it puts |
| SequentialLoad.LoadPutReadsBack | index/rocksdb/rocksdb_load.cpp:78-84 | a load write's value holds the record's key as row id, and its key names the record (for `retina`, at timestamp 0); the timestamp slice travels beside the key exactly when the strategy is not `retina` |
| SequentialLoad.FillWorker | index/rocksdb/rocksdb_load.cpp:77-86 | worker `t` issues, in key order, the write of record `(t, key)` for each `key` in `[0, id_range)`, and adds `id_range` to the counter |
| SequentialLoad.FillSequentialData | index/rocksdb/rocksdb_load.cpp:68-91 | there is one worker per thread; worker `t` issues its `id_range` writes with the 8-byte image of timestamp 0, and the counter ends at `thread_num * id_range` |
| SequentialLoad.SpawnFillWorkers | index/rocksdb/rocksdb_load.cpp:74-90 | the thread loop yields one write list per thread, list `t` being worker `t`'s writes, and the counter ends at `thread_num * id_range` |
| SequentialLoad.SpawnFillWorker | index/rocksdb/rocksdb_load.cpp:75-87 | the thread body of worker `t` issues exactly worker `t`'s writes and adds `id_range` to the counter |
| SequentialLoad.LoadWorkersStep | index/rocksdb/rocksdb_load.cpp:74-88 | starting worker `t` after workers `0 .. t-1` appends exactly worker `t`'s writes |
| SequentialLoad.LoadWorkersIndex | index/rocksdb/rocksdb_load.cpp:74-88 | after `m` workers there are `m` write lists, and list `t` is worker `t`'s writes |
| SequentialLoad.KeyRecordRoundTrip | index/rocksdb/rocksdb_load.cpp:44-56 | the record `(indexId, key)` reads back from its `retina` or `udt` key |
| SequentialLoad.LoadedKeysCount | index/rocksdb/rocksdb_load.cpp:44-79 | for `retina` and `udt`, the load writes `thread_num * id_range` distinct keys |
| SequentialLoad.LoadPutKeyIsLoaded | index/rocksdb/rocksdb_load.cpp:74-79 | the key of every load write lies among the loaded keys |
| SequentialLoad.LoadWritesRecords | index/rocksdb/rocksdb_load.cpp:74-79 | in the write lists of the load, position `k` of worker `t` puts the key of record `(t, k)` |
| SequentialLoad.WrittenKeysAreLoaded | index/rocksdb/rocksdb_load.cpp:74-79 | every key the write lists put is the key of a loaded record |
| SequentialLoad.LoadedKeysAreWritten | index/rocksdb/rocksdb_load.cpp:74-79 | every loaded record's key is put by some write list |
| SequentialLoad.LoadWritesLoadedKeys | index/rocksdb/rocksdb_load.cpp:44-79 | the keys `fillSequentialData` writes are exactly the loaded keys, and for `retina` and `udt` there are `thread_num * id_range` of them |
| SequentialLoad.UnlistedLoadsOneKey | index/rocksdb/rocksdb_load.cpp:58-79 | under an unlisted strategy every write goes to the single empty key |
| Counting.Image2Count | index/rocksdb/rocksdb_load.cpp:74-79 | a function that has a left inverse takes `m * n` distinct values on an `m` by `n` block of records |
| Counting.RowImageCount | index/rocksdb/rocksdb_load.cpp:77-79 | one row of `n` records takes `n` distinct values |
| Counting.Image2AddRow | index/rocksdb/rocksdb_load.cpp:74 | the values on `m` rows are those on the first `m - 1` rows plus those of the last row |
| Counting.NewRowIsDisjoint | index/rocksdb/rocksdb_load.cpp:74-79 | no value of the last row is taken on an earlier row |
| Counting.TabulateIndex | index/rocksdb/rocksdb_load.cpp:77-83 | the tabulation of `f` over `0 .. n - 1` has `n` elements, and element `i` is `f(i)` |
| Util.LongToSlice | index/rocksdb/util.h:10-14 | the buffer is 8 bytes, the slice views the whole buffer, and decoding the slice returns the value |
| Util.LongToSliceIgnoresOldBuffer | index/rocksdb/util.h:11-12 | the buffer's earlier length and contents play no part in the result |
| Factory.HasDefault | index/rocksdb/rocksdb_factory.cpp:44-47 | the scan reports `true` exactly when `"default"` is among the names |
| Factory.NormalizedNames | index/rocksdb/rocksdb_factory.cpp:37-48 | a failed listing gives exactly `["default"]`; otherwise the listed names keep their order, and `"default"` is appended exactly when it was absent |
| Factory.NormalizedNamesSet | index/rocksdb/rocksdb_factory.cpp:37-48 | the opened families are the listed ones plus `"default"`, and nothing else |
| Factory.NormalizedNamesIdempotent | index/rocksdb/rocksdb_factory.cpp:44-48 | normalising an already normalised list changes nothing |
| Factory.NormalizeColumnFamilies | index/rocksdb/rocksdb_factory.cpp:37-48 | the normalisation code computes `NormalizedNames` |
| Factory.CfOptionsFor | index/rocksdb/rocksdb_factory.cpp:51-68 | `udt`, and only `udt`, gets the u64-timestamp comparator; `embed_desc`, and only `embed_desc`, gets the 8-byte prefix extractor and the 10-bit bloom filter without whole-key filtering; every family gets a 6 GiB write buffer |
| Factory.CfOptionsForInjective | index/rocksdb/rocksdb_factory.cpp:51-68 | the three strategies give three different option sets |
| Factory.Descriptors | index/rocksdb/rocksdb_factory.cpp:50-70 | there is one descriptor per name, in list order, each with the strategy's options |
| Factory.BuildDescriptors | index/rocksdb/rocksdb_factory.cpp:50-70 | the descriptor loop computes `Descriptors` |
| Factory.DefaultFamilyDescribed | index/rocksdb/rocksdb_factory.cpp:44-70 | the `"default"` family is always among the descriptors, with the strategy's options |
| Factory.DescribedAt | index/rocksdb/rocksdb_factory.cpp:50-69 | the name at any position of the list gets a descriptor with the strategy's options |
| Factory.CreateRocksDB | index/rocksdb/rocksdb_factory.cpp:33-85 | the store is opened with the normalised descriptors. On failure the error is `"Failed to open RocksDB: "` followed by the status, and the handles are untouched; on success the handles are exactly the returned ones, in order |
| Factory.CollectHandles | index/rocksdb/rocksdb_factory.cpp:83-85 | the collected handles are the raw handles, in order |
| Config.TsTypeName | index/rocksdb/config.h:16-24 | each strategy prints a non-empty name that is never the `"unknown"` fallback |
| Config.TsTypeNameInjective | index/rocksdb/config.h:16-24 | the three printed strategy names are pairwise distinct |
| Config.ScaleAndType | index/rocksdb/config.h:64-72 | 10m presets map to scale 10000000 and 1k presets to 1000, and each preset maps to the strategy it names |
| Config.ScaleAndTypeInjective | index/rocksdb/config.h:64-73 | no preset maps to scale 0, so the fallback is never taken, and distinct presets give distinct pairs |
| Config.DecimalRoundTrip | index/rocksdb/config.h:60 | reading the decimal digits of `n` back gives `n` |
| Config.IntToDecimal | index/rocksdb/config.h:60 | the printed integer is non-empty, has no `_`, and starts with `-` exactly when it is negative |
| Config.IntToDecimalInjective | index/rocksdb/config.h:60 | distinct integers print differently |
| Config.MakeConfig | index/rocksdb/config.h:53-62 | 16 threads, 1000000 ops per thread, destroy before start, `id_range = scale`, the given strategy, and a path under `/tmp/rocksdb/` |
| Config.PresetConfig | index/rocksdb/config.h:49-78 | a preset's configuration carries the scale and strategy from the preset table |
| Config.DbPath | index/rocksdb/config.h:59-61 | the path starts with `/tmp/rocksdb/test_` and continues past it; `DbPathInjective` shows it determines the scale and the strategy |
| Config.DbPathInjective | index/rocksdb/config.h:59-61 | `"/tmp/rocksdb/test_" + id_range + "_" + name` determines both the scale and the strategy |
| Config.PresetPathsDistinct | index/rocksdb/config.h:59-72 | distinct presets get distinct database paths |

## Left out

- The source fixes no byte order, since `memcpy` copies the host's native layout. The model fixes little-endian two's complement, the layout of the common little-endian hosts.
- Bytes are integers in `[0, 256)` rather than `bv8`. No code path shifts or masks a byte.
- Real threads and the relaxed `std::atomic` counter are left out. Workers run one after another on the shared store and counter. Puts are confined to the writing worker's partition (`PerfTest.Partitioned`), but lookups are not: a seek can land on an entry of another worker (`PerfTest.LookupCrossesRecords`), so what a worker reads depends on how far the others have got.
- `system_clock::now()` and `mt19937_64` are oracles. `clock(i)` is the reading of iteration `i`, and `rng(n)` is the `n`-th draw.
- Prints, timing, throughput and latency are left out. These are I/O and `double` arithmetic, and they include the `"Opened RocksDB"` message and the `ASSERT_GT` report.
- The gtest fixtures, `SetUp` and `TearDown` are left out. So are `DestroyDB` and the handle and database deletion.
- RocksDB internals are left out.
  - `ListColumnFamilies` and `DB::Open` are parameters whose outcomes are taken as given.
  - The comparator, prefix extractor and bloom filter are option tags. The store model is bytewise, which is the `embed_asc` configuration. Under `udt` the engine orders keys with `BytewiseComparatorWithU64Ts` (`index/rocksdb/rocksdb_factory.cpp:53-54`), and under `embed_desc` the 8-byte prefix extractor (`index/rocksdb/rocksdb_factory.cpp:64`) can change what `SeekForPrev` finds; neither is modelled.
  - Compaction is not modelled.
- The `udt` timestamp the load writes beside its key is recorded in the write, not in any store model. UDT visibility rules are RocksDB internals.
- `initRocksDB` only builds unused `Options` and calls `createRocksDB`, so it is not modelled.
- The DB-wide options of `createRocksDB` are left out. These are `create_if_missing` and `create_missing_column_families`, and they are passed through to `DB::Open`, which is a parameter.
- `index/rocksdb/rocksdb_factory.h` is a declaration only. Its signature disagrees with the definition, and the read-modify-write test's fixture calls it with a path as the header declares. The model follows the definition in `rocksdb_factory.cpp`.
- The `"unknown"` default of the strategy printer is unreachable, because `TsType` has exactly the three enumerators.
- The descending `MAX_INT64 - t` encoding and any forward prefix scan appear in none of the modelled files.
- The load file switches on `ts_type_t::retina`, which the configuration's enumeration does not declare. `SequentialLoad.LoadTsType` is that file's own view: `Retina` for the embedded-timestamp layout, `Udt`, and `Unlisted` for every other value, which yields the empty key.
- The test and load fixtures read `cfg.ops_per_thread` and the other fields without the trailing underscore that `config.h` declares. The model uses one `Config` datatype.
- PerfTest.GetUniqueRowId: requires the entry the seek lands on to hold at least 8 bytes. The source would read past a shorter value, and every value the benchmark writes is 8 bytes (`PerfTest.RunWellFormed`).
- PerfTest.NextRowSpec: `oldRow + 1` at the largest `long long` is undefined behaviour in C++. The model wraps it to the smallest value.
- PerfTest.ThreadWorker: requires `id_range != 0` whenever the loop runs, because `i % 0` is undefined behaviour in C++.
- PerfTest.ThreadWorker: the per-iteration row ids and draws (`PerfTest.Run`, `PerfTest.RunIteration`) describe workers running one after another. Under real threads only the counter total of `PerfTest.MultiThreadPerf` and `PerfTest.Partitioned` hold for every interleaving.
- PerfTest.ThreadWorker: every `Put` is taken to succeed. Its status is ignored (`index/rocksdb/rocksdb_test.cc:81`) and the counter is bumped anyway.
- PerfTest.ThreadWorker: requires every initial value to hold at least 8 bytes, more than the source needs (only the entries a lookup lands on are read). The database is destroyed before the test starts (`index/rocksdb/rocksdb_test.cc:27-28`), so the initial store is empty.
- PerfTest.GetUniqueRowId: an invalid iterator is taken to mean that no key qualifies. `!it->Valid()` is also true after an iterator error (`index/rocksdb/rocksdb_test.cc:59-61`), which then also returns -1.
- PerfTest.GetUniqueRowId: the seek is bytewise, so the lookup is that of the `embed_asc` configuration; the `udt` comparator and the `embed_desc` prefix extractor are not modelled.
- PerfTest.GetUniqueRowId: a stored row id of -1 reads back as -1, which the `oldRow == -1` test (`index/rocksdb/rocksdb_test.cc:77`) takes for a miss (`PerfTest.StoredMinusOneLooksLikeMiss`). `PerfTest.NextRow` can write -1 (`PerfTest.NextRowCanBeMinusOne`).
- SequentialLoad.FillWorker: every `Put` is taken to succeed. Its status is ignored (`index/rocksdb/rocksdb_load.cpp:81-83`) and the counter is bumped anyway.
- PerfTest.MultiThreadPerf: states the counter total for any `thread_num`, not only the preset's 16. It does not state the order in which workers' puts interleave.
- SequentialLoad.LoadedKeysCount: counts distinct keys for `retina` and `udt` only. An unlisted strategy puts every record under the empty key (`SequentialLoad.UnlistedLoadsOneKey`).
- Config.IntToDecimal: the `int` printed into the path is any integer. `int` formatting flags and locale are not modelled.
