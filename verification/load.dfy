/**
 * The bulk-load test `RocksDBSequentialLoadTest`: its strategy-dependent key
 * codec and the `fillSequentialData` loop in which worker `t` writes one entry
 * for every key of `[0, id_range)` at timestamp 0.
 *
 * The load file switches on a strategy `retina` that the configuration's
 * enumeration does not declare; `LoadTsType` is that file's own view of the
 * strategy: `retina`, `udt`, or any other value.
 */
module SequentialLoad {
  import opened ByteCodec
  import Util
  import PerfTest
  import opened Arithmetic
  import opened Counting

  datatype LoadTsType = Retina | Udt | Unlisted

  // ---------------------------------------------------------------------
  // Codec
  // ---------------------------------------------------------------------

  /**
   * `encodeKey(indexId, key, timestamp, ts_type)`: `retina` embeds the
   * timestamp after the record (`indexId(4) ‖ key(4) ‖ timestamp(8)`), `udt`
   * leaves it out (`indexId(4) ‖ key(4)`, the timestamp travels beside the
   * key), and any other strategy yields the empty string.
   */
  function EncodeKey(indexId: Int32, key: Int32, timestamp: Int64, tsType: LoadTsType): (s: ByteString)
    ensures tsType == Retina ==> |s| == 16
    ensures tsType == Udt ==> |s| == 8
    ensures tsType == Unlisted <==> s == []
  {
    match tsType
    case Retina => PerfTest.EncodeKey(indexId, key, timestamp)
    case Udt =>
      var s := EncodeInt32(indexId) + EncodeInt32(key);
      assert s[0..4] == EncodeInt32(indexId) && s[4..8] == EncodeInt32(key);
      s
    case Unlisted => []
  }

  /**
   * The fields read back from a key: the record's `indexId` and `key` from
   * its first 8 bytes, and for `retina` the timestamp from the last 8.
   */
  lemma EncodeKeyFields(indexId: Int32, key: Int32, timestamp: Int64, tsType: LoadTsType)
    requires tsType != Unlisted
    ensures var s := EncodeKey(indexId, key, timestamp, tsType);
      && DecodeInt32(s[0..4]) == indexId && DecodeInt32(s[4..8]) == key
      && (tsType == Retina ==> DecodeInt64(s[8..16]) == timestamp)
  {
    if tsType == Udt {
      var s := EncodeKey(indexId, key, timestamp, tsType);
      assert s[0..4] == EncodeInt32(indexId) && s[4..8] == EncodeInt32(key);
    }
  }

  /** The `retina` key is the one the read-modify-write benchmark writes. */
  lemma RetinaKeyIsPerfKey(indexId: Int32, key: Int32, timestamp: Int64)
    ensures EncodeKey(indexId, key, timestamp, Retina) == PerfTest.EncodeKey(indexId, key, timestamp)
  {
  }

  /** A `udt` key is the `retina` key without its timestamp: the first 8 bytes, whatever the timestamp. */
  lemma UdtKeyIsRetinaPrefix(indexId: Int32, key: Int32, timestamp: Int64)
    ensures EncodeKey(indexId, key, timestamp, Udt) == EncodeKey(indexId, key, timestamp, Retina)[..8]
  {
    var r := EncodeKey(indexId, key, timestamp, Retina);
    assert r == EncodeInt32(indexId) + EncodeInt32(key) + EncodeInt64(timestamp);
    assert r[..8] == EncodeInt32(indexId) + EncodeInt32(key);
  }

  /** For `retina` and `udt`, distinct records never share a key. */
  lemma EncodeKeyInjective(i1: Int32, k1: Int32, i2: Int32, k2: Int32, timestamp: Int64, tsType: LoadTsType)
    requires tsType != Unlisted
    requires EncodeKey(i1, k1, timestamp, tsType) == EncodeKey(i2, k2, timestamp, tsType)
    ensures i1 == i2 && k1 == k2
  {
    var s := EncodeKey(i1, k1, timestamp, tsType);
    EncodeKeyFields(i1, k1, timestamp, tsType);
    EncodeKeyFields(i2, k2, timestamp, tsType);
    assert DecodeInt32(s[0..4]) == i1 && DecodeInt32(s[0..4]) == i2;
    assert DecodeInt32(s[4..8]) == k1 && DecodeInt32(s[4..8]) == k2;
  }

  /** `encodeValue(rowId)`: the 8-byte native image of the row id. */
  function EncodeValue(rowId: Int64): (s: ByteString)
    ensures |s| == 8 && DecodeInt64(s) == rowId
  {
    EncodeInt64(rowId)
  }

  /**
   * The load's value codec, the read-modify-write benchmark's and
   * `longToSlice`'s buffer all produce the same 8 bytes.
   */
  lemma EncodeValueAgrees(rowId: Int64, buf: ByteString)
    ensures EncodeValue(rowId) == PerfTest.EncodeValue(rowId)
    ensures EncodeValue(rowId) == Util.LongToSlice(rowId, buf).buffer
    ensures PerfTest.DecodeRowId(EncodeValue(rowId)) == rowId
  {
  }

  // ---------------------------------------------------------------------
  // The load loop
  // ---------------------------------------------------------------------

  /** A write the load issues: a plain `Put(k, v)`, or `Put(k, ts, v)` with a user-defined timestamp. */
  datatype PutOp = Put(key: ByteString, value: ByteString)
                 | PutWithTs(key: ByteString, ts: ByteString, value: ByteString)

  /** The timestamp every load entry carries. */
  const LOAD_TIMESTAMP: Int64 := 0

  /**
   * The write the load issues for record `(t, key)`: key `encodeKey(t, key, 0)`,
   * value `encodeValue(key)`, and the timestamp slice beside the key unless
   * the strategy is `retina`.
   */
  function LoadPut(t: Int32, key: Int32, tsType: LoadTsType, tsSlice: ByteString): PutOp
  {
    var k := EncodeKey(t, key, LOAD_TIMESTAMP, tsType);
    var v := EncodeValue(key);
    if tsType == Retina then Put(k, v) else PutWithTs(k, tsSlice, v)
  }

  /**
   * Reading a load write back: its value holds the record's key as row id,
   * its key names the record (and for `retina` carries timestamp 0), and the
   * timestamp travels beside the key exactly when the strategy is not
   * `retina`.
   */
  lemma LoadPutReadsBack(t: Int32, key: Int32, tsType: LoadTsType, tsSlice: ByteString)
    ensures var p := LoadPut(t, key, tsType, tsSlice);
      && |p.value| == 8 && PerfTest.DecodeRowId(p.value) == key
      && (p.PutWithTs? <==> tsType != Retina)
      && (p.PutWithTs? ==> p.ts == tsSlice)
      && (tsType != Unlisted ==> KeyRecord(p.key) == (t, key))
      && (tsType == Retina ==> |p.key| == 16 && DecodeInt64(p.key[8..16]) == LOAD_TIMESTAMP)
      && (tsType == Unlisted ==> p.key == [])
  {
    EncodeValueAgrees(key, []);
    if tsType != Unlisted {
      KeyRecordRoundTrip(t, key, LOAD_TIMESTAMP, tsType);
      EncodeKeyFields(t, key, LOAD_TIMESTAMP, tsType);
    }
  }

  /** The writes of worker `t`, as a function of the record's key. */
  function WorkerPut(t: Int32, tsType: LoadTsType, tsSlice: ByteString): Int32 -> PutOp
  {
    (key: Int32) => LoadPut(t, key, tsType, tsSlice)
  }

  /**
   * One worker of `fillSequentialData`: for `key` from 0 to `id_range - 1` it
   * issues the write of record `(t, key)` and bumps the counter.
   */
  method FillWorker(t: Int32, idRange: Int32, tsType: LoadTsType, tsSlice: ByteString, counter: int)
    returns (puts: seq<PutOp>, counter': int)
    ensures |puts| == Max0(idRange)
    ensures counter' == counter + Max0(idRange)
    ensures forall key: Int32 :: 0 <= key < |puts| ==> puts[key] == LoadPut(t, key, tsType, tsSlice)
    ensures puts == Tabulate(WorkerPut(t, tsType, tsSlice), Max0(idRange))
  {
    var put := WorkerPut(t, tsType, tsSlice);
    puts := [];
    counter' := counter;
    var key: Int32 := 0;
    while key < idRange
      invariant 0 <= key as int <= Max0(idRange)
      invariant puts == Tabulate(put, key as int)
      invariant counter' == counter + key as int
    {
      puts := puts + [put(key)];
      counter' := counter' + 1;
      key := key + 1;
    }
    TabulateIndex(put, key as int);
  }

  /** The writes of each worker, as a function of its `indexId`. */
  function LoadWorkers(tsType: LoadTsType, tsSlice: ByteString, n: nat): Int32 -> seq<PutOp>
    requires n <= TWO_31
  {
    (t: Int32) => Tabulate(WorkerPut(t, tsType, tsSlice), n)
  }

  /**
   * `fillSequentialData`: the timestamp slice is `longToSlice(0, tsBuffer)`;
   * worker `t` of `thread_num` runs `FillWorker`, and `perWorker[t]` holds its
   * writes.  The final counter is `thread_num * id_range`.
   */
  method FillSequentialData(threadNum: Int32, idRange: Int32, tsType: LoadTsType, tsBuffer: ByteString)
    returns (perWorker: seq<seq<PutOp>>, counter: int)
    ensures |perWorker| == Max0(threadNum)
    ensures counter == Max0(threadNum) * Max0(idRange)
    ensures forall t: Int32 :: 0 <= t < |perWorker| ==>
      perWorker[t] == Tabulate(WorkerPut(t, tsType, EncodeInt64(LOAD_TIMESTAMP)), Max0(idRange))
  {
    var tsSlice := Util.LongToSlice(LOAD_TIMESTAMP, tsBuffer).slice;
    DecodeInt64RoundTrip(tsSlice.data);
    perWorker, counter := SpawnFillWorkers(threadNum, idRange, tsType, tsSlice.data);
    LoadWorkersIndex(tsType, tsSlice.data, Max0(idRange), Max0(threadNum));
  }

  /** The thread loop of `fillSequentialData`: workers `0 .. thread_num - 1`, each with its writes and count. */
  method SpawnFillWorkers(threadNum: Int32, idRange: Int32, tsType: LoadTsType, tsSlice: ByteString)
    returns (perWorker: seq<seq<PutOp>>, counter: int)
    ensures perWorker == Tabulate(LoadWorkers(tsType, tsSlice, Max0(idRange)), Max0(threadNum))
    ensures counter == Max0(threadNum) * Max0(idRange)
  {
    var n := Max0(idRange);
    perWorker := [];
    counter := 0;
    var t: Int32 := 0;
    while t < threadNum
      invariant 0 <= t as int <= Max0(threadNum)
      invariant perWorker == Tabulate(LoadWorkers(tsType, tsSlice, n), t as int)
      invariant counter == t as int * n
    {
      var puts;
      puts, counter := SpawnFillWorker(t, idRange, tsType, tsSlice, counter);
      MulSucc(t as int, n);
      LoadWorkersStep(tsType, tsSlice, n, t);
      perWorker := perWorker + [puts];
      t := t + 1;
    }
    assert t as int == Max0(threadNum);
  }

  /** The thread body of worker `t`: its writes are entry `t` of `LoadWorkers`. */
  method SpawnFillWorker(t: Int32, idRange: Int32, tsType: LoadTsType, tsSlice: ByteString, counter: int)
    returns (puts: seq<PutOp>, counter': int)
    ensures puts == LoadWorkers(tsType, tsSlice, Max0(idRange))(t)
    ensures counter' == counter + Max0(idRange)
  {
    puts, counter' := FillWorker(t, idRange, tsType, tsSlice, counter);
  }

  /** Running worker `t` after workers `0 .. t - 1` appends exactly its writes. */
  lemma LoadWorkersStep(tsType: LoadTsType, tsSlice: ByteString, n: nat, t: Int32)
    requires n <= TWO_31 && 0 <= t
    ensures Tabulate(LoadWorkers(tsType, tsSlice, n), t as int + 1)
         == Tabulate(LoadWorkers(tsType, tsSlice, n), t as int) + [Tabulate(WorkerPut(t, tsType, tsSlice), n)]
  {
  }

  /** After `m` workers there are `m` write lists, and list `t` is worker `t`'s writes. */
  lemma LoadWorkersIndex(tsType: LoadTsType, tsSlice: ByteString, n: nat, m: nat)
    requires n <= TWO_31 && m <= TWO_31
    ensures |Tabulate(LoadWorkers(tsType, tsSlice, n), m)| == m
    ensures forall t: Int32 :: 0 <= t < m ==>
      Tabulate(LoadWorkers(tsType, tsSlice, n), m)[t] == Tabulate(WorkerPut(t, tsType, tsSlice), n)
  {
    TabulateIndex(LoadWorkers(tsType, tsSlice, n), m);
  }

  // ---------------------------------------------------------------------
  // Distinct entries
  // ---------------------------------------------------------------------

  /** The key the load writes for record `(t, key)`. */
  function LoadKey(tsType: LoadTsType): (Int32, Int32) -> ByteString
  {
    (t: Int32, key: Int32) => EncodeKey(t, key, LOAD_TIMESTAMP, tsType)
  }

  /** The keys workers `0 .. threads - 1` write for records `0 .. n - 1`. */
  ghost function LoadedKeys(threads: nat, n: nat, tsType: LoadTsType): set<ByteString>
    requires threads <= TWO_31 && n <= TWO_31
  {
    Image2(LoadKey(tsType), threads, n)
  }

  /** The record a load key names: its `indexId` and `key` fields (keys shorter than 8 bytes name record `(0, 0)`). */
  function KeyRecord(s: ByteString): (Int32, Int32)
  {
    if |s| >= 8 then (DecodeInt32(s[0..4]), DecodeInt32(s[4..8])) else (0, 0)
  }

  /** For `retina` and `udt`, a key names the record it was encoded from. */
  lemma KeyRecordRoundTrip(indexId: Int32, key: Int32, timestamp: Int64, tsType: LoadTsType)
    requires tsType != Unlisted
    ensures KeyRecord(EncodeKey(indexId, key, timestamp, tsType)) == (indexId, key)
  {
    EncodeKeyFields(indexId, key, timestamp, tsType);
  }

  /**
   * For `retina` and `udt` the load writes `thread_num * id_range` distinct
   * keys: no two records of any two workers collide.
   */
  lemma LoadedKeysCount(threads: nat, n: nat, tsType: LoadTsType)
    requires threads <= TWO_31 && n <= TWO_31 && tsType != Unlisted
    ensures |LoadedKeys(threads, n, tsType)| == threads * n
  {
    forall t: Int32, i: Int32 | 0 <= t < threads && 0 <= i < n
      ensures KeyRecord(LoadKey(tsType)(t, i)) == (t, i)
    {
      KeyRecordRoundTrip(t, i, LOAD_TIMESTAMP, tsType);
    }
    Image2Count(LoadKey(tsType), (s: ByteString) => KeyRecord(s), threads, n);
  }

  /** Every write of `fillSequentialData` puts one of the loaded keys. */
  lemma LoadPutKeyIsLoaded(threads: nat, n: nat, t: Int32, key: Int32, tsType: LoadTsType, tsSlice: ByteString)
    requires threads <= TWO_31 && n <= TWO_31
    requires 0 <= t < threads && 0 <= key < n
    ensures LoadPut(t, key, tsType, tsSlice).key in LoadedKeys(threads, n, tsType)
  {
    assert LoadKey(tsType)(t, key) in LoadedKeys(threads, n, tsType);
  }

  /** The keys of all the writes in the per-worker write lists. */
  ghost function WrittenKeys(perWorker: seq<seq<PutOp>>): set<ByteString>
  {
    set t, k | 0 <= t < |perWorker| && 0 <= k < |perWorker[t]| :: perWorker[t][k].key
  }

  /** Position `k` of write list `t` puts the key of record `(t, k)`, for every worker and record. */
  ghost predicate WritesRecords(perWorker: seq<seq<PutOp>>, threads: nat, n: nat, tsType: LoadTsType)
  {
    && |perWorker| == threads
    && (forall t :: 0 <= t < threads ==> |perWorker[t]| == n)
    && forall t: Int32, k: Int32 :: 0 <= t < threads && 0 <= k < n ==> perWorker[t][k].key == LoadKey(tsType)(t, k)
  }

  /** The write lists `fillSequentialData` produces put, at position `k` of worker `t`, the key of record `(t, k)`. */
  lemma LoadWritesRecords(perWorker: seq<seq<PutOp>>, threads: nat, n: nat, tsType: LoadTsType, tsSlice: ByteString)
    requires threads <= TWO_31 && n <= TWO_31
    requires |perWorker| == threads
    requires forall t: Int32 :: 0 <= t < threads ==> perWorker[t] == Tabulate(WorkerPut(t, tsType, tsSlice), n)
    ensures WritesRecords(perWorker, threads, n, tsType)
  {
    forall t: Int32 | 0 <= t < threads
      ensures |perWorker[t]| == n
      ensures forall k: Int32 :: 0 <= k < n ==> perWorker[t][k].key == LoadKey(tsType)(t, k)
    {
      TabulateIndex(WorkerPut(t, tsType, tsSlice), n);
    }
    forall t | 0 <= t < threads
      ensures |perWorker[t]| == n
    {
      var t32 := t as Int32;
      assert perWorker[t] == perWorker[t32];
    }
  }

  /** Every key the write lists put is the key of a loaded record. */
  lemma WrittenKeysAreLoaded(perWorker: seq<seq<PutOp>>, threads: nat, n: nat, tsType: LoadTsType)
    requires threads <= TWO_31 && n <= TWO_31
    requires WritesRecords(perWorker, threads, n, tsType)
    ensures WrittenKeys(perWorker) <= LoadedKeys(threads, n, tsType)
  {
    forall x | x in WrittenKeys(perWorker)
      ensures x in LoadedKeys(threads, n, tsType)
    {
      var t, k :| 0 <= t < |perWorker| && 0 <= k < |perWorker[t]| && x == perWorker[t][k].key;
      var t32, k32 := t as Int32, k as Int32;
      assert x == LoadKey(tsType)(t32, k32);
    }
  }

  /** Every loaded record's key is put by some write list. */
  lemma LoadedKeysAreWritten(perWorker: seq<seq<PutOp>>, threads: nat, n: nat, tsType: LoadTsType)
    requires threads <= TWO_31 && n <= TWO_31
    requires WritesRecords(perWorker, threads, n, tsType)
    ensures LoadedKeys(threads, n, tsType) <= WrittenKeys(perWorker)
  {
    forall x | x in LoadedKeys(threads, n, tsType)
      ensures x in WrittenKeys(perWorker)
    {
      var t: Int32, k: Int32 :| 0 <= t < threads && 0 <= k < n && x == LoadKey(tsType)(t, k);
      assert x == perWorker[t][k].key;
    }
  }

  /**
   * The keys the write lists of `fillSequentialData` put are exactly the
   * loaded keys, and for `retina` and `udt` there are `thread_num * id_range`
   * of them.
   */
  lemma LoadWritesLoadedKeys(perWorker: seq<seq<PutOp>>, threads: nat, n: nat, tsType: LoadTsType, tsSlice: ByteString)
    requires threads <= TWO_31 && n <= TWO_31
    requires |perWorker| == threads
    requires forall t: Int32 :: 0 <= t < threads ==> perWorker[t] == Tabulate(WorkerPut(t, tsType, tsSlice), n)
    ensures WrittenKeys(perWorker) == LoadedKeys(threads, n, tsType)
    ensures tsType != Unlisted ==> |WrittenKeys(perWorker)| == threads * n
  {
    LoadWritesRecords(perWorker, threads, n, tsType, tsSlice);
    WrittenKeysAreLoaded(perWorker, threads, n, tsType);
    LoadedKeysAreWritten(perWorker, threads, n, tsType);
    if tsType != Unlisted {
      LoadedKeysCount(threads, n, tsType);
    }
  }

  /** Every other strategy writes only the empty key, however many records are loaded. */
  lemma UnlistedLoadsOneKey(threads: nat, n: nat)
    requires 0 < threads <= TWO_31 && 0 < n <= TWO_31
    ensures LoadedKeys(threads, n, Unlisted) == {[]}
  {
    assert LoadKey(Unlisted)(0, 0) in LoadedKeys(threads, n, Unlisted);
  }
}
