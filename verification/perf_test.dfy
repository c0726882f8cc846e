/**
 * The read-modify-write benchmark `RocksDBPerfTest`: the embedded-timestamp
 * key codec, the `SeekForPrev` point-in-time lookup, one worker's loop and the
 * operation total over all workers.
 *
 * Threads run one after another here.  Each worker owns the keys whose first
 * four bytes are its index, so no two workers ever WRITE the same logical
 * record; their lookups are another matter, since a seek may land on an entry
 * of a worker with a smaller index (`LookupCrossesRecords`), and what a worker
 * reads therefore depends on how far the others have got.
 */
module PerfTest {
  import opened Wrappers
  import opened ByteCodec
  import opened ByteOrder
  import opened Store
  import opened Arithmetic

  // ---------------------------------------------------------------------
  // Codec
  // ---------------------------------------------------------------------

  /** `encodeKey`: `indexId(4) ‖ key(4) ‖ timestamp(8)`, each in native order. */
  function EncodeKey(indexId: Int32, key: Int32, timestamp: Int64): (s: ByteString)
    ensures |s| == 16
    ensures DecodeInt32(s[0..4]) == indexId
    ensures DecodeInt32(s[4..8]) == key
    ensures DecodeInt64(s[8..16]) == timestamp
  {
    var s := EncodeInt32(indexId) + EncodeInt32(key) + EncodeInt64(timestamp);
    assert s[0..4] == EncodeInt32(indexId);
    assert s[4..8] == EncodeInt32(key);
    assert s[8..16] == EncodeInt64(timestamp);
    s
  }

  /** The three fields of a 16-byte key, read back at their offsets. */
  datatype KeyFields = KeyFields(indexId: Int32, key: Int32, timestamp: Int64)

  function DecodeKey(s: ByteString): KeyFields
    requires |s| == 16
  {
    KeyFields(DecodeInt32(s[0..4]), DecodeInt32(s[4..8]), DecodeInt64(s[8..16]))
  }

  /** Distinct (indexId, key, timestamp) triples never share a stored key. */
  lemma EncodeKeyInjective(i1: Int32, k1: Int32, t1: Int64, i2: Int32, k2: Int32, t2: Int64)
    requires EncodeKey(i1, k1, t1) == EncodeKey(i2, k2, t2)
    ensures i1 == i2 && k1 == k2 && t1 == t2
  {
  }

  /** Every 16-byte key is the encoding of the fields read back from it. */
  lemma DecodeKeyRoundTrip(s: ByteString)
    requires |s| == 16
    ensures var f := DecodeKey(s); EncodeKey(f.indexId, f.key, f.timestamp) == s
  {
    DecodeInt32RoundTrip(s[0..4]);
    DecodeInt32RoundTrip(s[4..8]);
    DecodeInt64RoundTrip(s[8..16]);
    assert s == s[0..4] + s[4..8] + s[8..16];
  }

  /** `encodeValue`: the 8-byte native image of the row id. */
  function EncodeValue(rowId: Int64): (s: ByteString)
    ensures |s| == 8
    ensures DecodeRowId(s) == rowId
  {
    var s := EncodeInt64(rowId);
    assert s[..8] == s;
    s
  }

  /** `memcpy(&rowId, val.data(), sizeof(rowId))`: the first 8 bytes of a value, read as a row id. */
  function DecodeRowId(val: ByteString): (rowId: Int64)
    requires |val| >= 8
  {
    DecodeInt64(val[..8])
  }

  // ---------------------------------------------------------------------
  // Point-in-time lookup
  // ---------------------------------------------------------------------

  /** Every value in the store is long enough for the 8-byte read of a lookup. */
  ghost predicate WellFormed(store: Store)
  {
    forall k :: k in store ==> |store[k]| >= 8
  }

  /** The entry a `SeekForPrev(target)` lands on, if any, holds at least 8 bytes. */
  ghost predicate ReadableAt(store: Store, target: ByteString)
  {
    var f := Floor(store.Keys, target);
    f.Some? ==> |store[f.value]| >= 8
  }

  lemma WellFormedReadable(store: Store, target: ByteString)
    requires WellFormed(store)
    ensures ReadableAt(store, target)
  {
  }

  /**
   * What `getUniqueRowId` returns for a given seek key: -1 when no stored key
   * sorts at or before it, otherwise the row id in the value of the greatest
   * such key, whichever logical record that key belongs to.
   */
  ghost function RowIdAt(store: Store, target: ByteString): (r: Int64)
    requires ReadableAt(store, target)
    ensures (forall k :: k in store ==> !LexLe(k, target)) ==> r == -1
    ensures Floor(store.Keys, target).Some? ==> r == DecodeRowId(store[Floor(store.Keys, target).value])
  {
    match Floor(store.Keys, target)
    case None => -1
    case Some(k) => DecodeRowId(store[k])
  }

  /**
   * `getUniqueRowId(indexId, key, timestamp)`: position an iterator with
   * `SeekForPrev(encodeKey(indexId, key, timestamp))`; -1 if it is not valid,
   * else the row id in the value under it.  No check is made that the key
   * found carries the same `indexId ‖ key`.
   */
  method GetUniqueRowId(store: Store, indexId: Int32, key: Int32, timestamp: Int64) returns (rowId: Int64)
    requires ReadableAt(store, EncodeKey(indexId, key, timestamp))
    ensures (forall k :: k in store ==> !LexLe(k, EncodeKey(indexId, key, timestamp))) ==> rowId == -1
    ensures forall k :: IsFloor(store.Keys, EncodeKey(indexId, key, timestamp), k) ==>
      |store[k]| >= 8 && rowId == DecodeRowId(store[k])
    ensures rowId == RowIdAt(store, EncodeKey(indexId, key, timestamp))
  {
    var seekKey := EncodeKey(indexId, key, timestamp);
    var it := SeekForPrev(store.Keys, seekKey);
    if it.None? {
      return -1;
    }
    rowId := DecodeRowId(store[it.value]);
    forall k | IsFloor(store.Keys, seekKey, k)
      ensures |store[k]| >= 8 && rowId == DecodeRowId(store[k])
    {
      FloorUnique(store.Keys, seekKey, k, it.value);
    }
  }

  /** A lookup at exactly the key of a stored version returns that version's row id. */
  lemma LookupAtWrittenKey(store: Store, indexId: Int32, key: Int32, timestamp: Int64)
    requires EncodeKey(indexId, key, timestamp) in store
    requires |store[EncodeKey(indexId, key, timestamp)]| >= 8
    ensures ReadableAt(store, EncodeKey(indexId, key, timestamp))
    ensures RowIdAt(store, EncodeKey(indexId, key, timestamp)) == DecodeRowId(store[EncodeKey(indexId, key, timestamp)])
  {
    var target := EncodeKey(indexId, key, timestamp);
    LexLeReflexive(target);
    var f := Floor(store.Keys, target);
    assert IsFloor(store.Keys, target, target);
    FloorUnique(store.Keys, target, f.value, target);
  }

  /**
   * The found key is not checked against the record being looked up: when the
   * only stored entry belongs to a worker whose `indexId` has a smaller low
   * byte, a lookup for another worker's record returns that entry's row id.
   */
  lemma LookupCrossesRecords(i1: Int32, k1: Int32, t1: Int64, row: Int64, i2: Int32, k2: Int32, t2: Int64)
    requires i1 % 256 < i2 % 256
    ensures ReadableAt(map[EncodeKey(i1, k1, t1) := EncodeValue(row)], EncodeKey(i2, k2, t2))
    ensures RowIdAt(map[EncodeKey(i1, k1, t1) := EncodeValue(row)], EncodeKey(i2, k2, t2)) == row
  {
    var found := EncodeKey(i1, k1, t1);
    var target := EncodeKey(i2, k2, t2);
    var store := map[found := EncodeValue(row)];
    SmallerFirstByteSortsFirst(i1, k1, t1, i2, k2, t2);
    LexLeReflexive(found);
    assert IsFloor(store.Keys, target, found);
  }

  /**
   * The same holds within one worker: its lookup for `key` lands on the entry
   * of an earlier `key` with a smaller low byte, as the lookup for key 1 does
   * on key 0's entry in the second iteration of `threadWorker`.
   */
  lemma SameWorkerCrossesRecords(i: Int32, k1: Int32, t1: Int64, row: Int64, k2: Int32, t2: Int64)
    requires k1 % 256 < k2 % 256
    ensures ReadableAt(map[EncodeKey(i, k1, t1) := EncodeValue(row)], EncodeKey(i, k2, t2))
    ensures RowIdAt(map[EncodeKey(i, k1, t1) := EncodeValue(row)], EncodeKey(i, k2, t2)) == row
  {
    var found := EncodeKey(i, k1, t1);
    var target := EncodeKey(i, k2, t2);
    var store := map[found := EncodeValue(row)];
    var rest1 := EncodeInt32(k1) + EncodeInt64(t1);
    var rest2 := EncodeInt32(k2) + EncodeInt64(t2);
    assert found == EncodeInt32(i) + rest1;
    assert target == EncodeInt32(i) + rest2;
    Int32FirstByte(k1);
    Int32FirstByte(k2);
    assert rest1[0] == EncodeInt32(k1)[0] && rest2[0] == EncodeInt32(k2)[0];
    LexLeCommonPrefix(EncodeInt32(i), rest1, rest2);
    LexLeReflexive(found);
    assert IsFloor(store.Keys, target, found);
  }

  /** A key whose `indexId` has a smaller low byte sorts first, whatever follows. */
  lemma SmallerFirstByteSortsFirst(i1: Int32, k1: Int32, t1: Int64, i2: Int32, k2: Int32, t2: Int64)
    requires i1 % 256 < i2 % 256
    ensures LexLe(EncodeKey(i1, k1, t1), EncodeKey(i2, k2, t2))
  {
    KeyFirstByte(i1, k1, t1);
    KeyFirstByte(i2, k2, t2);
  }

  /** The first byte of a key is the low byte of its `indexId`, whatever its sign. */
  lemma KeyFirstByte(indexId: Int32, key: Int32, timestamp: Int64)
    ensures EncodeKey(indexId, key, timestamp)[0] == indexId % 256
  {
    assert EncodeKey(indexId, key, timestamp)[0] == EncodeInt32(indexId)[0];
    Int32FirstByte(indexId);
  }

  /**
   * With the timestamp stored little-endian, key order is not time order: a
   * version written at `t1` is invisible to a lookup of the same record at a
   * later `t2` whenever `t1`'s low byte exceeds `t2`'s (for instance 1 and 256).
   */
  lemma LittleEndianHidesEarlierVersion(indexId: Int32, key: Int32, t1: Int64, t2: Int64, row: Int64)
    requires 0 <= t1 < t2
    requires t1 % 256 > t2 % 256
    ensures ReadableAt(map[EncodeKey(indexId, key, t1) := EncodeValue(row)], EncodeKey(indexId, key, t2))
    ensures RowIdAt(map[EncodeKey(indexId, key, t1) := EncodeValue(row)], EncodeKey(indexId, key, t2)) == -1
  {
    var prefix := EncodeInt32(indexId) + EncodeInt32(key);
    var a := EncodeInt64(t1);
    var b := EncodeInt64(t2);
    assert EncodeKey(indexId, key, t1) == prefix + a;
    assert EncodeKey(indexId, key, t2) == prefix + b;
    assert a[0] == t1 % 256 && b[0] == t2 % 256;
    assert !LexLe(a, b);
    LexLeCommonPrefix(prefix, a, b);
  }

  /**
   * A stored row id of -1 cannot be told from a miss: the seek lands on an
   * entry of the very record it looks for, and still returns -1.
   */
  lemma StoredMinusOneLooksLikeMiss(indexId: Int32, key: Int32, timestamp: Int64)
    ensures var target := EncodeKey(indexId, key, timestamp);
            var store := map[target := EncodeValue(-1)];
            && Floor(store.Keys, target) == Some(target)
            && ReadableAt(store, target)
            && RowIdAt(store, target) == -1
  {
    var target := EncodeKey(indexId, key, timestamp);
    var store := map[target := EncodeValue(-1)];
    LookupAtWrittenKey(store, indexId, key, timestamp);
    LexLeReflexive(target);
  }

  // ---------------------------------------------------------------------
  // One worker's read-modify-write loop
  // ---------------------------------------------------------------------

  /** C++ `a / b` on `int`: division truncated toward zero. */
  function CppDiv(a: int, b: int): int
    requires b != 0
  {
    if a >= 0 then a / b else -((-a) / b)
  }

  /**
   * C++ `a % b` on `int`: the remainder left by `CppDiv`, which takes the sign
   * of `a` and is smaller than `b` in magnitude.
   */
  function CppRem(a: int, b: int): int
    requires b != 0
  {
    if a >= 0 then a % b else -((-a) % b)
  }

  /** `CppRem` completes `CppDiv`'s quotient to `a`, is smaller than `b` in magnitude, and takes `a`'s sign. */
  lemma CppRemIsRemainder(a: int, b: int)
    requires b != 0
    ensures a == CppDiv(a, b) * b + CppRem(a, b)
    ensures Abs(CppRem(a, b)) < Abs(b)
    ensures a >= 0 ==> CppRem(a, b) >= 0
    ensures a < 0 ==> CppRem(a, b) <= 0
  {
    if a < 0 {
      assert -a == ((-a) / b) * b + (-a) % b;
    }
  }

  /**
   * `newRow = (oldRow == -1) ? rng() : oldRow + 1`: a fresh draw (its 64 bits
   * reinterpreted as `long long`) when no version was found, else the
   * successor, wrapping at the top of the range.
   */
  function NextRow(oldRow: Int64, draw: UInt64): Int64
  {
    if oldRow == -1 then WrapInt64(draw) else WrapInt64(oldRow + 1)
  }

  /**
   * On a miss the new row id is the draw's 64 bits read as signed; otherwise
   * it is the successor of the old one, wrapping from the largest to the
   * smallest `long long`.
   */
  lemma NextRowSpec(oldRow: Int64, draw: UInt64)
    ensures oldRow == -1 ==> (NextRow(oldRow, draw) - draw) % TWO_64 == 0
    ensures oldRow == -1 && draw < TWO_63 ==> NextRow(oldRow, draw) == draw
    ensures oldRow != -1 && oldRow < MAX_INT64 ==> NextRow(oldRow, draw) == oldRow + 1
    ensures oldRow == MAX_INT64 ==> NextRow(oldRow, draw) == MIN_INT64
  {
    WrapInt64Congruent(draw);
    WrapInt64Congruent(oldRow + 1);
  }

  /**
   * A worker can itself store -1: a draw of all ones on a miss, or the
   * successor of a stored -2.
   */
  lemma NextRowCanBeMinusOne()
    ensures NextRow(-1, 0xFFFF_FFFF_FFFF_FFFF) == -1
    ensures NextRow(-2, 0) == -1
  {
    WrapInt64Congruent(0xFFFF_FFFF_FFFF_FFFF);
  }

  /** One iteration of a worker: the logical key, the clock reading, and the rows read and written. */
  datatype RmwOp = RmwOp(key: Int32, timestamp: Int64, oldRow: Int64, newRow: Int64)

  /** The key an iteration both seeks and writes. */
  function OpKey(indexId: Int32, op: RmwOp): ByteString
  {
    EncodeKey(indexId, op.key, op.timestamp)
  }

  /** A stored key in the partition of worker `indexId`: 16 bytes starting with the image of `indexId`. */
  predicate IsOwnKey(indexId: Int32, k: ByteString)
  {
    |k| == 16 && k[..4] == EncodeInt32(indexId)
  }

  lemma OpKeyIsOwn(indexId: Int32, op: RmwOp)
    ensures IsOwnKey(indexId, OpKey(indexId, op))
  {
    var k := OpKey(indexId, op);
    DecodeInt32RoundTrip(k[..4]);
    assert k[..4] == k[0..4];
  }

  /** The number of iterations among `ops` that found no version and so drew a random number. */
  function Misses(ops: seq<RmwOp>): (n: nat)
    ensures n <= |ops|
  {
    if |ops| == 0 then 0
    else Misses(ops[..|ops| - 1]) + (if ops[|ops| - 1].oldRow == -1 then 1 else 0)
  }

  /** The store after worker `indexId` has put each iteration's entry, in order. */
  function ApplyOps(store: Store, indexId: Int32, ops: seq<RmwOp>): (s: Store)
    ensures forall k :: k in store ==> k in s
    ensures WellFormed(store) ==> WellFormed(s)
  {
    if |ops| == 0 then store
    else
      var last := ops[|ops| - 1];
      var before := ApplyOps(store, indexId, ops[..|ops| - 1]);
      before[OpKey(indexId, last) := EncodeValue(last.newRow)]
  }

  /** Putting one more iteration's entry after a sequence of them. */
  lemma ApplyOpsSnoc(store: Store, indexId: Int32, ops: seq<RmwOp>, op: RmwOp)
    ensures ApplyOps(store, indexId, ops + [op]) == ApplyOps(store, indexId, ops)[OpKey(indexId, op) := EncodeValue(op.newRow)]
  {
    var all := ops + [op];
    assert all[..|all| - 1] == ops;
    assert all[|all| - 1] == op;
  }

  /** One more iteration draws a random number exactly when it found no version. */
  lemma MissesSnoc(ops: seq<RmwOp>, op: RmwOp)
    ensures Misses(ops + [op]) == Misses(ops) + (if op.oldRow == -1 then 1 else 0)
  {
    var all := ops + [op];
    assert all[..|all| - 1] == ops;
  }

  /**
   * A worker's puts stay inside its own partition: keys it adds start with its
   * `indexId`, and entries of every other partition keep their values.  Every
   * value it writes is 8 bytes, so the store stays readable.
   */
  lemma {:induction false} ApplyOpsStaysInPartition(store: Store, indexId: Int32, ops: seq<RmwOp>)
    ensures forall k :: k in ApplyOps(store, indexId, ops) && k !in store ==> IsOwnKey(indexId, k)
    ensures forall k :: k in store && !IsOwnKey(indexId, k) ==> ApplyOps(store, indexId, ops)[k] == store[k]
    decreases |ops|
  {
    if |ops| > 0 {
      ApplyOpsStaysInPartition(store, indexId, ops[..|ops| - 1]);
      OpKeyIsOwn(indexId, ops[|ops| - 1]);
    }
  }

  /**
   * What a worker carries from one iteration to the next: the store, the
   * iterations recorded so far, and how many random draws they consumed.
   */
  datatype WorkerState = WorkerState(store: Store, ops: seq<RmwOp>, draws: nat)

  /** `n` applications of `step`, starting from `s`. */
  ghost function Iterate(step: WorkerState -> WorkerState, s: WorkerState, n: nat): WorkerState
  {
    if n == 0 then s else step(Iterate(step, s, n - 1))
  }

  /**
   * `step` preserves `inv` and, from a state satisfying it, records exactly
   * one more iteration while keeping the earlier records.
   */
  ghost predicate Appends(step: WorkerState -> WorkerState, inv: WorkerState -> bool)
  {
    forall st {:trigger step(st)} :: inv(st) ==> inv(step(st)) && |step(st).ops| == |st.ops| + 1 && step(st).ops[..|st.ops|] == st.ops
  }

  lemma {:induction false} IterateKeepsInvariant(step: WorkerState -> WorkerState, inv: WorkerState -> bool,
                                                 s: WorkerState, n: nat)
    requires Appends(step, inv) && inv(s)
    ensures inv(Iterate(step, s, n)) && |Iterate(step, s, n).ops| == |s.ops| + n
  {
    if n > 0 {
      IterateKeepsInvariant(step, inv, s, n - 1);
    }
  }

  /** Iterating further only appends records: the first `m` steps' records survive `n >= m` steps. */
  lemma {:induction false} IteratePrefix(step: WorkerState -> WorkerState, inv: WorkerState -> bool,
                                         s: WorkerState, m: nat, n: nat)
    requires Appends(step, inv) && inv(s) && m <= n
    ensures |Iterate(step, s, m).ops| <= |Iterate(step, s, n).ops|
    ensures Iterate(step, s, n).ops[..|Iterate(step, s, m).ops|] == Iterate(step, s, m).ops
    decreases n
  {
    IterateKeepsInvariant(step, inv, s, m);
    if m < n {
      IteratePrefix(step, inv, s, m, n - 1);
      IterateKeepsInvariant(step, inv, s, n - 1);
      var a := Iterate(step, s, n - 1).ops;
      var b := Iterate(step, s, n).ops;
      var p := Iterate(step, s, m).ops;
      assert b[..|a|] == a;
      assert b[..|p|] == a[..|p|];
    }
  }

  /**
   * The record of iteration `|st.ops|` of worker `indexId`: key
   * `i % id_range`, clock reading `clock(i)`, the row id a lookup finds at
   * that key, and the next row id (a draw only on a miss).
   */
  ghost function NextOp(st: WorkerState, indexId: Int32, idRange: Int32,
                        clock: nat -> Int64, rng: nat -> UInt64): RmwOp
    requires WellFormed(st.store) && idRange != 0
  {
    var i := |st.ops|;
    var key := CppRem(i, idRange);
    var ts := clock(i);
    var target := EncodeKey(indexId, key, ts);
    WellFormedReadable(st.store, target);
    var oldRow := RowIdAt(st.store, target);
    RmwOp(key, ts, oldRow, NextRow(oldRow, rng(st.draws)))
  }

  /** The state after `op`'s new version is put and `op` is recorded, with one more draw on a miss. */
  function Record(st: WorkerState, indexId: Int32, op: RmwOp): WorkerState
  {
    WorkerState(st.store[OpKey(indexId, op) := EncodeValue(op.newRow)], st.ops + [op],
                st.draws + (if op.oldRow == -1 then 1 else 0))
  }

  /** Iteration `|st.ops|` of worker `indexId`: compute its record, then put the new version. */
  ghost function Iteration(st: WorkerState, indexId: Int32, idRange: Int32,
                           clock: nat -> Int64, rng: nat -> UInt64): WorkerState
    requires WellFormed(st.store) && idRange != 0
  {
    Record(st, indexId, NextOp(st, indexId, idRange, clock, rng))
  }

  /** One iteration of worker `indexId` as a step function; it stalls where the iteration is undefined. */
  ghost function Step(indexId: Int32, idRange: Int32, clock: nat -> Int64, rng: nat -> UInt64): WorkerState -> WorkerState
  {
    (st: WorkerState) => if WellFormed(st.store) && idRange != 0 then Iteration(st, indexId, idRange, clock, rng) else st
  }

  /**
   * A state reached by worker `indexId` from `store`: its store is `store`
   * with each recorded iteration's entry put, in order, and it has drawn once
   * per recorded miss.
   */
  ghost predicate Reached(store: Store, indexId: Int32, st: WorkerState)
  {
    && WellFormed(st.store)
    && st.store == ApplyOps(store, indexId, st.ops)
    && st.draws == Misses(st.ops)
  }

  ghost function ReachedFrom(store: Store, indexId: Int32): WorkerState -> bool
  {
    (st: WorkerState) => Reached(store, indexId, st)
  }

  /** Recording any operation in a reachable state reaches a state with one more record. */
  lemma RecordReached(store: Store, indexId: Int32, st: WorkerState, op: RmwOp)
    requires Reached(store, indexId, st)
    ensures var r := Record(st, indexId, op);
            && Reached(store, indexId, r)
            && |r.ops| == |st.ops| + 1 && r.ops[..|st.ops|] == st.ops
  {
    ApplyOpsSnoc(store, indexId, st.ops, op);
    MissesSnoc(st.ops, op);
    assert (st.ops + [op])[..|st.ops|] == st.ops;
  }

  /** One iteration from a reachable state reaches a state with one more record. */
  lemma IterationReached(store: Store, indexId: Int32, idRange: Int32, clock: nat -> Int64, rng: nat -> UInt64,
                         st: WorkerState)
    requires idRange != 0 && Reached(store, indexId, st)
    ensures var r := Iteration(st, indexId, idRange, clock, rng);
            && Reached(store, indexId, r)
            && |r.ops| == |st.ops| + 1 && r.ops[..|st.ops|] == st.ops
  {
    RecordReached(store, indexId, st, NextOp(st, indexId, idRange, clock, rng));
  }

  /** Each iteration keeps the state reachable and appends exactly its own record. */
  lemma StepAppends(store: Store, indexId: Int32, idRange: Int32, clock: nat -> Int64, rng: nat -> UInt64)
    requires idRange != 0
    ensures Appends(Step(indexId, idRange, clock, rng), ReachedFrom(store, indexId))
  {
    var step := Step(indexId, idRange, clock, rng);
    forall st | ReachedFrom(store, indexId)(st)
      ensures ReachedFrom(store, indexId)(step(st))
      ensures |step(st).ops| == |st.ops| + 1 && step(st).ops[..|st.ops|] == st.ops
    {
      assert step(st) == Iteration(st, indexId, idRange, clock, rng);
      IterationReached(store, indexId, idRange, clock, rng, st);
    }
  }

  /** The first `n` iterations of worker `indexId`, from `store`. */
  ghost function Run(store: Store, indexId: Int32, idRange: Int32,
                     clock: nat -> Int64, rng: nat -> UInt64, n: nat): WorkerState
  {
    Iterate(Step(indexId, idRange, clock, rng), WorkerState(store, [], 0), n)
  }

  /** Iteration `n + 1` of a run starts from the state left by the first `n`. */
  lemma RunNext(store: Store, indexId: Int32, idRange: Int32,
                clock: nat -> Int64, rng: nat -> UInt64, n: nat)
    requires WellFormed(store) && idRange != 0
    ensures WellFormed(Run(store, indexId, idRange, clock, rng, n).store)
    ensures Run(store, indexId, idRange, clock, rng, n + 1)
         == Iteration(Run(store, indexId, idRange, clock, rng, n), indexId, idRange, clock, rng)
  {
    RunWellFormed(store, indexId, idRange, clock, rng, n);
  }

  /**
   * After `n` iterations the worker has recorded `n` iterations, its store is
   * the initial one with each iteration's entry put in order, and it has drawn
   * once per miss.
   */
  lemma RunStore(store: Store, indexId: Int32, idRange: Int32,
                 clock: nat -> Int64, rng: nat -> UInt64, n: nat)
    requires WellFormed(store) && idRange != 0
    ensures var r := Run(store, indexId, idRange, clock, rng, n);
            |r.ops| == n && Reached(store, indexId, r)
  {
    StepAppends(store, indexId, idRange, clock, rng);
    IterateKeepsInvariant(Step(indexId, idRange, clock, rng), ReachedFrom(store, indexId), WorkerState(store, [], 0), n);
  }

  lemma RunWellFormed(store: Store, indexId: Int32, idRange: Int32,
                      clock: nat -> Int64, rng: nat -> UInt64, n: nat)
    requires WellFormed(store) && idRange != 0
    ensures |Run(store, indexId, idRange, clock, rng, n).ops| == n
    ensures WellFormed(Run(store, indexId, idRange, clock, rng, n).store)
  {
    RunStore(store, indexId, idRange, clock, rng, n);
  }

  /** Running further only appends: the first `m` records of a run of `n >= m` iterations are the run of `m`. */
  lemma RunPrefix(store: Store, indexId: Int32, idRange: Int32,
                  clock: nat -> Int64, rng: nat -> UInt64, m: nat, n: nat)
    requires m <= n
    requires WellFormed(store) && idRange != 0
    ensures |Run(store, indexId, idRange, clock, rng, n).ops| == n
    ensures Run(store, indexId, idRange, clock, rng, n).ops[..m] == Run(store, indexId, idRange, clock, rng, m).ops
  {
    var step := Step(indexId, idRange, clock, rng);
    var s := WorkerState(store, [], 0);
    StepAppends(store, indexId, idRange, clock, rng);
    IteratePrefix(step, ReachedFrom(store, indexId), s, m, n);
    IterateKeepsInvariant(step, ReachedFrom(store, indexId), s, m);
    IterateKeepsInvariant(step, ReachedFrom(store, indexId), s, n);
  }

  /**
   * Iteration `j` of a run works on key `j % id_range` at clock reading
   * `clock(j)`, reads the row id a lookup finds in the store left by the
   * first `j` iterations, and writes the next row id, consuming draw number
   * `Misses` of the earlier iterations.
   */
  lemma RunIteration(store: Store, indexId: Int32, idRange: Int32,
                     clock: nat -> Int64, rng: nat -> UInt64, j: nat, n: nat)
    requires j < n
    requires WellFormed(store) && idRange != 0
    ensures |Run(store, indexId, idRange, clock, rng, n).ops| == n
    ensures var op := Run(store, indexId, idRange, clock, rng, n).ops[j];
            var before := Run(store, indexId, idRange, clock, rng, j);
            && op.key == CppRem(j, idRange)
            && (idRange > 0 ==> 0 <= op.key < idRange)
            && op.timestamp == clock(j)
            && ReadableAt(before.store, OpKey(indexId, op))
            && op.oldRow == RowIdAt(before.store, OpKey(indexId, op))
            && op.newRow == NextRow(op.oldRow, rng(Misses(before.ops)))
  {
    RunPrefix(store, indexId, idRange, clock, rng, j + 1, n);
    RunStore(store, indexId, idRange, clock, rng, j);
    RunNext(store, indexId, idRange, clock, rng, j);
    var before := Run(store, indexId, idRange, clock, rng, j);
    var ops := Run(store, indexId, idRange, clock, rng, n).ops;
    assert ops[j] == ops[..j + 1][j];
    WellFormedReadable(before.store, OpKey(indexId, ops[j]));
    CppRemIsRemainder(j, idRange);
  }

  /**
   * One pass of `threadWorker`'s loop body, iteration `|ops|`: seek the
   * record's current row id at the clock reading, compute the next one
   * (drawing on a miss), and put it as a new version.
   */
  method WorkerIteration(store: Store, ops: seq<RmwOp>, draws: nat, indexId: Int32, idRange: Int32,
                         clock: nat -> Int64, rng: nat -> UInt64)
    returns (store': Store, op: RmwOp, draws': nat)
    requires WellFormed(store) && idRange != 0
    ensures op == NextOp(WorkerState(store, ops, draws), indexId, idRange, clock, rng)
    ensures WorkerState(store', ops + [op], draws') == Record(WorkerState(store, ops, draws), indexId, op)
    ensures WellFormed(store')
  {
    var key := CppRem(|ops|, idRange);
    var ts := clock(|ops|);
    WellFormedReadable(store, EncodeKey(indexId, key, ts));
    var oldRow := GetUniqueRowId(store, indexId, key, ts);
    var newRow := NextRow(oldRow, rng(draws));
    draws' := if oldRow == -1 then draws + 1 else draws;
    op := RmwOp(key, ts, oldRow, newRow);
    store' := store[EncodeKey(indexId, key, ts) := EncodeValue(newRow)];
  }

  /**
   * `threadWorker(indexId, counter)`: iteration `i` looks up record
   * `(indexId, i % id_range)` at clock reading `clock(i)`, writes the next row
   * id as a new version at that same timestamp, and bumps the counter.  The
   * random generator is consulted only on a miss; `rng(n)` is its n-th draw.
   */
  method ThreadWorker(store: Store, indexId: Int32, opsPerThread: Int32, idRange: Int32,
                      clock: nat -> Int64, rng: nat -> UInt64, counter: int)
    returns (store': Store, ops: seq<RmwOp>, counter': int)
    requires WellFormed(store)
    requires opsPerThread > 0 ==> idRange != 0
    ensures |ops| == Max0(opsPerThread)
    ensures counter' == counter + Max0(opsPerThread)
    ensures WellFormed(store') && store' == ApplyOps(store, indexId, ops)
    ensures ops == Run(store, indexId, idRange, clock, rng, Max0(opsPerThread)).ops
    ensures store' == Run(store, indexId, idRange, clock, rng, Max0(opsPerThread)).store
  {
    store' := store;
    ops := [];
    counter' := counter;
    var draws := 0;
    var i := 0;
    while i < opsPerThread
      invariant 0 <= i <= Max0(opsPerThread) && |ops| == i
      invariant counter' == counter + i
      invariant WellFormed(store') && store' == ApplyOps(store, indexId, ops)
      invariant WorkerState(store', ops, draws) == Run(store, indexId, idRange, clock, rng, i)
    {
      RunNext(store, indexId, idRange, clock, rng, i);
      var op;
      store', op, draws := WorkerIteration(store', ops, draws, indexId, idRange, clock, rng);
      ApplyOpsSnoc(store, indexId, ops, op);
      ops := ops + [op];
      counter' := counter' + 1;
      i := i + 1;
    }
  }

  /**
   * Against the store as it was before the benchmark, `current` differs only
   * inside the partitions of workers `0 .. n - 1`: no entry is lost, every new
   * key is 16 bytes and starts with one of those workers' ids, and every
   * entry outside those partitions keeps its value.
   */
  ghost predicate Partitioned(store: Store, current: Store, n: int)
  {
    && (forall k :: k in store ==> k in current)
    && (forall k :: k in current && k !in store ==> |k| == 16 && 0 <= DecodeInt32(k[0..4]) < n)
    && (forall k :: k in store && !(|k| == 16 && 0 <= DecodeInt32(k[0..4]) < n) ==> current[k] == store[k])
  }

  /** Running worker `i` after workers `0 .. i - 1` leaves the store changed only in partitions `0 .. i`. */
  lemma WorkerExtendsPartitions(store: Store, before: Store, i: Int32, ops: seq<RmwOp>)
    requires 0 <= i
    requires Partitioned(store, before, i)
    ensures Partitioned(store, ApplyOps(before, i, ops), i + 1)
  {
    ApplyOpsStaysInPartition(before, i, ops);
    forall k | IsOwnKey(i, k)
      ensures |k| == 16 && DecodeInt32(k[0..4]) == i
    {
      assert k[0..4] == k[..4];
    }
  }

  /**
   * The body of the thread-spawning loop: worker `i` runs on the shared store
   * and counter, and afterwards only partitions `0 .. i` have changed.
   */
  method RunWorker(store: Store, before: Store, i: Int32, opsPerThread: Int32, idRange: Int32,
                   clock: nat -> Int64, rng: nat -> UInt64, counter: int)
    returns (after: Store, counter': int)
    requires 0 <= i
    requires WellFormed(before) && Partitioned(store, before, i)
    requires opsPerThread > 0 ==> idRange != 0
    ensures WellFormed(after) && Partitioned(store, after, i + 1)
    ensures counter' == counter + Max0(opsPerThread)
  {
    var ops;
    after, ops, counter' := ThreadWorker(before, i, opsPerThread, idRange, clock, rng, counter);
    WorkerExtendsPartitions(store, before, i, ops);
  }

  /**
   * `MultiThreadPerf`: worker `i` of `thread_num` runs with `indexId = i` on
   * the shared store and counter; `clocks(i)` and `rngs(i)` are its clock and
   * generator.  The total is `thread_num * ops_per_thread`, and new keys
   * appear only in the workers' partitions.
   */
  method MultiThreadPerf(store: Store, threadNum: Int32, opsPerThread: Int32, idRange: Int32,
                         clocks: int -> nat -> Int64, rngs: int -> nat -> UInt64)
    returns (store': Store, totalOps: int)
    requires WellFormed(store)
    requires threadNum > 0 && opsPerThread > 0 ==> idRange != 0
    ensures totalOps == Max0(threadNum) * Max0(opsPerThread)
    ensures totalOps > 0 <==> threadNum > 0 && opsPerThread > 0
    ensures WellFormed(store')
    ensures Partitioned(store, store', threadNum)
  {
    store' := store;
    totalOps := 0;
    var i := 0;
    while i < threadNum
      invariant 0 <= i <= Max0(threadNum)
      invariant totalOps == i * Max0(opsPerThread)
      invariant WellFormed(store') && Partitioned(store, store', i)
    {
      store', totalOps := RunWorker(store, store', i, opsPerThread, idRange, clocks(i), rngs(i), totalOps);
      MulSucc(i, Max0(opsPerThread));
      i := i + 1;
    }
    MulPositive(Max0(threadNum), Max0(opsPerThread));
  }
}
