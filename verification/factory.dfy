/**
 * `createRocksDB`: normalise the column-family list, choose each family's
 * options from the timestamp strategy, open the store and collect the
 * handles.  The store itself is abstract: listing its families and opening it
 * are parameters whose outcomes the model takes as given.
 */
module Factory {
  import opened Wrappers
  import opened Config

  /** `kDefaultColumnFamilyName` */
  const DEFAULT_CF: string := "default"

  // ---------------------------------------------------------------------
  // Column-family names
  // ---------------------------------------------------------------------

  /** The `hasDefault` scan: whether `names` holds `"default"`. */
  method HasDefault(names: seq<string>) returns (found: bool)
    ensures found <==> DEFAULT_CF in names
  {
    found := false;
    var i := 0;
    while i < |names|
      invariant 0 <= i <= |names|
      invariant found <==> DEFAULT_CF in names[..i]
    {
      assert names[..i + 1] == names[..i] + [names[i]];
      if names[i] == DEFAULT_CF {
        found := true;
      }
      i := i + 1;
    }
    assert names[..i] == names;
  }

  /**
   * The family names `createRocksDB` opens, given what `ListColumnFamilies`
   * reported (`None` when it failed): `["default"]` on failure, otherwise the
   * listed names with `"default"` appended when it is missing.
   */
  function NormalizedNames(listed: Option<seq<string>>): (names: seq<string>)
    ensures DEFAULT_CF in names
    ensures listed.None? ==> names == [DEFAULT_CF]
    ensures listed.Some? ==> |listed.value| <= |names| <= |listed.value| + 1
    ensures listed.Some? ==> names[..|listed.value|] == listed.value
    ensures listed.Some? ==> (|names| == |listed.value| <==> DEFAULT_CF in listed.value)
  {
    var existing := if listed.None? then [DEFAULT_CF] else listed.value;
    if DEFAULT_CF in existing then existing else existing + [DEFAULT_CF]
  }

  /** The opened families are the listed ones plus `"default"`, and nothing else. */
  lemma NormalizedNamesSet(listed: seq<string>)
    ensures (set n | n in NormalizedNames(Some(listed))) == (set n | n in listed) + {DEFAULT_CF}
  {
    var names := NormalizedNames(Some(listed));
    if DEFAULT_CF !in listed {
      assert names == listed + [DEFAULT_CF];
    }
  }

  /** Normalising a normalised list changes nothing. */
  lemma NormalizedNamesIdempotent(listed: Option<seq<string>>)
    ensures NormalizedNames(Some(NormalizedNames(listed))) == NormalizedNames(listed)
  {
  }

  /** The normalisation loop of `createRocksDB`: the `hasDefault` scan and the conditional append. */
  method NormalizeColumnFamilies(listed: Option<seq<string>>) returns (names: seq<string>)
    ensures names == NormalizedNames(listed)
  {
    names := if listed.None? then [DEFAULT_CF] else listed.value;
    var hasDefault := HasDefault(names);
    if !hasDefault {
      names := names + [DEFAULT_CF];
    }
  }

  // ---------------------------------------------------------------------
  // Per-family options
  // ---------------------------------------------------------------------

  /** The key comparator of a family. */
  datatype Comparator = Bytewise | BytewiseWithU64Ts

  /** `NewBloomFilterPolicy(bits_per_key, use_block_based_builder)` */
  datatype FilterPolicy = BloomFilter(bitsPerKey: nat, useBlockBasedBuilder: bool)

  /** The table format: RocksDB's default, or a block-based table with a filter. */
  datatype TableFactory = DefaultTable | BlockBasedTable(filter: FilterPolicy, wholeKeyFiltering: bool)

  /** The `ColumnFamilyOptions` fields `createRocksDB` sets; `prefixExtractor` is a fixed prefix length. */
  datatype CfOptions = CfOptions(
    comparator: Comparator,
    prefixExtractor: Option<nat>,
    tableFactory: TableFactory,
    writeBufferSize: nat)

  /** `(size_t)6 << 30`: six gibibytes. */
  const WRITE_BUFFER_SIZE: nat := 6 * 0x4000_0000

  /** The bloom-filter table `embed_desc` uses: 10 bits per key, full filters, no whole-key filtering. */
  const DESC_TABLE: TableFactory := BlockBasedTable(BloomFilter(10, false), false)

  /** The length of the fixed prefix `embed_desc` extracts: `indexId ‖ key`. */
  const DESC_PREFIX_LENGTH: nat := 8

  /** The options every family gets under strategy `t`. */
  function CfOptionsFor(t: TsType): (o: CfOptions)
    ensures o.comparator == BytewiseWithU64Ts <==> t == Udt
    ensures o.prefixExtractor.Some? <==> t == EmbedDesc
    ensures o.tableFactory.BlockBasedTable? <==> t == EmbedDesc
    ensures t == EmbedDesc ==> o.prefixExtractor == Some(DESC_PREFIX_LENGTH) && o.tableFactory == DESC_TABLE
    ensures o.writeBufferSize == WRITE_BUFFER_SIZE
  {
    var comparator := if t == Udt then BytewiseWithU64Ts else Bytewise;
    if t == EmbedDesc then CfOptions(comparator, Some(DESC_PREFIX_LENGTH), DESC_TABLE, WRITE_BUFFER_SIZE)
    else CfOptions(comparator, None, DefaultTable, WRITE_BUFFER_SIZE)
  }

  /** The three strategies open their families with three different option sets. */
  lemma CfOptionsForInjective(a: TsType, b: TsType)
    ensures CfOptionsFor(a) == CfOptionsFor(b) <==> a == b
  {
    if a != b {
      if a == Udt || b == Udt {
        assert CfOptionsFor(a).comparator != CfOptionsFor(b).comparator;
      } else {
        assert CfOptionsFor(a).prefixExtractor != CfOptionsFor(b).prefixExtractor;
      }
    }
  }

  /** `ColumnFamilyDescriptor(name, options)` */
  datatype Descriptor = Descriptor(name: string, options: CfOptions)

  /** The descriptors of `names`, one per name and in the same order, all with strategy `t`'s options. */
  function Descriptors(names: seq<string>, t: TsType): (ds: seq<Descriptor>)
    ensures |ds| == |names|
    ensures forall i :: 0 <= i < |ds| ==> ds[i].name == names[i] && ds[i].options == CfOptionsFor(t)
  {
    if |names| == 0 then [] else Descriptors(names[..|names| - 1], t) + [Descriptor(names[|names| - 1], CfOptionsFor(t))]
  }

  /** The descriptor loop of `createRocksDB`. */
  method BuildDescriptors(names: seq<string>, t: TsType) returns (ds: seq<Descriptor>)
    ensures ds == Descriptors(names, t)
  {
    ds := [];
    var i := 0;
    while i < |names|
      invariant 0 <= i <= |names|
      invariant ds == Descriptors(names[..i], t)
    {
      assert names[..i + 1][..i] == names[..i];
      ds := ds + [Descriptor(names[i], CfOptionsFor(t))];
      i := i + 1;
    }
    assert names[..i] == names;
  }

  /** Every family `createRocksDB` opens, `"default"` included, carries the strategy's options. */
  lemma DefaultFamilyDescribed(listed: Option<seq<string>>, t: TsType)
    ensures Descriptor(DEFAULT_CF, CfOptionsFor(t)) in Descriptors(NormalizedNames(listed), t)
  {
    var names := NormalizedNames(listed);
    var i :| 0 <= i < |names| && names[i] == DEFAULT_CF;
    DescribedAt(names, t, i);
  }

  /** The name at position `i` is described, at the same position, with the strategy's options. */
  lemma DescribedAt(names: seq<string>, t: TsType, i: nat)
    requires i < |names|
    ensures Descriptor(names[i], CfOptionsFor(t)) in Descriptors(names, t)
  {
    assert Descriptors(names, t)[i] == Descriptor(names[i], CfOptionsFor(t));
  }

  // ---------------------------------------------------------------------
  // Opening the store
  // ---------------------------------------------------------------------

  /** An opaque column-family handle, as `DB::Open` hands it out. */
  type Handle = nat

  /** An opaque open database. */
  type Db = nat

  /** What `DB::Open` reports: the database and one handle per descriptor, or a failed status's text. */
  datatype OpenOutcome = Opened(db: Db, rawHandles: seq<Handle>) | OpenFailed(status: string)

  /** The text of the exception a failed open raises. */
  const OPEN_ERROR_HEAD: string := "Failed to open RocksDB: "

  /**
   * `createRocksDB(cfg, handles)`.  `listFamilies(path)` is what
   * `ListColumnFamilies` reports for `path` (`None` when it fails), and
   * `open(path, descriptors)` what `DB::Open` does with them.  On success the
   * caller's handles are replaced by the raw handles, in order; on failure the
   * error carries the status text and the caller's handles are untouched.
   */
  method CreateRocksDB(cfg: Config, listFamilies: string -> Option<seq<string>>,
                       open: (string, seq<Descriptor>) -> OpenOutcome, handles: seq<Handle>)
    returns (r: Result<Db, string>, handles': seq<Handle>)
    ensures var outcome := open(cfg.dbPath, Descriptors(NormalizedNames(listFamilies(cfg.dbPath)), cfg.tsType));
      && (outcome.OpenFailed? ==> r == Failure(OPEN_ERROR_HEAD + outcome.status) && handles' == handles)
      && (outcome.Opened? ==> r == Success(outcome.db) && handles' == outcome.rawHandles)
  {
    var names := NormalizeColumnFamilies(listFamilies(cfg.dbPath));
    var descriptors := BuildDescriptors(names, cfg.tsType);
    var outcome := open(cfg.dbPath, descriptors);
    if outcome.OpenFailed? {
      return Failure(OPEN_ERROR_HEAD + outcome.status), handles;
    }
    handles' := CollectHandles(outcome.rawHandles);
    r := Success(outcome.db);
  }

  /** `handles.clear()` and one `emplace_back` per raw handle, in order. */
  method CollectHandles(rawHandles: seq<Handle>) returns (handles: seq<Handle>)
    ensures |handles| == |rawHandles|
    ensures forall i :: 0 <= i < |handles| ==> handles[i] == rawHandles[i]
  {
    handles := [];
    var i := 0;
    while i < |rawHandles|
      invariant 0 <= i <= |rawHandles|
      invariant handles == rawHandles[..i]
    {
      handles := handles + [rawHandles[i]];
      i := i + 1;
    }
  }
}
