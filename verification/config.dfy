/**
 * Benchmark configuration: the timestamp strategy enumeration and its printed
 * names, the preset table, and the `Config(scale, ts_type)` constructor with
 * its database path.
 */
module Config {
  import opened ByteCodec

  /** `ts_type_t`: how a version's timestamp is represented. */
  datatype TsType = EmbedAsc | EmbedDesc | Udt

  /** `operator<<(std::ostream&, ts_type_t)` */
  function TsTypeName(t: TsType): (name: string)
    ensures |name| > 0
    ensures name != "unknown"
  {
    match t
    case EmbedAsc => "embed_asc"
    case EmbedDesc => "embed_desc"
    case Udt => "udt"
  }

  /** The three printed names are pairwise distinct, so a name identifies its strategy. */
  lemma TsTypeNameInjective(a: TsType, b: TsType)
    ensures TsTypeName(a) == TsTypeName(b) <==> a == b
  {
  }

  /** `Preset`: the six named benchmark scenarios. */
  datatype Preset = Udt10m | Asc10m | Desc10m | Udt1k | Asc1k | Desc1k

  const SCALE_10M: Int32 := 10000000
  const SCALE_1K: Int32 := 1000

  /** `Config::getScaleAndType` */
  function ScaleAndType(p: Preset): (r: (Int32, TsType))
    ensures r.0 == SCALE_10M <==> p in {Udt10m, Asc10m, Desc10m}
    ensures r.0 == SCALE_1K <==> p in {Udt1k, Asc1k, Desc1k}
    ensures r.1 == Udt <==> p in {Udt10m, Udt1k}
    ensures r.1 == EmbedAsc <==> p in {Asc10m, Asc1k}
    ensures r.1 == EmbedDesc <==> p in {Desc10m, Desc1k}
  {
    match p
    case Udt10m => (SCALE_10M, Udt)
    case Asc10m => (SCALE_10M, EmbedAsc)
    case Desc10m => (SCALE_10M, EmbedDesc)
    case Udt1k => (SCALE_1K, Udt)
    case Asc1k => (SCALE_1K, EmbedAsc)
    case Desc1k => (SCALE_1K, EmbedDesc)
  }

  /**
   * Every preset has a case of its own, so the `{0, embed_asc}` fallback after
   * the switch is never returned, and no two presets share a (scale, strategy).
   */
  lemma ScaleAndTypeInjective(p: Preset, q: Preset)
    ensures ScaleAndType(p).0 != 0
    ensures ScaleAndType(p) == ScaleAndType(q) ==> p == q
  {
  }

  // ---------------------------------------------------------------------
  // Decimal rendering of an `int` by `std::ostream`
  // ---------------------------------------------------------------------

  predicate IsDigit(c: char)
  {
    '0' <= c <= '9'
  }

  function DigitChar(d: nat): (c: char)
    requires d < 10
    ensures IsDigit(c)
  {
    ('0' as int + d) as char
  }

  function DigitValue(c: char): (d: nat)
    requires IsDigit(c)
    ensures d < 10
  {
    c as int - '0' as int
  }

  /** Decimal digits of `n`, most significant first, without leading zeros. */
  function NatToDecimal(n: nat): (s: string)
    ensures |s| > 0
    ensures forall i :: 0 <= i < |s| ==> IsDigit(s[i])
  {
    if n < 10 then [DigitChar(n)] else NatToDecimal(n / 10) + [DigitChar(n % 10)]
  }

  /** The number a string of decimal digits denotes. */
  function DecimalValue(s: string): nat
    requires forall i :: 0 <= i < |s| ==> IsDigit(s[i])
  {
    if |s| == 0 then 0 else 10 * DecimalValue(s[..|s| - 1]) + DigitValue(s[|s| - 1])
  }

  lemma {:induction false} DecimalRoundTrip(n: nat)
    ensures DecimalValue(NatToDecimal(n)) == n
  {
    var s := NatToDecimal(n);
    if n >= 10 {
      DecimalRoundTrip(n / 10);
      assert s[..|s| - 1] == NatToDecimal(n / 10);
    }
  }

  /** `os << i` for an `int i`: a minus sign for negatives, then the magnitude's digits. */
  function IntToDecimal(i: int): (s: string)
    ensures |s| > 0
    ensures '_' !in s
    ensures i < 0 <==> s[0] == '-'
  {
    if i < 0 then "-" + NatToDecimal(-i) else NatToDecimal(i)
  }

  lemma IntToDecimalInjective(a: int, b: int)
    requires IntToDecimal(a) == IntToDecimal(b)
    ensures a == b
  {
    if a < 0 {
      assert NatToDecimal(-a) == IntToDecimal(a)[1..] == IntToDecimal(b)[1..] == NatToDecimal(-b);
      DecimalRoundTrip(-a);
      DecimalRoundTrip(-b);
    } else {
      DecimalRoundTrip(a);
      DecimalRoundTrip(b);
    }
  }

  // ---------------------------------------------------------------------
  // Config
  // ---------------------------------------------------------------------

  /** `Config::db_path_prefix` */
  const DB_PATH_PREFIX: string := "/tmp/rocksdb"

  /** `Config`: one benchmark run's immutable settings. */
  datatype Config = Config(
    dbPath: string,
    threadNum: Int32,
    idRange: Int32,
    opsPerThread: Int32,
    destroyBeforeStart: bool,
    tsType: TsType)

  /** The fixed head of every database path the constructor writes. */
  const PATH_HEAD: string := "/tmp/rocksdb/" + "test_"

  /** `"/tmp/rocksdb/" << "test_" << id_range_ << "_" << ts_type_` */
  function DbPath(idRange: Int32, t: TsType): (path: string)
    ensures |PATH_HEAD| < |path| && path[..|PATH_HEAD|] == PATH_HEAD
  {
    PATH_HEAD + (IntToDecimal(idRange) + "_" + TsTypeName(t))
  }

  /** `Config(scale, ts_type)` */
  function MakeConfig(scale: Int32, t: TsType): (c: Config)
    ensures c.threadNum == 16 && c.opsPerThread == 1000000
    ensures c.destroyBeforeStart
    ensures c.idRange == scale && c.tsType == t
    ensures c.dbPath == DbPath(scale, t)
    ensures c.dbPath[..|DB_PATH_PREFIX| + 1] == DB_PATH_PREFIX + "/"
  {
    Config(DbPath(scale, t), 16, scale, 1000000, true, t)
  }

  /** `Config(Preset)` */
  function PresetConfig(p: Preset): (c: Config)
    ensures (c.idRange, c.tsType) == ScaleAndType(p)
  {
    var (scale, t) := ScaleAndType(p);
    MakeConfig(scale, t)
  }

  lemma FirstSeparator(a: string, x: string, sep: char)
    requires sep !in a
    ensures (a + [sep] + x)[|a|] == sep
    ensures forall i :: 0 <= i < |a| ==> (a + [sep] + x)[i] != sep
  {
    forall i | 0 <= i < |a|
      ensures (a + [sep] + x)[i] != sep
    {
      assert (a + [sep] + x)[i] == a[i];
    }
  }

  /** A separator that occurs in neither head splits a concatenation uniquely. */
  lemma SplitAtSeparator(a: string, x: string, b: string, y: string, sep: char)
    requires sep !in a && sep !in b
    requires a + [sep] + x == b + [sep] + y
    ensures a == b && x == y
  {
    var s := a + [sep] + x;
    FirstSeparator(a, x, sep);
    FirstSeparator(b, y, sep);
    assert |a| == |b|;
    assert a == s[..|a|] == b;
    assert x == s[|a| + 1..] == y;
  }

  lemma CancelPrefix(head: string, x: string, y: string)
    requires head + x == head + y
    ensures x == y
  {
    assert x == (head + x)[|head|..];
    assert y == (head + y)[|head|..];
  }

  /** The database path determines the scale and the strategy it was built from. */
  lemma DbPathInjective(s1: Int32, t1: TsType, s2: Int32, t2: TsType)
    requires DbPath(s1, t1) == DbPath(s2, t2)
    ensures s1 == s2 && t1 == t2
  {
    var r1 := IntToDecimal(s1) + "_" + TsTypeName(t1);
    var r2 := IntToDecimal(s2) + "_" + TsTypeName(t2);
    CancelPrefix(PATH_HEAD, r1, r2);
    SplitAtSeparator(IntToDecimal(s1), TsTypeName(t1), IntToDecimal(s2), TsTypeName(t2), '_');
    IntToDecimalInjective(s1, s2);
    TsTypeNameInjective(t1, t2);
  }

  /** Distinct presets run against distinct database directories. */
  lemma PresetPathsDistinct(p: Preset, q: Preset)
    requires p != q
    ensures PresetConfig(p).dbPath != PresetConfig(q).dbPath
  {
    ScaleAndTypeInjective(p, q);
    if PresetConfig(p).dbPath == PresetConfig(q).dbPath {
      DbPathInjective(ScaleAndType(p).0, ScaleAndType(p).1, ScaleAndType(q).0, ScaleAndType(q).1);
    }
  }
}
