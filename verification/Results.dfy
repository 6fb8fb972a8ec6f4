/** Buffered query results, and how Go renders a scanned value as text or as an integer. */
module Results {
  import opened Basics
  import opened Decimal

  type int8 = n: int | -0x80 <= n <= 0x7F
  type int16 = n: int | -0x8000 <= n <= 0x7FFF
  type int32 = n: int | -0x8000_0000 <= n <= 0x7FFF_FFFF
  type int64 = n: int | FitsInt64(n)
  type uint8 = n: int | 0 <= n <= 0xFF
  type uint16 = n: int | 0 <= n <= 0xFFFF
  type uint32 = n: int | 0 <= n <= 0xFFFF_FFFF
  type uint64 = n: int | 0 <= n < TWO_64

  /** A value scanned from DuckDB. `Big` is a *big.Int; `Other` is any type the encoders do not name
      (a decimal, an interval, a UUID), by the text fmt.Sprint gives it. */
  datatype Value =
    | Null
    | Bool(b: bool)
    | Int8(i8: int8) | Int16(i16: int16) | Int32(i32: int32) | Int64(i64: int64)
    | Uint8(u8: uint8) | Uint16(u16: uint16) | Uint32(u32: uint32) | Uint64(u64: uint64)
    | Big(n: int)
    | Float(r: real)
    | Text(s: string)
    | Time(seconds: int, micros: nat)
    | Other(text: string)

  datatype Column = Column(name: string, typ: string)

  datatype QueryResult = QueryResult(cols: seq<Column>, rows: seq<seq<Value>>)

  /** Every row is as wide as the column list. */
  predicate Rectangular(res: QueryResult) {
    forall j :: 0 <= j < |res.rows| ==> |res.rows[j]| == |res.cols|
  }

  /** What running a text gives: a result, an error, or a result cut short by an error. */
  datatype Outcome = Rows(res: QueryResult) | RowsThenError(res: QueryResult, err: string) | Failed(err: string)

  /** Library conversions whose rounding or layout is not the point: printing floats and times
      (`stamp` is the layout without fractions), their binary forms, and Go's conversions between
      float64, text, time and int64. `decimal` is the number a decimal's text stands for. */
  datatype Codec = Codec(
    show: Value -> string,
    stamp: Value -> string,
    binary: (Value, nat) -> string,
    truncate: real -> int64,
    parseFloat: string -> real,
    parseTime: string -> Option<(int, nat)>,
    decimal: string -> real)

  function Sprint(codec: Codec, v: Value): string {
    match v
    case Null => "<nil>"
    case Bool(b) => if b then "true" else "false"
    case Int8(n) => Format(n)
    case Int16(n) => Format(n)
    case Int32(n) => Format(n)
    case Int64(n) => Format(n)
    case Uint8(n) => Format(n)
    case Uint16(n) => Format(n)
    case Uint32(n) => Format(n)
    case Uint64(n) => Format(n)
    case Big(n) => Format(n)
    case Text(s) => s
    case Other(t) => t
    case Float(_) => codec.show(v)
    case Time(_, _) => codec.show(v)
  }

  /** Go's int64(x) of a uint64. */
  function Wrap64(n: uint64): int64 {
    if n > INT64_MAX then n - TWO_64 else n
  }

  /** toInt: the types it names convert, the rest go through their printed text. */
  function ToInt(codec: Codec, v: Value): int64 {
    match v
    case Int64(n) => n
    case Int32(n) => n
    case Int16(n) => n
    case Uint64(n) => Wrap64(n)
    case Uint32(n) => n
    case Float(r) => codec.truncate(r)
    case Bool(b) => if b then 1 else 0
    case _ => ParseInt64(TrimSpace(Sprint(codec, v)))
  }

  function ToBool(codec: Codec, v: Value): bool {
    match v
    case Bool(b) => b
    case Text(s) => s == "true" || s == "t" || s == "1"
    case _ => ToInt(codec, v) != 0
  }

  /** ExceedsInt64 of internal/fidelity. */
  predicate ExceedsInt64(codec: Codec, v: Value) {
    match v
    case Uint64(n) => n > INT64_MAX
    case Big(n) => !FitsInt64(n)
    case _ =>
      match Parse(TrimSpace(Sprint(codec, v)))
      case None => false
      case Some(n) => !FitsInt64(n)
  }

  /** The integer a value stands for, in any of the representations a driver may choose. */
  function IntegerOf(v: Value): Option<int> {
    match v
    case Int8(n) => Some(n)
    case Int16(n) => Some(n)
    case Int32(n) => Some(n)
    case Int64(n) => Some(n)
    case Uint8(n) => Some(n)
    case Uint16(n) => Some(n)
    case Uint32(n) => Some(n)
    case Uint64(n) => Some(n)
    case Big(n) => Some(n)
    case Text(s) => Parse(TrimSpace(s))
    case _ => None
  }

  // ---------- column types ----------

  /** The DuckDB types the protocol layers tell apart; `Varchar` is every other name. */
  datatype DuckType =
    | Boolean | TinyInt | SmallInt | Integer | BigInt | HugeInt
    | UTinyInt | USmallInt | UInteger | UBigInt | UHugeInt
    | Real | Double | Decimal
    | Date | Timestamp | TimeOfDay | Interval | Uuid | Blob | Bit
    | Varchar

  /** The type of a name in any case, with or without parameters: DECIMAL(5,2) is Decimal. */
  function TypeOf(name: string): DuckType {
    TypeOfBase(Until(Upper(name), c => c == '('))
  }

  function TypeOfBase(base: string): DuckType {
    if base == "BOOLEAN" || base == "BOOL" then Boolean
    else if base == "TINYINT" then TinyInt
    else if base == "SMALLINT" || base == "INT2" then SmallInt
    else if base == "INTEGER" || base == "INT" || base == "INT4" then Integer
    else if base == "BIGINT" || base == "INT8" then BigInt
    else if base == "HUGEINT" then HugeInt
    else if base == "UTINYINT" then UTinyInt
    else if base == "USMALLINT" then USmallInt
    else if base == "UINTEGER" then UInteger
    else if base == "UBIGINT" then UBigInt
    else if base == "UHUGEINT" then UHugeInt
    else if base == "REAL" || base == "FLOAT" || base == "FLOAT4" then Real
    else if base == "DOUBLE" || base == "FLOAT8" then Double
    else if base == "DECIMAL" || base == "NUMERIC" then Decimal
    else if base == "DATE" then Date
    else if base == "TIMESTAMP" || base == "DATETIME" then Timestamp
    else if base == "TIME" then TimeOfDay
    else if base == "INTERVAL" then Interval
    else if base == "UUID" then Uuid
    else if base == "BLOB" then Blob
    else if base == "BIT" then Bit
    else Varchar
  }

  /** The name of a type that notes quote. */
  function TypeName(t: DuckType): string {
    match t
    case Date => "DATE"
    case TimeOfDay => "TIME"
    case Interval => "INTERVAL"
    case Uuid => "UUID"
    case Blob => "BLOB"
    case Bit => "BIT"
    case _ => ""
  }

  function IntegerRange(t: DuckType): Option<(int, int)> {
    match t
    case TinyInt => Some((-0x80, 0x7F))
    case SmallInt => Some((-0x8000, 0x7FFF))
    case Integer => Some((-0x8000_0000, 0x7FFF_FFFF))
    case BigInt => Some((INT64_MIN, INT64_MAX))
    case HugeInt => Some((-0x8000_0000_0000_0000_0000_0000_0000_0000, 0x7FFF_FFFF_FFFF_FFFF_FFFF_FFFF_FFFF_FFFF))
    case UTinyInt => Some((0, 0xFF))
    case USmallInt => Some((0, 0xFFFF))
    case UInteger => Some((0, 0xFFFF_FFFF))
    case UBigInt => Some((0, TWO_64 - 1))
    case UHugeInt => Some((0, 0xFFFF_FFFF_FFFF_FFFF_FFFF_FFFF_FFFF_FFFF))
    case _ => None
  }

  predicate WideInteger(t: DuckType) {
    t.HugeInt? || t.UHugeInt? || t.UBigInt?
  }

  /** `v` is NULL or an integer in the range of the type; other types are not constrained. */
  predicate FitsType(t: DuckType, v: Value) {
    match IntegerRange(t)
    case None => true
    case Some((lo, hi)) =>
      v.Null? || match IntegerOf(v) case None => false case Some(n) => lo <= n <= hi
  }

  /** Every cell of an integer column is NULL or in the column's range. */
  predicate WellTyped(res: QueryResult) {
    forall j, i :: 0 <= j < |res.rows| && 0 <= i < |res.cols| && i < |res.rows[j]| ==>
      FitsType(TypeOf(res.cols[i].typ), res.rows[j][i])
  }

  // ---------- booleans ----------

  /** What counts as true: true itself, the texts true, t and 1, and every integer but zero. */
  lemma ToBoolTold(codec: Codec, v: Value)
    ensures v.Bool? ==> ToBool(codec, v) == v.b
    ensures v.Text? ==> (ToBool(codec, v) <==> v.s in ["true", "t", "1"])
    ensures !v.Text? && IntegerOf(v).Some? ==> (ToBool(codec, v) <==> IntegerOf(v).value != 0)
  {
    if !v.Text? && IntegerOf(v).Some? {
      hide ToInt, ExceedsInt64;
      ToIntOfInteger(codec, v, IntegerOf(v).value);
    }
  }

  // ---------- integers survive their text ----------

  lemma TrimFormat(n: int)
    ensures TrimSpace(Format(n)) == Format(n)
  {
    DigitsValue(if n < 0 then -n else n);
    var s := Format(n);
    assert !IsSpace(s[0]);
    assert !IsSpace(s[|s| - 1]);
  }

  /** toInt is exact on every integer that fits, in every representation; it saturates the ones it
      reads as text and wraps a uint64. */
  lemma ToIntOfInteger(codec: Codec, v: Value, n: int)
    requires IntegerOf(v) == Some(n)
    ensures ToInt(codec, v) ==
            if v.Uint64? then (if n > INT64_MAX then n - TWO_64 else n)
            else if n > INT64_MAX then INT64_MAX
            else if n < INT64_MIN then INT64_MIN
            else n
    ensures ExceedsInt64(codec, v) <==> !FitsInt64(n)
  {
    TrimFormat(n);
    ParseFormat(n);
  }
}
