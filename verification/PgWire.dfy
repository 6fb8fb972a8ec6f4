/** The Postgres encoders of internal/pg/handler.go and the loss report of internal/pg/fidelity.go. */
module PgWire {
  import opened Basics
  import opened Decimal
  import opened Results
  import opened Fidelity
  import opened Reporting

  // ---------- OIDs ----------

  function Oid(t: DuckType): nat {
    match t
    case Boolean => 16
    case TinyInt => 21
    case SmallInt => 21
    case UTinyInt => 21
    case Integer => 23
    case USmallInt => 23
    case BigInt => 20
    case UInteger => 20
    case HugeInt => 20
    case UBigInt => 20
    case UHugeInt => 20
    case Real => 700
    case Double => 701
    case Decimal => 701
    case Date => 1082
    case Timestamp => 1114
    case _ => 25
  }

  // ---------- big-endian two's complement ----------

  function Pow256(k: nat): (p: nat)
    ensures p > 0
  {
    if k == 0 then 1 else 256 * Pow256(k - 1)
  }

  function BigEndian(n: nat, k: nat): string {
    if k == 0 then [] else BigEndian(n / 256, k - 1) + [(n % 256) as char]
  }

  /** An integer cut to `k` bytes: Go's conversion to the unsigned type of that width. */
  function PutInt(n: int, k: nat): string {
    ModBounds(n, Pow256(k));
    BigEndian(n % Pow256(k), k)
  }

  lemma ModBounds(n: int, p: int)
    requires p > 0
    ensures 0 <= n % p < p
  {
  }

  function Unsigned(bytes: string): nat {
    if bytes == [] then 0
    else Unsigned(bytes[..|bytes| - 1]) * 256 + bytes[|bytes| - 1] as int
  }

  /** What a client reads: two's complement of the width received. */
  function Signed(bytes: string): int {
    var u, p := Unsigned(bytes), Pow256(|bytes|);
    if 2 * u >= p then u - p else u
  }

  lemma {:induction false} UnsignedBigEndian(n: nat, k: nat)
    requires n < Pow256(k)
    ensures |BigEndian(n, k)| == k && Unsigned(BigEndian(n, k)) == n
  {
    if k > 0 {
      UnsignedBigEndian(n / 256, k - 1);
      var s := BigEndian(n, k);
      assert s[..|s| - 1] == BigEndian(n / 256, k - 1);
    }
  }

  lemma ModSmall(n: int, p: int)
    requires 0 < p && -p < n < p
    ensures n % p == if n < 0 then n + p else n
  {
  }

  lemma SignedResidue(n: int, p: int)
    requires p > 1
    ensures var u := n % p; (if 2 * u >= p then u - p else u) == n <==> -p <= 2 * n < p
  {
    ModBounds(n, p);
    if -p < n < p { ModSmall(n, p); }
  }

  lemma PowAboveOne(k: nat)
    requires k > 0
    ensures Pow256(k) > 1
  {
    assert Pow256(k) == 256 * Pow256(k - 1);
  }

  /** Decoding gives the integer back exactly when it fits the width. */
  lemma PutIntExact(n: int, k: nat)
    requires k > 0
    ensures |PutInt(n, k)| == k
    ensures Signed(PutInt(n, k)) == n <==> 0 - Pow256(k) <= 2 * n < Pow256(k)
  {
    hide BigEndian, Unsigned, Pow256;
    var p: int := Pow256(k);
    ModBounds(n, p);
    UnsignedBigEndian(n % p, k);
    PowAboveOne(k);
    SignedResidue(n, p);
  }

  // ---------- encoding ----------

  function EncodeText(codec: Codec, v: Value): string {
    match v
    case Bool(b) => if b then "t" else "f"
    case _ => Sprint(codec, v)
  }

  function EncodeBinary(codec: Codec, v: Value, oid: nat): string {
    match oid
    case 16 => if ToBool(codec, v) then [1 as char] else [0 as char]
    case 21 => PutInt(ToInt(codec, v), 2)
    case 23 => PutInt(ToInt(codec, v), 4)
    case 20 => PutInt(ToInt(codec, v), 8)
    case 700 => codec.binary(v, oid)
    case 701 => codec.binary(v, oid)
    case 1114 => codec.binary(v, oid)
    case 1082 => codec.binary(v, oid)
    case _ => EncodeText(codec, v)
  }

  /** encodeValue: `None` is SQL NULL. */
  function EncodeValue(codec: Codec, v: Value, oid: nat, format: int): Option<string> {
    if v.Null? then None
    else if format == 1 then Some(EncodeBinary(codec, v, oid))
    else Some(EncodeText(codec, v))
  }

  lemma Powers()
    ensures Pow256(2) == 0x1_0000 && Pow256(4) == 0x1_0000_0000 && Pow256(8) == TWO_64
  {
    assert Pow256(1) == 256 * Pow256(0);
    assert Pow256(2) == 256 * Pow256(1);
    assert Pow256(3) == 256 * Pow256(2);
    assert Pow256(4) == 256 * Pow256(3);
    assert Pow256(5) == 256 * Pow256(4);
    assert Pow256(6) == 256 * Pow256(5);
    assert Pow256(7) == 256 * Pow256(6);
  }

  /** Every integer type, every value in its range, every representation: the binary field decodes to
      the value exactly when the value does not exceed int64, which only the wide types can. */
  lemma BinaryIntegerExact(codec: Codec, t: DuckType, v: Value, n: int)
    requires IntegerRange(t).Some? && FitsType(t, v) && IntegerOf(v) == Some(n)
    ensures Signed(EncodeBinary(codec, v, Oid(t))) == n <==> !ExceedsInt64(codec, v)
    ensures ExceedsInt64(codec, v) ==> WideInteger(t)
  {
    hide PutInt, Signed, ToInt, ExceedsInt64, Pow256;
    var m := ToInt(codec, v);
    ToIntOfInteger(codec, v, n);
    Powers();
    PutIntExact(m, 2);
    PutIntExact(m, 4);
    PutIntExact(m, 8);
  }

  /** A value the report calls sent as 0 never is: it wraps or saturates to something else. */
  lemma LossyIsNeverZero(codec: Codec, v: Value, n: int)
    requires IntegerOf(v) == Some(n) && ExceedsInt64(codec, v)
    ensures Signed(EncodeBinary(codec, v, 20)) != 0 && Signed(EncodeBinary(codec, v, 20)) != n
  {
    hide PutInt, Signed, ExceedsInt64, Pow256;
    var m := ToInt(codec, v);
    ToIntOfInteger(codec, v, n);
    Powers();
    PutIntExact(m, 8);
    assert m != 0 && m != n;
  }

  /** In text format every integer is exact, the wide ones too. */
  lemma TextIntegerExact(codec: Codec, v: Value, n: int, oid: nat)
    requires IntegerOf(v) == Some(n)
    ensures var field := EncodeValue(codec, v, oid, 0); field.Some? && Parse(TrimSpace(field.value)) == Some(n)
  {
    TrimFormat(n);
    ParseFormat(n);
  }

  // ---------- the report ----------

  const EXCEEDS := "value exceeds int64 and " + "is sent as 0"
  const DECIMAL := "DECIMAL shown as float8" + DECIMAL_LOST

  function TypeNote(t: DuckType): Option<string> {
    match t
    case Decimal => Some(DECIMAL)
    case UTinyInt => Some(UNSIGNED)
    case USmallInt => Some(UNSIGNED)
    case UInteger => Some(UNSIGNED)
    case UBigInt => Some(UNSIGNED)
    case UHugeInt => Some(UNSIGNED)
    case TimeOfDay => Some(TypeName(t) + AS_TEXT)
    case Interval => Some(TypeName(t) + AS_TEXT)
    case Uuid => Some(TypeName(t) + AS_TEXT)
    case Blob => Some(TypeName(t) + AS_TEXT)
    case Bit => Some(TypeName(t) + AS_TEXT)
    case _ => None
  }

  function ValueNote(codec: Codec, t: DuckType, v: Value): Option<string> {
    if WideInteger(t) && ExceedsInt64(codec, v) then Some(EXCEEDS) else None
  }

  function PgRules(codec: Codec): Rules {
    Rules(t => TypeNote(t), (t, v) => ValueNote(codec, t, v))
  }

  method PgReport(codec: Codec, res: QueryResult) returns (r: Report)
    ensures fresh(r) && r.Valid() && r.notes == NotesOf(Adds(PgRules(codec), res))
  {
    r := BuildReport(PgRules(codec), res);
  }

  lemma ReasonsClean(codec: Codec)
    ensures CleanRules(PgRules(codec)) && NulFree(EXCEEDS)
    ensures forall t :: TypeNote(t) != Some(EXCEEDS)
  {
    SharedReasonsClean();
    NulFreeConcat("value exceeds int64 and ", "is sent as 0");
    NulFreeConcat("DECIMAL shown as float8", DECIMAL_LOST);
    forall t | TypeNote(t).Some? ensures NulFree(TypeNote(t).value) && TypeNote(t) != Some(EXCEEDS) {
      hide NulFree;
      NulFreeConcat(TypeName(t), AS_TEXT);
      assert EXCEEDS[0] == 'v' && TypeNote(t).value[0] != 'v';
    }
  }

  // ---------- the report counts the losses ----------

  /** The binary field of this cell decodes to another integer. */
  predicate LossyCell(codec: Codec, t: DuckType, v: Value) {
    && IntegerRange(t).Some?
    && IntegerOf(v).Some?
    && Signed(EncodeBinary(codec, v, Oid(t))) != IntegerOf(v).value
  }

  function Lossy(codec: Codec): (DuckType, Value) -> bool {
    (t, v) => LossyCell(codec, t, v)
  }

  lemma NullIsNoInteger(codec: Codec)
    ensures !ExceedsInt64(codec, Null)
  {
    var s := "<nil>";
    assert TrimLeft(s, IsSpace) == s && TrimRight(s, IsSpace) == s;
    assert !IsDigit(s[0]);
  }

  lemma LossyIsNoted(codec: Codec, t: DuckType, v: Value)
    requires FitsType(t, v)
    ensures LossyCell(codec, t, v) <==> ValueNote(codec, t, v) == Some(EXCEEDS)
  {
    hide Signed, EncodeBinary, ExceedsInt64, Oid;
    if v.Null? {
      NullIsNoInteger(codec);
    } else if IntegerRange(t).Some? {
      BinaryIntegerExact(codec, t, v, IntegerOf(v).value);
    }
  }

  /** For every well-typed result: a column name has the int64 note exactly when some integer cell
      under that name decodes to another value in binary format, and the note's count is the number of
      such cells. */
  lemma ReportCountsBinaryLosses(codec: Codec, res: QueryResult, name: string)
    requires WellTyped(res)
    ensures var notes, lost := NotesOf(Adds(PgRules(codec), res)), CountCells(res, name, Lossy(codec), |res.cols|);
            && (Key(name, EXCEEDS) in notes <==> lost > 0)
            && (lost > 0 ==> notes[Key(name, EXCEEDS)] == Note(name, EXCEEDS, lost))
  {
    hide NotesOf, AddsUpTo, CountCells, CountColumns, TypeOf, LossyCell, ValueNote, TypeNote, FitsType;
    var rules := PgRules(codec);
    ReasonsClean(codec);
    ReportCounts(rules, res, name, EXCEEDS);
    NoSuchColumn(res, name, NotesType(rules, EXCEEDS), |res.cols|);
    forall ci | 0 <= ci < |res.cols|
      ensures AgreeInColumn(TypeOf(res.cols[ci].typ), ci, res.rows, NotesValue(rules, EXCEEDS), Lossy(codec))
    {
      forall j | 0 <= j < |res.rows| && ci < |res.rows[j]|
        ensures NotesValue(rules, EXCEEDS)(TypeOf(res.cols[ci].typ), res.rows[j][ci]) <==>
                Lossy(codec)(TypeOf(res.cols[ci].typ), res.rows[j][ci])
      {
        LossyIsNoted(codec, TypeOf(res.cols[ci].typ), res.rows[j][ci]);
      }
    }
    CountCellsAgrees(res, name, |res.cols|, NotesValue(rules, EXCEEDS), Lossy(codec));
  }

  // ---------- what a client reads off a field ----------

  /** The bytes of an integer type on the wire, by the OID a client is told. */
  function WireWidth(oid: nat): nat {
    if oid == 21 then 2 else if oid == 23 then 4 else 8
  }

  /** NULL is no field; a boolean is a byte 1 or 0, or a letter; an integer that int64 holds is its
      two's complement in the announced width, and every integer is its decimal text; text is itself. */
  predicate Reads(codec: Codec, t: DuckType, v: Value, binary: bool, field: Option<string>) {
    && (field.None? <==> v.Null?)
    && (t.Boolean? && v.Bool? ==>
          field == Some(if binary then (if v.b then [1 as char] else [0 as char]) else if v.b then "t" else "f"))
    && (IntegerRange(t).Some? && IntegerOf(v).Some? ==>
          if binary then
            Oid(t) in {20, 21, 23} && |field.value| == WireWidth(Oid(t))
            && (!ExceedsInt64(codec, v) ==> Signed(field.value) == IntegerOf(v).value)
          else Parse(TrimSpace(field.value)) == IntegerOf(v))
    && (v.Text? && (!binary || Oid(t) == 25) ==> field == Some(v.s))
    && (v.Other? && (!binary || Oid(t) == 25) ==> field == Some(v.text))
    && ((v.Float? || v.Time?) && (!binary || Oid(t) == 25) ==> field == Some(codec.show(v)))
    && (!v.Null? && binary && Oid(t) in {700, 701, 1082, 1114} ==> field == Some(codec.binary(v, Oid(t))))
  }

  lemma BinaryFieldWidth(codec: Codec, t: DuckType, v: Value)
    requires IntegerRange(t).Some?
    ensures Oid(t) in {20, 21, 23} && |EncodeBinary(codec, v, Oid(t))| == WireWidth(Oid(t))
  {
    hide PutInt, ToInt, Signed, Pow256;
    var m := ToInt(codec, v);
    PutIntExact(m, 2);
    PutIntExact(m, 4);
    PutIntExact(m, 8);
  }

  lemma IntegerFieldReads(codec: Codec, t: DuckType, v: Value, format: int)
    requires FitsType(t, v) && IntegerRange(t).Some? && IntegerOf(v).Some?
    ensures var field := EncodeValue(codec, v, Oid(t), format);
            && field.Some?
            && if format == 1 then
                 Oid(t) in {20, 21, 23} && |field.value| == WireWidth(Oid(t))
                 && (!ExceedsInt64(codec, v) ==> Signed(field.value) == IntegerOf(v).value)
               else Parse(TrimSpace(field.value)) == IntegerOf(v)
  {
    hide Signed, ExceedsInt64, EncodeBinary, Parse, TrimSpace, EncodeText, Oid;
    if format == 1 {
      BinaryIntegerExact(codec, t, v, IntegerOf(v).value);
      BinaryFieldWidth(codec, t, v);
    } else {
      TextIntegerExact(codec, v, IntegerOf(v).value, Oid(t));
      assert EncodeValue(codec, v, Oid(t), format) == EncodeValue(codec, v, Oid(t), 0);
    }
  }

  lemma FieldReads(codec: Codec, t: DuckType, v: Value, format: int)
    requires FitsType(t, v)
    ensures Reads(codec, t, v, format == 1, EncodeValue(codec, v, Oid(t), format))
  {
    if IntegerRange(t).Some? && IntegerOf(v).Some? {
      IntegerFieldReads(codec, t, v, format);
    }
    hide PutInt, Signed, ToInt, ExceedsInt64, Parse, TrimSpace, Format, FitsType, WireWidth;
  }

  // ---------- the order of the bytes ----------

  lemma DivDiv(n: nat, p: nat)
    requires p > 0
    ensures (n / 256) / p == n / (256 * p)
  {
    var q := n / (256 * p);
    var r := n - 256 * p * q;
    assert 0 <= r < 256 * p;
    assert n / 256 == p * q + r / 256;
    assert 0 <= r / 256 < p;
    DivUnique(n / 256, p, q, r / 256);
  }

  lemma AtLeastOne(p: nat, d: int)
    requires d >= 1
    ensures p * d >= p
  {
  }

  lemma DivUnique(m: nat, p: nat, q: nat, r: nat)
    requires p > 0 && m == p * q + r && r < p
    ensures m / p == q
  {
    var q', r' := m / p, m % p;
    assert m == p * q' + r';
    assert p * (q - q') == r' - r;
    if q' < q { AtLeastOne(p, q - q'); }
    assert p * (q' - q) == r - r';
    if q < q' { AtLeastOne(p, q' - q); }
  }

  lemma {:induction false} BigEndianByte(n: nat, k: nat, i: nat)
    requires i < k
    ensures |BigEndian(n, k)| == k && BigEndian(n, k)[i] as int == n / Pow256(k - 1 - i) % 256
  {
    if i < k - 1 {
      BigEndianByte(n / 256, k - 1, i);
      DivDiv(n, Pow256(k - 2 - i));
    } else if k > 1 {
      BigEndianByte(n / 256, k - 1, 0);
    }
  }

  /** The most significant byte comes first. */
  lemma MostSignificantFirst(n: int, k: nat, i: nat)
    requires i < k
    ensures |PutInt(n, k)| == k && PutInt(n, k)[i] as int == n % Pow256(k) / Pow256(k - 1 - i) % 256
  {
    ModBounds(n, Pow256(k));
    BigEndianByte(n % Pow256(k), k, i);
  }

  // ---------- which types are noted ----------

  /** Every type a client is told as another is noted and no other: unsigned integers, which Postgres does
      not have; decimals, told as float8; and the types told as text, by name. */
  lemma NotedTypes(t: DuckType)
    ensures TypeNote(t) ==
            if IntegerRange(t).Some? && IntegerRange(t).value.0 == 0 then Some("unsigned integer " + "shown as signed")
            else if t != Double && Oid(t) == 701 then
              Some("DECIMAL shown as float8" + ("; precision " + "may be lost"))
            else if t != Varchar && Oid(t) == 25 then Some(TypeName(t) + " shown as text")
            else None
  {
  }
}
