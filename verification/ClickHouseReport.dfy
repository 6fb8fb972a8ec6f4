/** The loss report of internal/clickhouse/fidelity.go, against what the column cells hold. */
module ClickHouseReport {
  import opened Basics
  import opened Results
  import opened Fidelity
  import opened Reporting
  import opened ClickHouse

  const DECIMAL := "DECIMAL shown as Float64" + DECIMAL_LOST
  const BOOLEAN := "BOOLEAN shown as UInt8"
  const NULL_LOST := "NULL rendered as zero " + "value (column is not " + "Nullable)"
  const TRUNCATED := "value exceeds int64 " + "and is truncated"
  const OUT_OF_RANGE := "timestamp outside " + "DateTime range " + "(1970-2106)"

  function TypeNote(t: DuckType): Option<string> {
    match t
    case Decimal => Some(DECIMAL)
    case Boolean => Some(BOOLEAN)
    case UTinyInt => Some(UNSIGNED)
    case USmallInt => Some(UNSIGNED)
    case UInteger => Some(UNSIGNED)
    case UBigInt => Some(UNSIGNED)
    case UHugeInt => Some(UNSIGNED)
    case Date => Some(TypeName(t) + AS_TEXT)
    case TimeOfDay => Some(TypeName(t) + AS_TEXT)
    case Interval => Some(TypeName(t) + AS_TEXT)
    case Uuid => Some(TypeName(t) + AS_TEXT)
    case Blob => Some(TypeName(t) + AS_TEXT)
    case Bit => Some(TypeName(t) + AS_TEXT)
    case _ => None
  }

  predicate OutsideDateTimeRange(v: Value) {
    v.Time? && (v.seconds < 0 || v.seconds > 4294967295)
  }

  function ValueNote(codec: Codec, t: DuckType, v: Value): Option<string> {
    if v.Null? then Some(NULL_LOST)
    else if WideInteger(t) && ExceedsInt64(codec, v) then Some(TRUNCATED)
    else if t.Timestamp? && OutsideDateTimeRange(v) then Some(OUT_OF_RANGE)
    else None
  }

  function ChRules(codec: Codec): Rules {
    Rules(t => TypeNote(t), (t, v) => ValueNote(codec, t, v))
  }

  method ChReport(codec: Codec, res: QueryResult) returns (r: Report)
    ensures fresh(r) && r.Valid() && r.notes == NotesOf(Adds(ChRules(codec), res))
  {
    r := BuildReport(ChRules(codec), res);
  }

  lemma NullLostClean()
    ensures NulFree(NULL_LOST)
  {
    NulFreeConcat("NULL rendered as zero ", "value (column is not ");
    NulFreeConcat("NULL rendered as zero " + "value (column is not ", "Nullable)");
  }

  lemma TruncatedClean()
    ensures NulFree(TRUNCATED)
  {
    NulFreeConcat("value exceeds int64 ", "and is truncated");
  }

  lemma OutOfRangeClean()
    ensures NulFree(OUT_OF_RANGE)
  {
    NulFreeConcat("timestamp outside ", "DateTime range ");
    NulFreeConcat("timestamp outside " + "DateTime range ", "(1970-2106)");
  }

  lemma ValueReasonsDistinct()
    ensures NULL_LOST != TRUNCATED && NULL_LOST != OUT_OF_RANGE && TRUNCATED != OUT_OF_RANGE
  {
    assert NULL_LOST[0] == 'N' && TRUNCATED[0] == 'v' && OUT_OF_RANGE[0] == 't';
  }

  lemma ValueReasonsClean()
    ensures NulFree(NULL_LOST) && NulFree(TRUNCATED) && NulFree(OUT_OF_RANGE)
  {
    hide NulFree;
    NullLostClean();
    TruncatedClean();
    OutOfRangeClean();
  }

  lemma TypeReasonsClean(t: DuckType)
    requires TypeNote(t).Some?
    ensures NulFree(TypeNote(t).value)
    ensures TypeNote(t).value !in [NULL_LOST, TRUNCATED, OUT_OF_RANGE]
  {
    SharedReasonsClean();
    NulFreeConcat("DECIMAL shown as Float64", DECIMAL_LOST);
    NulFreeConcat(TypeName(t), AS_TEXT);
    hide NulFree;
    assert NULL_LOST[0] == 'N' && TRUNCATED[0] == 'v' && OUT_OF_RANGE[0] == 't';
    assert TypeNote(t).value[0] in "DBTIU" + "u";
  }

  lemma RulesClean(codec: Codec)
    ensures CleanRules(ChRules(codec))
  {
    ValueReasonsClean();
    hide NulFree;
    forall t | TypeNote(t).Some? ensures NulFree(TypeNote(t).value) {
      TypeReasonsClean(t);
    }
  }

  // ---------- when a cell holds its value ----------

  /** The column types the claim is about. */
  predicate Covered(t: DuckType) {
    IntegerRange(t).Some? || t.Boolean? || t.Real? || t.Double? || t.Decimal? || t.Varchar? || t.Timestamp?
  }

  /** A value as DuckDB yields it for the type; a timestamp counts whole seconds. */
  predicate Fits(t: DuckType, v: Value) {
    && FitsType(t, v)
    && (v.Null? ||
        match t
        case Boolean => v.Bool?
        case Real => v.Float?
        case Double => v.Float?
        case Decimal => v.Other?
        case Varchar => v.Text?
        case Timestamp => v.Time? && v.micros == 0
        case _ => true)
  }

  /** A client reading the cell gets the value back. No cell stands for NULL. */
  predicate Represents(codec: Codec, t: DuckType, cell: Cell, v: Value) {
    match v
    case Null => false
    case Bool(b) => cell == IntCell(if b then 1 else 0)
    case Float(r) => cell == FloatCell(r)
    case Time(s, us) => cell == IntCell(s) && us == 0
    case Other(text) => cell == FloatCell(codec.decimal(text))
    case Text(s) =>
      if IntegerRange(t).Some? then IntegerOf(v).Some? && cell == IntCell(IntegerOf(v).value) else cell == StrCell(s)
    case _ => IntegerOf(v).Some? && cell == IntCell(IntegerOf(v).value)
  }

  function CellOf(codec: Codec, t: DuckType, v: Value): Cell {
    Convert(codec, KindOf(t), v)
  }

  lemma Wrap32Exact(n: int)
    ensures Wrap32(n) == n <==> -0x8000_0000 <= n <= 0x7FFF_FFFF
  {
  }

  lemma DateTimeExact(s: int)
    ensures DateTimeCell(s) == s <==> 0 <= s <= 4294967295
  {
  }

  lemma IntegerCell(codec: Codec, t: DuckType, v: Value, n: int)
    requires IntegerRange(t).Some? && FitsType(t, v) && IntegerOf(v) == Some(n)
    ensures WideInteger(t) ==> (CellOf(codec, t, v) == IntCell(n) <==> !ExceedsInt64(codec, v))
    ensures !WideInteger(t) ==> (CellOf(codec, t, v) == IntCell(n) <==> (t.UInteger? ==> n <= 0x7FFF_FFFF))
  {
    hide ExceedsInt64, ToInt;
    ToIntOfInteger(codec, v, n);
    Wrap32Exact(ToInt(codec, v));
  }

  // ---------- the report flags every loss ----------

  /** A cell of a covered type that does not hold its value has a reason: the type's or its own. */
  lemma LossHasReason(codec: Codec, t: DuckType, v: Value)
    requires Covered(t) && Fits(t, v) && !Represents(codec, t, CellOf(codec, t, v), v)
    ensures TypeNote(t).Some? || ValueNote(codec, t, v).Some?
  {
    hide Convert, ExceedsInt64;
    if v.Null? {
    } else if IntegerRange(t).Some? {
      IntegerCell(codec, t, v, IntegerOf(v).value);
    } else if t.Timestamp? {
      DateTimeExact(v.seconds);
      CellOfTimestamp(codec, v);
    } else if !t.Boolean? && !t.Decimal? {
      CellOfPlain(codec, t, v);
    }
  }

  lemma CellOfTimestamp(codec: Codec, v: Value)
    requires v.Time?
    ensures CellOf(codec, Timestamp, v) == IntCell(DateTimeCell(v.seconds))
  {
  }

  lemma CellOfPlain(codec: Codec, t: DuckType, v: Value)
    ensures (t.Real? || t.Double?) && v.Float? ==> CellOf(codec, t, v) == FloatCell(v.r)
    ensures t.Varchar? && v.Text? ==> CellOf(codec, t, v) == StrCell(v.s)
  {
  }

  /** For every result: if a cell of a covered column is not read back as its value -- a NULL, a wrapped
      or saturated integer, a rounded decimal, a time outside the range -- the report has a note for
      that column's name. */
  lemma ReportFlagsEveryLoss(codec: Codec, res: QueryResult, ci: nat, j: nat)
    requires ci < |res.cols| && j < |res.rows| && ci < |res.rows[j]|
    requires var t, v := TypeOf(res.cols[ci].typ), res.rows[j][ci];
             Covered(t) && Fits(t, v) && !Represents(codec, t, CellOf(codec, t, v), v)
    ensures exists reason :: Key(res.cols[ci].name, reason) in NotesOf(Adds(ChRules(codec), res))
  {
    var t, v, name := TypeOf(res.cols[ci].typ), res.rows[j][ci], res.cols[ci].name;
    LossHasReason(codec, t, v);
    RulesClean(codec);
    hide TypeOf, NotesOf, AddsUpTo, CountCells, CountColumns, Key, TypeNote, ValueNote;
    var rules := ChRules(codec);
    if TypeNote(t).Some? {
      var reason := TypeNote(t).value;
      assert rules.typeNote(t) == Some(reason);
      ReportCounts(rules, res, name, reason);
      ColumnIsCounted(res, ci, NotesType(rules, reason), |res.cols|);
      assert Key(name, reason) in NotesOf(Adds(rules, res));
    } else {
      var reason := ValueNote(codec, t, v).value;
      assert rules.valueNote(t, v) == Some(reason);
      ReportCounts(rules, res, name, reason);
      CellIsCounted(res, ci, j, NotesValue(rules, reason), |res.cols|);
      assert Key(name, reason) in NotesOf(Adds(rules, res));
    }
  }

  // ---------- and counts the value losses exactly ----------

  function IsNull(): (DuckType, Value) -> bool {
    (t: DuckType, v: Value) => v.Null?
  }

  function LostWide(codec: Codec): (DuckType, Value) -> bool {
    (t: DuckType, v: Value) => WideInteger(t) && !v.Null? && !Represents(codec, t, CellOf(codec, t, v), v)
  }

  function LostTime(codec: Codec): (DuckType, Value) -> bool {
    (t: DuckType, v: Value) => t.Timestamp? && !v.Null? && !Represents(codec, t, CellOf(codec, t, v), v)
  }

  lemma ValueNoteIs(codec: Codec, t: DuckType, v: Value)
    ensures ValueNote(codec, t, v) == Some(NULL_LOST) <==> v.Null?
    ensures ValueNote(codec, t, v) == Some(TRUNCATED) <==> !v.Null? && WideInteger(t) && ExceedsInt64(codec, v)
    ensures ValueNote(codec, t, v) == Some(OUT_OF_RANGE) <==> !v.Null? && t.Timestamp? && OutsideDateTimeRange(v)
  {
    hide ExceedsInt64;
    ValueReasonsDistinct();
  }

  lemma LossesAre(codec: Codec, t: DuckType, v: Value)
    requires Fits(t, v) && !v.Null?
    ensures LostWide(codec)(t, v) <==> WideInteger(t) && ExceedsInt64(codec, v)
    ensures LostTime(codec)(t, v) <==> t.Timestamp? && OutsideDateTimeRange(v)
  {
    hide Convert, ExceedsInt64;
    if WideInteger(t) {
      IntegerCell(codec, t, v, IntegerOf(v).value);
    } else if t.Timestamp? {
      DateTimeExact(v.seconds);
      CellOfTimestamp(codec, v);
    }
  }

  lemma ValueNoteMeansLoss(codec: Codec, t: DuckType, v: Value)
    requires Fits(t, v)
    ensures ValueNote(codec, t, v) == Some(NULL_LOST) <==> IsNull()(t, v)
    ensures ValueNote(codec, t, v) == Some(TRUNCATED) <==> LostWide(codec)(t, v)
    ensures ValueNote(codec, t, v) == Some(OUT_OF_RANGE) <==> LostTime(codec)(t, v)
  {
    hide ValueNote, Fits, CellOf;
    ValueNoteIs(codec, t, v);
    if !v.Null? { LossesAre(codec, t, v); }
  }

  ghost predicate AllFit(res: QueryResult) {
    forall j, i :: 0 <= j < |res.rows| && 0 <= i < |res.cols| && i < |res.rows[j]| ==>
      Fits(TypeOf(res.cols[i].typ), res.rows[j][i])
  }

  /** Which loss a value-level reason stands for. */
  function LossBehind(codec: Codec, reason: string): (DuckType, Value) -> bool {
    if reason == NULL_LOST then IsNull() else if reason == TRUNCATED then LostWide(codec) else LostTime(codec)
  }

  lemma ValueReasonCount(codec: Codec, res: QueryResult, name: string, reason: string)
    requires AllFit(res) && reason in [NULL_LOST, TRUNCATED, OUT_OF_RANGE]
    ensures var notes := NotesOf(Adds(ChRules(codec), res));
            var lost := CountCells(res, name, LossBehind(codec, reason), |res.cols|);
            && (Key(name, reason) in notes <==> lost > 0)
            && (lost > 0 ==> notes[Key(name, reason)] == Note(name, reason, lost))
  {
    var rules, p := ChRules(codec), LossBehind(codec, reason);
    RulesClean(codec);
    ValueReasonsClean();
    ValueReasonsDistinct();
    hide NotesOf, AddsUpTo, CountCells, CountColumns, TypeOf, ValueNote, TypeNote, NulFree, Key, Fits;
    ReportCounts(rules, res, name, reason);
    forall t ensures !NotesType(rules, reason)(t) {
      if TypeNote(t).Some? { TypeReasonsClean(t); }
    }
    NoSuchColumn(res, name, NotesType(rules, reason), |res.cols|);
    forall ci | 0 <= ci < |res.cols|
      ensures AgreeInColumn(TypeOf(res.cols[ci].typ), ci, res.rows, NotesValue(rules, reason), p)
    {
      forall j | 0 <= j < |res.rows| && ci < |res.rows[j]|
        ensures NotesValue(rules, reason)(TypeOf(res.cols[ci].typ), res.rows[j][ci]) <==>
                p(TypeOf(res.cols[ci].typ), res.rows[j][ci])
      {
        ValueNoteMeansLoss(codec, TypeOf(res.cols[ci].typ), res.rows[j][ci]);
      }
    }
    CountCellsAgrees(res, name, |res.cols|, NotesValue(rules, reason), p);
  }

  /** For every result of whole-second timestamps and in-range values, the three value-level notes of a
      column name count exactly its NULLs, its wide integers that are not read back, and its timestamps
      that are not read back. */
  lemma ReportCountsValueLosses(codec: Codec, res: QueryResult, name: string)
    requires AllFit(res)
    ensures var notes, n := NotesOf(Adds(ChRules(codec), res)), |res.cols|;
            var nulls, wide, times := CountCells(res, name, IsNull(), n),
                                      CountCells(res, name, LostWide(codec), n),
                                      CountCells(res, name, LostTime(codec), n);
            && (Key(name, NULL_LOST) in notes <==> nulls > 0)
            && (nulls > 0 ==> notes[Key(name, NULL_LOST)].count == nulls)
            && (Key(name, TRUNCATED) in notes <==> wide > 0)
            && (wide > 0 ==> notes[Key(name, TRUNCATED)].count == wide)
            && (Key(name, OUT_OF_RANGE) in notes <==> times > 0)
            && (times > 0 ==> notes[Key(name, OUT_OF_RANGE)].count == times)
  {
    ValueReasonsDistinct();
    hide NotesOf, AddsUpTo, CountCells, AllFit, Key;
    ValueReasonCount(codec, res, name, NULL_LOST);
    ValueReasonCount(codec, res, name, TRUNCATED);
    ValueReasonCount(codec, res, name, OUT_OF_RANGE);
  }

  /** The one loss the report misses: a timestamp inside the range loses its fraction, and neither its
      type nor its value earns a note. */
  lemma FractionsAreLostSilently(codec: Codec, seconds: int, micros: nat)
    requires 0 <= seconds <= 4294967295
    ensures var v := Time(seconds, micros);
            && TypeNote(Timestamp).None? && ValueNote(codec, Timestamp, v).None?
            && (Represents(codec, Timestamp, CellOf(codec, Timestamp, v), v) <==> micros == 0)
  {
    DateTimeExact(seconds);
  }

  // ---------- which types are noted, and which cells are exact ----------

  /** Every type sent as another is noted and no other: unsigned integers, sent in signed columns; decimals
      and booleans; and the types sent as text, by name. */
  lemma NotedTypes(t: DuckType)
    ensures TypeNote(t) ==
            if IntegerRange(t).Some? && IntegerRange(t).value.0 == 0 then Some("unsigned integer " + "shown as signed")
            else if t == Decimal then Some("DECIMAL shown as Float64" + ("; precision " + "may be lost"))
            else if t == Boolean then Some("BOOLEAN shown as UInt8")
            else if t != Varchar && KindOf(t) == StrColumn then Some(TypeName(t) + " shown as text")
            else None
  {
  }

  /** Booleans, floats, texts and whole seconds in the range of a DateTime are read back as they are. */
  lemma PlainCellsAreExact(codec: Codec, b: bool, r: real, s: string, seconds: int)
    ensures Represents(codec, Boolean, CellOf(codec, Boolean, Bool(b)), Bool(b))
    ensures Represents(codec, Real, CellOf(codec, Real, Float(r)), Float(r))
    ensures Represents(codec, Double, CellOf(codec, Double, Float(r)), Float(r))
    ensures Represents(codec, Varchar, CellOf(codec, Varchar, Text(s)), Text(s))
    ensures 0 <= seconds <= 4294967295 ==>
              Represents(codec, Timestamp, CellOf(codec, Timestamp, Time(seconds, 0)), Time(seconds, 0))
  {
    hide ToInt, TrimSpace;
    DateTimeExact(seconds);
  }
}
