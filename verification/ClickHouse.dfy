/** The ClickHouse columns, blocks and loss report of internal/clickhouse. */
module ClickHouse {
  import opened Basics
  import opened Decimal
  import opened Results
  import opened Fidelity

  // ---------- one value into one column cell ----------

  datatype Kind = Int32Column | Int64Column | Float64Column | UInt8Column | DateTimeColumn | StrColumn

  /** newColBuilder's choice. */
  function KindOf(t: DuckType): Kind {
    match t
    case TinyInt => Int32Column
    case SmallInt => Int32Column
    case Integer => Int32Column
    case UTinyInt => Int32Column
    case USmallInt => Int32Column
    case UInteger => Int32Column
    case BigInt => Int64Column
    case HugeInt => Int64Column
    case UBigInt => Int64Column
    case UHugeInt => Int64Column
    case Real => Float64Column
    case Double => Float64Column
    case Decimal => Float64Column
    case Boolean => UInt8Column
    case Timestamp => DateTimeColumn
    case _ => StrColumn
  }

  datatype Cell = IntCell(n: int) | FloatCell(r: real) | StrCell(s: string)

  const TWO_32: int := 0x1_0000_0000

  /** Go's int32(x) of an int64. */
  function Wrap32(n: int): int {
    var u := n % TWO_32;
    if u >= 0x8000_0000 then u - TWO_32 else u
  }

  function ToFloat(codec: Codec, v: Value): real {
    match v
    case Float(r) => r
    case Int64(n) => n as real
    case Int32(n) => n as real
    case _ => codec.parseFloat(TrimSpace(Sprint(codec, v)))
  }

  /** The seconds of Go's zero time, 1 January of year 1. */
  const ZERO_TIME: int := -62135596800

  function ToSeconds(codec: Codec, v: Value): int {
    match v
    case Time(s, _) => s
    case Text(s) =>
      (match codec.parseTime(s)
       case None => ZERO_TIME
       case Some(t) => t.0)
    case _ => ZERO_TIME
  }

  /** A DateTime is an unsigned 32-bit count of seconds; the zero time is stored as 0. */
  function DateTimeCell(seconds: int): int {
    if seconds == ZERO_TIME then 0 else seconds % TWO_32
  }

  function ToStr(codec: Codec, v: Value): string {
    match v
    case Text(s) => s
    case Time(_, _) => codec.stamp(v)
    case Null => ""
    case _ => Sprint(codec, v)
  }

  function Convert(codec: Codec, kind: Kind, v: Value): Cell {
    match kind
    case Int32Column => IntCell(Wrap32(ToInt(codec, v)))
    case Int64Column => IntCell(ToInt(codec, v))
    case Float64Column => FloatCell(ToFloat(codec, v))
    case UInt8Column => IntCell(if ToBool(codec, v) then 1 else 0)
    case DateTimeColumn => IntCell(DateTimeCell(ToSeconds(codec, v)))
    case StrColumn => StrCell(ToStr(codec, v))
  }

  // ---------- what a client reads off a cell ----------

  /** A boolean is 1 or 0; a float, a text and a whole second of a DateTime are themselves. */
  predicate PlainHeld(codec: Codec, t: DuckType, v: Value, cell: Cell) {
    && (t.Boolean? && v.Bool? ==> cell == IntCell(if v.b then 1 else 0))
    && ((t.Real? || t.Double?) && v.Float? ==> cell == FloatCell(v.r))
    && (t.Decimal? && v.Other? ==> cell == FloatCell(codec.parseFloat(TrimSpace(v.text))))
    && (t.Timestamp? && v.Time? && 0 <= v.seconds < TWO_32 ==> cell == IntCell(v.seconds))
    && ((t.Real? || t.Double?) && v.Int32? ==> cell == FloatCell(v.i32 as real))
    && ((t.Real? || t.Double?) && v.Int64? ==> cell == FloatCell(v.i64 as real))
    && (AsText(t) && v.Text? ==> cell == StrCell(v.s))
    && (AsText(t) && v.Other? ==> cell == StrCell(v.text))
    && (AsText(t) && v.Bool? ==> cell == StrCell(if v.b then "true" else "false"))
    && (AsText(t) && v.Time? ==> cell == StrCell(codec.stamp(v)))
  }

  /** An integer is itself where its column has room for it -- int64 for BIGINT and the wide types, int32
      for the others, where an unsigned one beyond it wraps. */
  predicate IntegerHeld(t: DuckType, n: int, cell: Cell) {
    if WideInteger(t) || t.BigInt? then (cell == IntCell(n) <==> FitsInt64(n))
    else cell == IntCell(if n < 0x8000_0000 then n else n - TWO_32)
  }

  /** NULL is zero or no text. */
  predicate NullHeld(t: DuckType, cell: Cell) {
    && (AsText(t) ==> cell == StrCell(""))
    && (t.Boolean? || t.Timestamp? || IntegerRange(t).Some? ==> cell == IntCell(0))
  }

  predicate CellHolds(codec: Codec, t: DuckType, v: Value, cell: Cell) {
    && PlainHeld(codec, t, v, cell)
    && (IntegerRange(t).Some? && IntegerOf(v).Some? ==> IntegerHeld(t, IntegerOf(v).value, cell))
    && (v.Null? ==> NullHeld(t, cell))
  }

  /** The types sent as text: strings, and all that has no number or instant of its own here. */
  predicate AsText(t: DuckType) {
    t.Varchar? || t.Date? || t.TimeOfDay? || t.Interval? || t.Uuid? || t.Blob? || t.Bit?
  }

  lemma NullPrints()
    ensures ParseInt64(TrimSpace("<nil>")) == 0
  {
    assert TrimLeft("<nil>", IsSpace) == "<nil>" && TrimRight("<nil>", IsSpace) == "<nil>";
    assert !IsDigit("<nil>"[0]);
  }

  lemma IntegerCellHolds(codec: Codec, t: DuckType, v: Value)
    requires FitsType(t, v) && IntegerRange(t).Some? && IntegerOf(v).Some?
    ensures IntegerHeld(t, IntegerOf(v).value, Convert(codec, KindOf(t), v))
  {
    hide ToInt, ExceedsInt64;
    ToIntOfInteger(codec, v, IntegerOf(v).value);
  }

  lemma NullCellHolds(codec: Codec, t: DuckType)
    ensures NullHeld(t, Convert(codec, KindOf(t), Null))
  {
    NullPrints();
    hide FitsType, ParseInt64, TrimSpace, Format;
  }

  lemma PlainCellHolds(codec: Codec, t: DuckType, v: Value)
    ensures PlainHeld(codec, t, v, Convert(codec, KindOf(t), v))
  {
    hide ToInt, TrimSpace, Format;
  }

  /** Every value of every type, through the column its type name chooses. */
  lemma CellReads(codec: Codec, t: DuckType, v: Value)
    requires FitsType(t, v)
    ensures CellHolds(codec, t, v, Convert(codec, KindOf(t), v))
  {
    hide FitsType, Convert, PlainHeld, IntegerHeld, NullHeld;
    PlainCellHolds(codec, t, v);
    if v.Null? { NullCellHolds(codec, t); }
    if IntegerRange(t).Some? && IntegerOf(v).Some? { IntegerCellHolds(codec, t, v); }
  }

  /** The cells of column `i` of a block hold the rows' values, row by row. */
  predicate ColumnHolds(codec: Codec, t: DuckType, rows: seq<seq<Value>>, i: nat, data: seq<Cell>) {
    && |data| == |rows|
    && forall j :: 0 <= j < |rows| && i < |rows[j]| && FitsType(t, rows[j][i]) ==> CellHolds(codec, t, rows[j][i], data[j])
  }

  lemma ConvertedColumnHolds(codec: Codec, t: DuckType, rows: seq<seq<Value>>, i: nat, data: seq<Cell>)
    requires |data| == |rows| && forall j :: 0 <= j < |rows| ==> i < |rows[j]| && data[j] == Convert(codec, KindOf(t), rows[j][i])
    ensures ColumnHolds(codec, t, rows, i, data)
  {
    hide Convert, KindOf, CellHolds, FitsType;
    forall j | 0 <= j < |rows| && FitsType(t, rows[j][i]) ensures CellHolds(codec, t, rows[j][i], data[j]) {
      CellReads(codec, t, rows[j][i]);
    }
  }

  // ---------- building the columns ----------

  class ColBuilder {
    const kind: Kind
    var data: seq<Cell>

    constructor (t: DuckType)
      ensures kind == KindOf(t) && data == []
    {
      kind := KindOf(t);
      data := [];
    }

    method Add(codec: Codec, v: Value)
      modifies this
      ensures data == old(data) + [Convert(codec, kind, v)]
    {
      data := data + [Convert(codec, kind, v)];
    }
  }

  datatype InputColumn = InputColumn(name: string, data: seq<Cell>)

  /** Column `i` of the rows, converted; a row too short for it adds nothing. */
  function ColumnData(codec: Codec, kind: Kind, rows: seq<seq<Value>>, i: nat): seq<Cell> {
    if rows == [] then []
    else
      var row := rows[|rows| - 1];
      ColumnData(codec, kind, rows[..|rows| - 1], i) + if i < |row| then [Convert(codec, kind, row[i])] else []
  }

  predicate NoRowTooLong(res: QueryResult) {
    forall j :: 0 <= j < |res.rows| ==> |res.rows[j]| <= |res.cols|
  }

  predicate Distinct(builders: seq<ColBuilder>) {
    forall a, b :: 0 <= a < b < |builders| ==> builders[a] != builders[b]
  }

  /** The inner loop: each value of a row goes to its own column. */
  method AddRow(codec: Codec, builders: seq<ColBuilder>, row: seq<Value>)
    requires Distinct(builders) && |row| <= |builders|
    modifies builders
    ensures forall a :: 0 <= a < |builders| ==>
      builders[a].data == old(builders[a].data) + if a < |row| then [Convert(codec, builders[a].kind, row[a])] else []
  {
    hide Convert;
    for i := 0 to |row|
      invariant forall a :: 0 <= a < i ==>
        builders[a].data == old(builders[a].data) + [Convert(codec, builders[a].kind, row[a])]
      invariant forall a :: i <= a < |builders| ==> builders[a].data == old(builders[a].data)
    {
      builders[i].Add(codec, row[i]);
    }
  }

  method NewBuilders(cols: seq<Column>) returns (builders: seq<ColBuilder>)
    ensures |builders| == |cols| && Distinct(builders)
    ensures forall a :: 0 <= a < |builders| ==>
      fresh(builders[a]) && builders[a].kind == KindOf(TypeOf(cols[a].typ)) && builders[a].data == []
  {
    hide TypeOf, KindOf;
    builders := [];
    for i := 0 to |cols|
      invariant |builders| == i && Distinct(builders)
      invariant forall a :: 0 <= a < i ==>
        fresh(builders[a]) && builders[a].kind == KindOf(TypeOf(cols[a].typ)) && builders[a].data == []
    {
      var b := new ColBuilder(TypeOf(cols[i].typ));
      builders := builders + [b];
    }
  }

  method BuildInput(codec: Codec, res: QueryResult, withRows: bool) returns (cols: seq<InputColumn>)
    requires withRows ==> NoRowTooLong(res)
    ensures |cols| == |res.cols|
    ensures forall i :: 0 <= i < |cols| ==>
      cols[i] == InputColumn(res.cols[i].name,
        if withRows then ColumnData(codec, KindOf(TypeOf(res.cols[i].typ)), res.rows, i) else [])
  {
    hide TypeOf, KindOf, Convert;
    var builders := NewBuilders(res.cols);
    if withRows {
      for j := 0 to |res.rows|
        invariant forall a :: 0 <= a < |builders| ==> fresh(builders[a])
        invariant forall a :: 0 <= a < |builders| ==>
          builders[a].data == ColumnData(codec, builders[a].kind, res.rows[..j], a)
      {
        assert res.rows[..j + 1][..j] == res.rows[..j];
        AddRow(codec, builders, res.rows[j]);
      }
      assert res.rows[..|res.rows|] == res.rows;
    }
    cols := [];
    for i := 0 to |res.cols|
      invariant |cols| == i
      invariant forall a :: 0 <= a < i ==> cols[a] == InputColumn(res.cols[a].name, builders[a].data)
    {
      cols := cols + [InputColumn(res.cols[i].name, builders[i].data)];
    }
  }

  /** On a rectangular result the column is the transpose: one cell per row, each from its own row. */
  lemma {:induction false} ColumnIsTransposed(codec: Codec, kind: Kind, rows: seq<seq<Value>>, i: nat)
    requires forall j :: 0 <= j < |rows| ==> i < |rows[j]|
    ensures |ColumnData(codec, kind, rows, i)| == |rows|
    ensures forall j :: 0 <= j < |rows| ==> ColumnData(codec, kind, rows, i)[j] == Convert(codec, kind, rows[j][i])
  {
    hide Convert;
    if rows != [] {
      ColumnIsTransposed(codec, kind, rows[..|rows| - 1], i);
    }
  }

  // ---------- blocks ----------

  datatype Block = Block(columns: nat, rows: nat, input: seq<InputColumn>)

  datatype Packet = Data(block: Block) | Log(block: Block) | EndOfStream

  /** What EncodeBlock needs: as many columns as announced, each with as many cells as announced. */
  predicate Encodable(b: Block) {
    |b.input| == b.columns && forall i :: 0 <= i < |b.input| ==> |b.input[i].data| == b.rows
  }

  predicate AllEncodable(packets: seq<Packet>) {
    forall k :: 0 <= k < |packets| && !packets[k].EndOfStream? ==> Encodable(packets[k].block)
  }

  /** The eight log columns, filled one warning at a time. */
  method LogBlock(queryID: string, now: int, warnings: seq<string>) returns (b: Block)
    ensures Encodable(b) && b.columns == 8 && b.rows == |warnings|
    ensures forall j :: 0 <= j < |warnings| ==> b.input[7].data[j] == StrCell("spoofdb: " + warnings[j])
  {
    var time, micros, host, query, thread, priority, source, text: seq<Cell> := [], [], [], [], [], [], [], [];
    for j := 0 to |warnings|
      invariant |time| == |micros| == |host| == |query| == |thread| == |priority| == |source| == |text| == j
      invariant forall k :: 0 <= k < j ==> text[k] == StrCell("spoofdb: " + warnings[k])
    {
      time := time + [IntCell(now)];
      micros := micros + [IntCell(0)];
      host := host + [StrCell("spoofdb")];
      query := query + [StrCell(queryID)];
      thread := thread + [IntCell(0)];
      priority := priority + [IntCell(4)];
      source := source + [StrCell("spoofdb")];
      text := text + [StrCell("spoofdb: " + warnings[j])];
    }
    var cols := [
      InputColumn("event_time", time), InputColumn("event_time_microseconds", micros),
      InputColumn("host_name", host), InputColumn("query_id", query), InputColumn("thread_id", thread),
      InputColumn("priority", priority), InputColumn("source", source), InputColumn("text", text)];
    b := Block(|cols|, |warnings|, cols);
  }

  /** The columns buildInput makes of a rectangular result. */
  lemma ColumnsHold(codec: Codec, res: QueryResult, cols: seq<InputColumn>)
    requires Rectangular(res) && |cols| == |res.cols|
    requires forall i :: 0 <= i < |cols| ==>
               cols[i].data == ColumnData(codec, KindOf(TypeOf(res.cols[i].typ)), res.rows, i)
    ensures forall i :: 0 <= i < |cols| ==> |cols[i].data| == |res.rows|
    ensures forall i, j :: 0 <= i < |cols| && 0 <= j < |res.rows| ==>
              cols[i].data[j] == Convert(codec, KindOf(TypeOf(res.cols[i].typ)), res.rows[j][i])
    ensures forall i :: 0 <= i < |cols| ==> ColumnHolds(codec, TypeOf(res.cols[i].typ), res.rows, i, cols[i].data)
  {
    hide TypeOf, KindOf, Convert, ColumnHolds, ColumnData;
    forall i | 0 <= i < |cols|
      ensures |cols[i].data| == |res.rows|
      ensures forall j :: 0 <= j < |res.rows| ==>
        cols[i].data[j] == Convert(codec, KindOf(TypeOf(res.cols[i].typ)), res.rows[j][i])
      ensures ColumnHolds(codec, TypeOf(res.cols[i].typ), res.rows, i, cols[i].data)
    {
      ColumnIsTransposed(codec, KindOf(TypeOf(res.cols[i].typ)), res.rows, i);
      ConvertedColumnHolds(codec, TypeOf(res.cols[i].typ), res.rows, i, cols[i].data);
    }
  }

  /** A header block, the data block if there are rows, the warnings if any, and the end. Every block
      is encodable, so the ignored encoding error cannot arise; entry (i, j) of the data block is the
      conversion of row j's value i. */
  method SendResult(codec: Codec, res: QueryResult, queryID: string, now: int, rep: Report, serverLogs: bool)
    returns (packets: seq<Packet>)
    requires Rectangular(res) && rep.Valid()
    ensures AllEncodable(packets)
    ensures |packets| >= 2 && packets[|packets| - 1] == EndOfStream
    ensures packets[0].Data? && packets[0].block.columns == |res.cols| && packets[0].block.rows == 0
    ensures forall i :: 0 <= i < |res.cols| ==> packets[0].block.input[i].name == res.cols[i].name
    ensures res.rows != [] ==>
      && |packets| >= 3 && packets[1].Data? && packets[1].block.rows == |res.rows|
      && packets[1].block.columns == |res.cols|
      && forall i, j :: 0 <= i < |res.cols| && 0 <= j < |res.rows| ==>
           packets[1].block.input[i].name == res.cols[i].name &&
           packets[1].block.input[i].data[j] == Convert(codec, KindOf(TypeOf(res.cols[i].typ)), res.rows[j][i])
    ensures res.rows != [] ==>
      forall i :: 0 <= i < |res.cols| ==>
        ColumnHolds(codec, TypeOf(res.cols[i].typ), res.rows, i, packets[1].block.input[i].data)
    ensures (exists k :: 0 <= k < |packets| && packets[k].Log?) <==> (rep.notes != map[] && serverLogs)
    ensures forall k :: 0 <= k < |packets| && packets[k].Log? ==>
      k == |packets| - 2 && packets[k].block.rows == |rep.notes|
    ensures |packets| == 2 + (if res.rows != [] then 1 else 0) + (if rep.notes != map[] && serverLogs then 1 else 0)
  {
    hide TypeOf, KindOf, Convert, Listing, ColumnHolds, ColumnData;
    var header := BuildInput(codec, res, false);
    var body, log: seq<Packet> := [], [];
    if |res.rows| > 0 {
      var cols := BuildInput(codec, res, true);
      ColumnsHold(codec, res, cols);
      body := [Data(Block(|res.cols|, |res.rows|, cols))];
    }
    if !rep.Empty() && serverLogs {
      var warnings := rep.Warnings();
      ListingSize(rep.notes);
      var b := LogBlock(queryID, now, warnings);
      log := [Log(b)];
    }
    packets := [Data(Block(|res.cols|, 0, header))] + body + log + [EndOfStream];
    if log != [] {
      assert packets[1 + |body|] == log[0];
    }
  }
}
