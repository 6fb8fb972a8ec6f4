/** The Postgres session of internal/pg/handler.go: the step function over one frontend message, and
    the class whose methods carry it out. */
module PgSession {
  import opened Basics
  import opened Results
  import opened Fidelity
  import opened Reporting
  import opened PgWire
  import opened SqlText
  import opened ScanParams

  // ---------- messages ----------

  datatype Frontend =
    | Query(sql: string)
    | Parse(name: string, query: string)
    | Bind(portal: string, stmt: string, params: Params, formats: seq<int>)
    | Describe(kind: char, name: string)
    | Execute(portal: string)
    | Sync
    | Flush
    | Close(kind: char, name: string)
    | Terminate
    | Unknown

  datatype FieldDescription = FieldDescription(name: string, oid: nat, format: int)

  datatype Backend =
    | ParseComplete | BindComplete | CloseComplete
    | ParameterDescription(count: nat)
    | NoData
    | RowDescription(fields: seq<FieldDescription>)
    | DataRow(values: seq<Option<string>>)
    | Notice(text: string)
    | CommandComplete(tag: string)
    | EmptyQuery
    | ErrorResponse(text: string)
    | Ready(tx: char)

  // ---------- state ----------

  datatype Portal = Portal(sql: string, params: Params, formats: seq<int>)

  const NO_PORTAL := Portal("", [], [])

  /** Which message made the engine run a text; `raw` is the text before parameters were inlined. */
  datatype Origin = BySimpleQuery | ByDescribe | ByExecute

  datatype EngineRun = EngineRun(raw: string, text: string, origin: Origin)

  /** One call of trackTx. */
  datatype TxEvent = TxEvent(sql: string, failed: bool)

  /** The session with its engine connection `db` and what has happened: the messages sent, the texts
      the engine ran, the statements trackTx saw. `D` is the state of the database. */
  datatype State<D> = State(
    stmts: map<string, string>,
    portals: map<string, Portal>,
    failed: bool,
    inTx: bool,
    txFail: bool,
    lastSQL: string,
    lastRes: Option<QueryResult>,
    lastErr: Option<string>,
    db: D,
    out: seq<Backend>,
    runs: seq<EngineRun>,
    txlog: seq<TxEvent>)

  /** The engine as a function of the database's state and the text, and the opaque conversions. */
  datatype Env<!D> = Env(eval: (D, string) -> (Outcome, D), codec: Codec)

  function Initial<D>(db: D): State<D> {
    State(map[], map[], false, false, false, "", None, None, db, [], [], [])
  }

  // ---------- the pieces of a step ----------

  function Emit<D>(s: State<D>, ms: seq<Backend>): State<D> {
    s.(out := s.out + ms)
  }

  function TxByte<D>(s: State<D>): char {
    if s.txFail then 'E' else if s.inTx then 'T' else 'I'
  }

  function TrackTx<D>(s: State<D>, sql: string, failed: bool): State<D> {
    var s := s.(txlog := s.txlog + [TxEvent(sql, failed)]);
    if OpensTransaction(sql) then s.(inTx := true, txFail := false)
    else if ClosesTransaction(sql) then s.(inTx := false, txFail := false)
    else if failed && s.inTx then s.(txFail := true)
    else s
  }

  function ResultOf(o: Outcome): Option<QueryResult> {
    if o.Failed? then None else Some(o.res)
  }

  function ErrorOf(o: Outcome): Option<string> {
    if o.Rows? then None else Some(o.err)
  }

  function Remembered(res: QueryResult, err: Option<string>): Outcome {
    if err.Some? then RowsThenError(res, err.value) else Rows(res)
  }

  predicate MemoHit<D>(s: State<D>, text: string) {
    s.lastRes.Some? && s.lastSQL == text
  }

  /** The engine runs `text`. */
  function EngineStep<D>(env: Env<D>, s: State<D>, run: EngineRun): (Outcome, State<D>) {
    var (o, db) := env.eval(s.db, run.text);
    (o, s.(db := db, runs := s.runs + [run]))
  }

  /** `run` of the source. With `memo` false it is the session that always runs the engine. */
  function RunText<D>(env: Env<D>, memo: bool, s: State<D>, run: EngineRun): (Outcome, State<D>) {
    if memo && MemoHit(s, run.text) then (Remembered(s.lastRes.value, s.lastErr), s)
    else
      var (o, s') := EngineStep(env, s, run);
      (o, s'.(lastSQL := run.text, lastRes := ResultOf(o), lastErr := ErrorOf(o)))
  }

  function Fields(res: QueryResult, formats: seq<int>): seq<FieldDescription> {
    seq(|res.cols|, i requires 0 <= i < |res.cols| =>
      FieldDescription(res.cols[i].name, Oid(TypeOf(res.cols[i].typ)), ResolveFormat(formats, i)))
  }

  function CellOid(res: QueryResult, i: nat): nat {
    if i < |res.cols| then Oid(TypeOf(res.cols[i].typ)) else 25
  }

  function RowValues(codec: Codec, res: QueryResult, row: seq<Value>, formats: seq<int>): seq<Option<string>> {
    seq(|row|, i requires 0 <= i < |row| => EncodeValue(codec, row[i], CellOid(res, i), ResolveFormat(formats, i)))
  }

  function DataRows(codec: Codec, res: QueryResult, formats: seq<int>): seq<Backend> {
    seq(|res.rows|, j requires 0 <= j < |res.rows| => DataRow(RowValues(codec, res, res.rows[j], formats)))
  }

  function NoticesFor(lines: seq<string>): seq<Backend> {
    seq(|lines|, k requires 0 <= k < |lines| => Notice("spoofdb: " + lines[k]))
  }

  ghost function Notices(codec: Codec, res: QueryResult): seq<Backend> {
    NotesKeyed(Adds(PgRules(codec), res));
    NoticesFor(WarningsOf(NotesOf(Adds(PgRules(codec), res))))
  }

  // ---------- one message ----------

  ghost function QueryReply(codec: Codec, sql: string, o: Outcome): seq<Backend> {
    if !o.Rows? then [ErrorResponse(o.err)]
    else
      (if |o.res.cols| > 0 then [RowDescription(Fields(o.res, []))] + DataRows(codec, o.res, []) else [])
      + Notices(codec, o.res)
      + [CommandComplete(CommandTag(sql, |o.res.rows|))]
  }

  ghost function QueryStep<D>(env: Env<D>, s: State<D>, sql: string): State<D> {
    if Blank(sql) then Emit(s, [EmptyQuery, Ready(TxByte(s))])
    else
      var (o, ran) := EngineStep(env, s, EngineRun(sql, sql, BySimpleQuery));
      var tracked := TrackTx(ran, sql, !o.Rows?);
      Emit(tracked, QueryReply(env.codec, sql, o) + [Ready(TxByte(tracked))])
  }

  /** The text and the formats a Describe is about. */
  function DescribedText<D>(s: State<D>, kind: char, name: string): string {
    if kind == 'S' then Lookup(s.stmts, name, "") else Lookup(s.portals, name, NO_PORTAL).sql
  }

  function DescribedFormats<D>(s: State<D>, kind: char, name: string): seq<int> {
    if kind == 'S' then [] else Lookup(s.portals, name, NO_PORTAL).formats
  }

  function DescribePrefix(kind: char, raw: string): seq<Backend> {
    if kind == 'S' then [ParameterDescription(MaxIndex(raw, Outside))] else []
  }

  function ShapeReply(o: Outcome, formats: seq<int>): Backend {
    if !o.Rows? then ErrorResponse(o.err)
    else if |o.res.cols| == 0 then NoData
    else RowDescription(Fields(o.res, formats))
  }

  function DescribeStep<D>(env: Env<D>, memo: bool, s: State<D>, kind: char, name: string): State<D> {
    var raw := DescribedText(s, kind, name);
    var told := Emit(s, DescribePrefix(kind, raw));
    if !ReturnsRows(raw) then Emit(told, [NoData])
    else
      var (o, ran) := RunText(env, memo, told, EngineRun(raw, Substitute(raw, []), ByDescribe));
      Emit(ran.(failed := !o.Rows?), [ShapeReply(o, DescribedFormats(s, kind, name))])
  }

  function ExecuteText(p: Portal): string {
    Substitute(p.sql, p.params)
  }

  ghost function ExecuteReply(codec: Codec, p: Portal, o: Outcome): seq<Backend> {
    if !o.Rows? then [ErrorResponse(o.err)]
    else
      DataRows(codec, o.res, p.formats) + Notices(codec, o.res) + [CommandComplete(CommandTag(p.sql, |o.res.rows|))]
  }

  ghost function ExecuteStep<D>(env: Env<D>, memo: bool, s: State<D>, portal: string): State<D> {
    var p := Lookup(s.portals, portal, NO_PORTAL);
    var (o, ran) := RunText(env, memo, s, EngineRun(p.sql, ExecuteText(p), ByExecute));
    var tracked := TrackTx(ran, p.sql, !o.Rows?);
    Emit(tracked.(failed := !o.Rows?), ExecuteReply(env.codec, p, o))
  }

  function ParseStep<D>(s: State<D>, name: string, query: string): State<D> {
    Emit(s.(stmts := s.stmts[name := query]), [ParseComplete])
  }

  function BindStep<D>(s: State<D>, portal: string, stmt: string, params: Params, formats: seq<int>): State<D> {
    Emit(s.(portals := s.portals[portal := Portal(Lookup(s.stmts, stmt, ""), params, formats)]), [BindComplete])
  }

  function SyncStep<D>(s: State<D>): State<D> {
    Emit(s.(failed := false, lastSQL := "", lastRes := None, lastErr := None), [Ready(TxByte(s))])
  }

  function CloseStep<D>(s: State<D>, kind: char, name: string): State<D> {
    Emit(if kind == 'S' then s.(stmts := s.stmts - {name}) else s.(portals := s.portals - {name}), [CloseComplete])
  }

  ghost function Step<D>(env: Env<D>, memo: bool, s: State<D>, msg: Frontend): State<D> {
    match msg
    case Query(sql) => QueryStep(env, s, sql)
    case Parse(name, query) => if s.failed then s else ParseStep(s, name, query)
    case Bind(portal, stmt, params, formats) => if s.failed then s else BindStep(s, portal, stmt, params, formats)
    case Describe(kind, name) => if s.failed then s else DescribeStep(env, memo, s, kind, name)
    case Execute(portal) => if s.failed then s else ExecuteStep(env, memo, s, portal)
    case Sync => SyncStep(s)
    case Close(kind, name) => CloseStep(s, kind, name)
    case Flush => s
    case Terminate => s
    case Unknown => s
  }

  /** The connection's message loop: it ends at the first Terminate. */
  ghost function Serve<D>(env: Env<D>, memo: bool, s: State<D>, msgs: seq<Frontend>): State<D>
    decreases |msgs|
  {
    if msgs == [] || msgs[0].Terminate? then s
    else Serve(env, memo, Step(env, memo, s, msgs[0]), msgs[1..])
  }

  lemma StepTerminate<D>(env: Env<D>, s: State<D>)
    ensures Step(env, true, s, Terminate) == s
  {
  }

  // ---------- the class ----------

  class Session<D> {
    const env: Env<D>
    var stmts: map<string, string>
    var portals: map<string, Portal>
    var failed: bool
    var inTx: bool
    var txFail: bool
    var lastSQL: string
    var lastRes: Option<QueryResult>
    var lastErr: Option<string>
    var db: D
    var out: seq<Backend>
    ghost var runs: seq<EngineRun>
    ghost var txlog: seq<TxEvent>

    ghost function Abs(): State<D>
      reads this
    {
      State(stmts, portals, failed, inTx, txFail, lastSQL, lastRes, lastErr, db, out, runs, txlog)
    }

    constructor (env: Env<D>, db: D)
      ensures this.env == env && Abs() == Initial(db)
    {
      this.env, this.db := env, db;
      stmts, portals := map[], map[];
      failed, inTx, txFail := false, false, false;
      lastSQL, lastRes, lastErr := "", None, None;
      out, runs, txlog := [], [], [];
    }

    method Send(m: Backend)
      modifies this`out
      ensures out == old(out) + [m]
    {
      out := out + [m];
    }

    function TxStatus(): (tx: char)
      reads this
      ensures tx == TxByte(Abs())
    {
      if txFail then 'E' else if inTx then 'T' else 'I'
    }

    method Track(sql: string, execFailed: bool)
      modifies this`inTx, this`txFail, this`txlog
      ensures Abs() == TrackTx(old(Abs()), sql, execFailed)
    {
      txlog := txlog + [TxEvent(sql, execFailed)];
      if OpensTransaction(sql) {
        inTx, txFail := true, false;
      } else if ClosesTransaction(sql) {
        inTx, txFail := false, false;
      } else if execFailed && inTx {
        txFail := true;
      }
    }

    /** The engine call itself. */
    method RunConn(text: string, ghost run: EngineRun) returns (o: Outcome)
      requires run.text == text
      modifies this`db, this`runs
      ensures (o, Abs()) == EngineStep(env, old(Abs()), run)
    {
      var (res, next) := env.eval(db, text);
      db := next;
      runs := runs + [run];
      return res;
    }

    method Run(text: string, ghost run: EngineRun) returns (o: Outcome)
      requires run.text == text
      modifies this`db, this`runs, this`lastSQL, this`lastRes, this`lastErr
      ensures (o, Abs()) == RunText(env, true, old(Abs()), run)
    {
      if lastRes.Some? && lastSQL == text {
        return Remembered(lastRes.value, lastErr);
      }
      o := RunConn(text, run);
      lastSQL, lastRes, lastErr := text, ResultOf(o), ErrorOf(o);
    }

    method SendRows(res: QueryResult, formats: seq<int>)
      modifies this`out
      ensures out == old(out) + DataRows(env.codec, res, formats)
    {
      for j := 0 to |res.rows|
        invariant out == old(out) + DataRows(env.codec, res, formats)[..j]
      {
        Send(DataRow(RowValues(env.codec, res, res.rows[j], formats)));
      }
    }

    method EmitFidelity(res: QueryResult)
      modifies this`out
      ensures out == old(out) + Notices(env.codec, res)
    {
      hide WarningsOf, NotesOf, AddsUpTo;
      var rep := PgReport(env.codec, res);
      var lines := rep.Warnings();
      for k := 0 to |lines|
        invariant out == old(out) + NoticesFor(lines)[..k]
      {
        Send(Notice("spoofdb: " + lines[k]));
      }
    }

    /** The reply of simpleQuery, before ReadyForQuery. */
    method SendQueryReply(sql: string, o: Outcome)
      modifies this`out
      ensures out == old(out) + QueryReply(env.codec, sql, o)
    {
      hide Notices, DataRows, Fields, CommandTag;
      if !o.Rows? {
        Send(ErrorResponse(o.err));
      } else {
        ghost var header := [];
        if |o.res.cols| > 0 {
          Send(RowDescription(Fields(o.res, [])));
          SendRows(o.res, []);
          header := [RowDescription(Fields(o.res, []))] + DataRows(env.codec, o.res, []);
        }
        assert out == old(out) + header;
        EmitFidelity(o.res);
        Send(CommandComplete(CommandTag(sql, |o.res.rows|)));
      }
    }

    method Query(sql: string)
      modifies this
      ensures Abs() == QueryStep(env, old(Abs()), sql)
    {
      hide Blank, TrackTx, QueryReply, EngineStep;
      if Blank(sql) {
        Send(EmptyQuery);
        Send(Ready(TxStatus()));
        return;
      }
      var o := RunConn(sql, EngineRun(sql, sql, BySimpleQuery));
      Track(sql, !o.Rows?);
      SendQueryReply(sql, o);
      Send(Ready(TxStatus()));
    }

    method DescribeMessage(kind: char, name: string)
      requires !failed
      modifies this
      ensures Abs() == DescribeStep(env, true, old(Abs()), kind, name)
    {
      hide ReturnsRows, Rewrite, Fields, MaxIndex, RunText;
      var raw, formats := "", [];
      if kind == 'S' {
        raw := Lookup(stmts, name, "");
        var count := MaxParamIndex(raw);
        Send(ParameterDescription(count));
      } else if name in portals {
        raw, formats := portals[name].sql, portals[name].formats;
      }
      ghost var prefix := DescribePrefix(kind, raw);
      assert out == old(out) + prefix;
      if !ReturnsRows(raw) {
        Send(NoData);
        return;
      }
      var text := SubstituteParams(raw, []);
      var o := Run(text, EngineRun(raw, text, ByDescribe));
      if !o.Rows? {
        Send(ErrorResponse(o.err));
        failed := true;
      } else if |o.res.cols| == 0 {
        Send(NoData);
      } else {
        Send(RowDescription(Fields(o.res, formats)));
      }
    }

    method ExecuteMessage(portal: string)
      requires !failed
      modifies this
      ensures Abs() == ExecuteStep(env, true, old(Abs()), portal)
    {
      hide Rewrite, TrackTx, Notices, DataRows, CommandTag, RunText;
      var p := Lookup(portals, portal, NO_PORTAL);
      var text := SubstituteParams(p.sql, p.params);
      var o := Run(text, EngineRun(p.sql, text, ByExecute));
      Track(p.sql, !o.Rows?);
      if !o.Rows? {
        Send(ErrorResponse(o.err));
        failed := true;
        return;
      }
      SendRows(o.res, p.formats);
      EmitFidelity(o.res);
      Send(CommandComplete(CommandTag(p.sql, |o.res.rows|)));
    }

    method ParseMessage(name: string, query: string)
      modifies this
      ensures Abs() == ParseStep(old(Abs()), name, query)
    {
      stmts := stmts[name := query];
      Send(ParseComplete);
    }

    method BindMessage(portal: string, stmt: string, params: Params, formats: seq<int>)
      modifies this
      ensures Abs() == BindStep(old(Abs()), portal, stmt, params, formats)
    {
      portals := portals[portal := Portal(Lookup(stmts, stmt, ""), params, formats)];
      Send(BindComplete);
    }

    method SyncMessage()
      modifies this
      ensures Abs() == SyncStep(old(Abs()))
    {
      failed := false;
      lastSQL, lastRes, lastErr := "", None, None;
      Send(Ready(TxStatus()));
    }

    method CloseMessage(kind: char, name: string)
      modifies this
      ensures Abs() == CloseStep(old(Abs()), kind, name)
    {
      if kind == 'S' {
        stmts := stmts - {name};
      } else {
        portals := portals - {name};
      }
      Send(CloseComplete);
    }

    method Handle(msg: Frontend) returns (quit: bool)
      modifies this
      ensures quit == msg.Terminate?
      ensures Abs() == Step(env, true, old(Abs()), msg)
    {
      hide QueryStep, DescribeStep, ExecuteStep, ParseStep, BindStep, SyncStep, CloseStep;
      quit := msg.Terminate?;
      match msg
      case Query(sql) => Query(sql);
      case Parse(name, query) => if !failed { ParseMessage(name, query); }
      case Bind(portal, stmt, params, formats) => if !failed { BindMessage(portal, stmt, params, formats); }
      case Describe(kind, name) => if !failed { DescribeMessage(kind, name); }
      case Execute(portal) => if !failed { ExecuteMessage(portal); }
      case Sync => SyncMessage();
      case Close(kind, name) => CloseMessage(kind, name);
      case Flush =>
      case Terminate =>
      case Unknown =>
    }

    /** The loop of handleConn over the messages received. */
    method HandleConn(msgs: seq<Frontend>)
      modifies this
      ensures Abs() == Serve(env, true, old(Abs()), msgs)
    {
      hide Step;
      var i := 0;
      assert msgs[0..] == msgs;
      while i < |msgs|
        invariant 0 <= i <= |msgs|
        invariant Serve(env, true, old(Abs()), msgs) == Serve(env, true, Abs(), msgs[i..])
      {
        assert msgs[i..][1..] == msgs[i + 1..];
        StepTerminate(env, Abs());
        var quit := Handle(msgs[i]);
        if quit {
          return;
        }
        i := i + 1;
      }
    }
  }
}
