/** What every run of the Postgres session keeps: the skip until Sync, the reply grammar, the
    transaction byte, and the accounting of engine runs. Each holds for the memoized session and for
    the one that always runs the engine. */
module PgRuns {
  import opened Basics
  import opened Results
  import opened Fidelity
  import opened Reporting
  import opened PgWire
  import opened SqlText
  import opened ScanParams
  import opened PgSession

  // ---------- counting ----------

  function Count<T>(s: seq<T>, p: T -> bool): nat {
    if s == [] then 0 else Count(s[..|s| - 1], p) + if p(s[|s| - 1]) then 1 else 0
  }

  lemma {:induction false} CountConcat<T>(a: seq<T>, b: seq<T>, p: T -> bool)
    ensures Count(a + b, p) == Count(a, p) + Count(b, p)
  {
    if b == [] {
      assert a + b == a;
    } else {
      CountConcat(a, b[..|b| - 1], p);
      assert (a + b)[..|a + b| - 1] == a + b[..|b| - 1];
    }
  }

  lemma {:induction false} CountNone<T>(s: seq<T>, p: T -> bool)
    requires forall i :: 0 <= i < |s| ==> !p(s[i])
    ensures Count(s, p) == 0
  {
    if s != [] { CountNone(s[..|s| - 1], p); }
  }

  lemma {:induction false} CountAll<T>(s: seq<T>, p: T -> bool)
    requires forall i :: 0 <= i < |s| ==> p(s[i])
    ensures Count(s, p) == |s|
  {
    if s != [] { CountAll(s[..|s| - 1], p); }
  }

  lemma CountOne<T>(x: T, p: T -> bool)
    ensures Count([x], p) == if p(x) then 1 else 0
  {
    assert [x][..0] == [];
  }

  // ---------- what a message adds to the output ----------

  ghost function DescribeOutput<D>(env: Env<D>, memo: bool, s: State<D>, kind: char, name: string): seq<Backend> {
    var raw := DescribedText(s, kind, name);
    var prefix := DescribePrefix(kind, raw);
    prefix + [if !ReturnsRows(raw) then NoData
              else ShapeReply(RunText(env, memo, Emit(s, prefix), EngineRun(raw, Substitute(raw, []), ByDescribe)).0,
                              DescribedFormats(s, kind, name))]
  }

  ghost function ExecuteOutput<D>(env: Env<D>, memo: bool, s: State<D>, portal: string): seq<Backend> {
    var p := Lookup(s.portals, portal, NO_PORTAL);
    ExecuteReply(env.codec, p, RunText(env, memo, s, EngineRun(p.sql, ExecuteText(p), ByExecute)).0)
  }

  ghost function QueryOutput<D>(env: Env<D>, s: State<D>, sql: string): seq<Backend> {
    if Blank(sql) then [EmptyQuery] else QueryReply(env.codec, sql, env.eval(s.db, sql).0)
  }

  /** The messages a step appends. */
  ghost function Output<D>(env: Env<D>, memo: bool, s: State<D>, msg: Frontend): seq<Backend> {
    match msg
    case Query(sql) => QueryOutput(env, s, sql) + [Ready(TxByte(Step(env, memo, s, msg)))]
    case Parse(_, _) => if s.failed then [] else [ParseComplete]
    case Bind(_, _, _, _) => if s.failed then [] else [BindComplete]
    case Describe(kind, name) => if s.failed then [] else DescribeOutput(env, memo, s, kind, name)
    case Execute(portal) => if s.failed then [] else ExecuteOutput(env, memo, s, portal)
    case Sync => [Ready(TxByte(s))]
    case Close(_, _) => [CloseComplete]
    case _ => []
  }

  /** trackTx touches the transaction flags and its log, nothing else. */
  lemma TrackTxFrame<D>(s: State<D>, sql: string, failed: bool)
    ensures var t := TrackTx(s, sql, failed);
            t == s.(inTx := t.inTx, txFail := t.txFail, txlog := s.txlog + [TxEvent(sql, failed)])
  {
    hide OpensTransaction, ClosesTransaction;
  }

  lemma QueryOutputOf<D>(env: Env<D>, s: State<D>, sql: string)
    ensures QueryStep(env, s, sql).out == s.out + (QueryOutput(env, s, sql) + [Ready(TxByte(QueryStep(env, s, sql)))])
  {
    hide QueryReply, Blank, TrackTx;
    var (o, ran) := EngineStep(env, s, EngineRun(sql, sql, BySimpleQuery));
    TrackTxFrame(ran, sql, !o.Rows?);
  }

  // ---------- what each kind of message leaves alone ----------

  lemma QueryFrame<D>(env: Env<D>, s: State<D>, sql: string)
    ensures var t := QueryStep(env, s, sql);
            && t == s.(db := t.db, inTx := t.inTx, txFail := t.txFail, out := t.out, runs := t.runs, txlog := t.txlog)
            && t.db == (if Blank(sql) then s.db else env.eval(s.db, sql).1)
  {
    hide QueryReply, Blank, TrackTx;
    var (o, ran) := EngineStep(env, s, EngineRun(sql, sql, BySimpleQuery));
    TrackTxFrame(ran, sql, !o.Rows?);
  }

  lemma ExecuteFrame<D>(env: Env<D>, memo: bool, s: State<D>, portal: string)
    ensures var p := Lookup(s.portals, portal, NO_PORTAL);
            var (o, ran) := RunText(env, memo, s, EngineRun(p.sql, ExecuteText(p), ByExecute));
            var t := ExecuteStep(env, memo, s, portal);
            t == ran.(failed := !o.Rows?, inTx := t.inTx, txFail := t.txFail, out := t.out, txlog := t.txlog)
  {
    hide ExecuteReply, RunText, TrackTx, Rewrite;
    var p := Lookup(s.portals, portal, NO_PORTAL);
    var (o, ran) := RunText(env, memo, s, EngineRun(p.sql, ExecuteText(p), ByExecute));
    TrackTxFrame(ran, p.sql, !o.Rows?);
  }

  lemma DescribeFrame<D>(env: Env<D>, memo: bool, s: State<D>, kind: char, name: string)
    ensures var raw := DescribedText(s, kind, name);
            var t := DescribeStep(env, memo, s, kind, name);
            if !ReturnsRows(raw) then t == s.(out := t.out)
            else
              var told := Emit(s, DescribePrefix(kind, raw));
              var (o, ran) := RunText(env, memo, told, EngineRun(raw, Substitute(raw, []), ByDescribe));
              t == ran.(failed := !o.Rows?, out := t.out)
  {
    hide ShapeReply, RunText, Rewrite, ReturnsRows, MaxIndex;
  }

  /** The messages that only change the names, reset the memo, or do nothing. */
  predicate Plain(msg: Frontend) {
    !msg.Query? && !msg.Describe? && !msg.Execute?
  }

  function StmtsAfter(stmts: map<string, string>, failed: bool, msg: Frontend): map<string, string> {
    match msg
    case Parse(name, query) => if failed then stmts else stmts[name := query]
    case Close(kind, name) => if kind == 'S' then stmts - {name} else stmts
    case _ => stmts
  }

  function PortalsAfter(stmts: map<string, string>, portals: map<string, Portal>, failed: bool, msg: Frontend):
    map<string, Portal>
  {
    match msg
    case Bind(portal, stmt, params, formats) =>
      if failed then portals else portals[portal := Portal(Lookup(stmts, stmt, ""), params, formats)]
    case Close(kind, name) => if kind == 'S' then portals else portals - {name}
    case _ => portals
  }

  lemma PlainFrame<D>(env: Env<D>, memo: bool, s: State<D>, msg: Frontend)
    requires Plain(msg)
    ensures var t := Step(env, memo, s, msg);
            if msg.Sync? then t == SyncStep(s)
            else t == s.(stmts := StmtsAfter(s.stmts, s.failed, msg),
                         portals := PortalsAfter(s.stmts, s.portals, s.failed, msg), out := s.out + Output(env, memo, s, msg))
  {
    hide QueryStep, DescribeStep, ExecuteStep, SyncStep, TxByte, QueryOutput, DescribeOutput, ExecuteOutput;
    assert s.out + [] == s.out;
  }

  lemma DescribeOutputOf<D>(env: Env<D>, memo: bool, s: State<D>, kind: char, name: string)
    ensures DescribeStep(env, memo, s, kind, name).out == s.out + DescribeOutput(env, memo, s, kind, name)
  {
    hide ShapeReply, ReturnsRows, Rewrite, MaxIndex;
    var prefix := DescribePrefix(kind, DescribedText(s, kind, name));
    assert forall m :: (s.out + prefix) + [m] == s.out + (prefix + [m]);
  }

  lemma ExecuteOutputOf<D>(env: Env<D>, memo: bool, s: State<D>, portal: string)
    ensures ExecuteStep(env, memo, s, portal).out == s.out + ExecuteOutput(env, memo, s, portal)
  {
    hide ExecuteReply, OpensTransaction, ClosesTransaction, Rewrite;
  }

  lemma OutputOf<D>(env: Env<D>, memo: bool, s: State<D>, msg: Frontend)
    ensures Step(env, memo, s, msg).out == s.out + Output(env, memo, s, msg)
  {
    hide QueryStep, DescribeStep, ExecuteStep, QueryOutput, DescribeOutput, ExecuteOutput;
    match msg
    case Query(sql) => QueryOutputOf(env, s, sql);
    case Describe(kind, name) => DescribeOutputOf(env, memo, s, kind, name);
    case Execute(portal) => ExecuteOutputOf(env, memo, s, portal);
    case _ =>
  }

  // ---------- skip until Sync ----------

  predicate Skippable(msg: Frontend) {
    msg.Parse? || msg.Bind? || msg.Describe? || msg.Execute?
  }

  /** After an error the extended messages change nothing and emit nothing. */
  lemma FailedSkips<D>(env: Env<D>, memo: bool, s: State<D>, msg: Frontend)
    requires s.failed && Skippable(msg)
    ensures Step(env, memo, s, msg) == s && Output(env, memo, s, msg) == []
  {
  }

  /** From an error on, any run of Parse, Bind, Describe and Execute leaves everything as it is. */
  lemma {:induction false} SkipsUntilSync<D>(env: Env<D>, memo: bool, s: State<D>, msgs: seq<Frontend>)
    requires s.failed && forall i :: 0 <= i < |msgs| ==> Skippable(msgs[i])
    ensures Serve(env, memo, s, msgs) == s
  {
    hide Step;
    if msgs != [] {
      FailedSkips(env, memo, s, msgs[0]);
      SkipsUntilSync(env, memo, s, msgs[1..]);
    }
  }

  function IsError(): Backend -> bool {
    (m: Backend) => m.ErrorResponse?
  }

  lemma DescribeErrors<D>(env: Env<D>, memo: bool, s: State<D>, kind: char, name: string)
    requires !s.failed
    ensures Count(DescribeOutput(env, memo, s, kind, name), IsError()) ==
            if DescribeStep(env, memo, s, kind, name).failed then 1 else 0
  {
    hide ReturnsRows, RunText, Rewrite, MaxIndex, Fields;
    var raw := DescribedText(s, kind, name);
    var prefix := DescribePrefix(kind, raw);
    var all := DescribeOutput(env, memo, s, kind, name);
    var m := all[|prefix|];
    assert all == prefix + [m];
    CountConcat(prefix, [m], IsError());
    CountNone(prefix, IsError());
    CountOne(m, IsError());
  }

  lemma ExecuteErrors<D>(env: Env<D>, memo: bool, s: State<D>, portal: string)
    requires !s.failed
    ensures Count(ExecuteOutput(env, memo, s, portal), IsError()) ==
            if ExecuteStep(env, memo, s, portal).failed then 1 else 0
  {
    hide RunText, Rewrite, TrackTx, WarningsOf, CommandTag, NotesOf, AddsUpTo, RowValues;
    var p := Lookup(s.portals, portal, NO_PORTAL);
    var o := RunText(env, memo, s, EngineRun(p.sql, ExecuteText(p), ByExecute)).0;
    if o.Rows? {
      CountNone(ExecuteReply(env.codec, p, o), IsError());
    } else {
      CountOne(ErrorResponse(o.err), IsError());
    }
  }

  /** The errors sent by extended messages over a run. */
  ghost function ExtendedErrors<D>(env: Env<D>, memo: bool, s: State<D>, msgs: seq<Frontend>): nat
    decreases |msgs|
  {
    if msgs == [] || msgs[0].Terminate? then 0
    else
      (if msgs[0].Query? then 0 else Count(Output(env, memo, s, msgs[0]), IsError())) +
      ExtendedErrors(env, memo, Step(env, memo, s, msgs[0]), msgs[1..])
  }

  lemma StepErrors<D>(env: Env<D>, memo: bool, s: State<D>, msg: Frontend)
    requires !msg.Sync?
    ensures (if s.failed then 1 else 0) + (if msg.Query? then 0 else Count(Output(env, memo, s, msg), IsError())) ==
            if Step(env, memo, s, msg).failed then 1 else 0
  {
    hide DescribeOutput, ExecuteOutput, QueryOutput, DescribeStep, ExecuteStep, QueryReply, Blank, OpensTransaction, ClosesTransaction;
    match msg
    case Describe(kind, name) => if !s.failed { DescribeErrors(env, memo, s, kind, name); }
    case Execute(portal) => if !s.failed { ExecuteErrors(env, memo, s, portal); }
    case Parse(_, _) => CountOne(ParseComplete, IsError());
    case Bind(_, _, _, _) => CountOne(BindComplete, IsError());
    case Close(_, _) => CountOne(CloseComplete, IsError());
    case _ =>
  }

  /** Between two Syncs, whatever else is sent, the extended messages send at most one error, and they
      send it exactly when the segment turns the session failed. */
  lemma {:induction false} OneErrorPerSegment<D>(env: Env<D>, memo: bool, s: State<D>, msgs: seq<Frontend>)
    requires forall i :: 0 <= i < |msgs| ==> !msgs[i].Sync?
    ensures (if s.failed then 1 else 0) + ExtendedErrors(env, memo, s, msgs) ==
            if Serve(env, memo, s, msgs).failed then 1 else 0
    decreases |msgs|
  {
    hide Step, Output;
    if msgs != [] && !msgs[0].Terminate? {
      StepErrors(env, memo, s, msgs[0]);
      OneErrorPerSegment(env, memo, Step(env, memo, s, msgs[0]), msgs[1..]);
    }
  }

  /** A remembered error means the session is failed. */
  predicate ErrorsStop<D>(s: State<D>) {
    s.lastErr.Some? ==> s.failed
  }

  lemma StepErrorsStop<D>(env: Env<D>, memo: bool, s: State<D>, msg: Frontend)
    requires ErrorsStop(s)
    ensures ErrorsStop(Step(env, memo, s, msg))
  {
    hide QueryStep, DescribeStep, ExecuteStep, ReturnsRows, Rewrite, Blank, MaxIndex;
    match msg
    case Query(sql) => QueryFrame(env, s, sql);
    case Describe(kind, name) => if !s.failed { DescribeFrame(env, memo, s, kind, name); }
    case Execute(portal) => if !s.failed { ExecuteFrame(env, memo, s, portal); }
    case _ =>
  }

  lemma {:induction false} ServeErrorsStop<D>(env: Env<D>, memo: bool, s: State<D>, msgs: seq<Frontend>)
    requires ErrorsStop(s)
    ensures ErrorsStop(Serve(env, memo, s, msgs))
    decreases |msgs|
  {
    hide Step;
    if msgs != [] && !msgs[0].Terminate? {
      StepErrorsStop(env, memo, s, msgs[0]);
      ServeErrorsStop(env, memo, Step(env, memo, s, msgs[0]), msgs[1..]);
    }
  }

  /** In every state a connection reaches, a memo hit that is not skipped returns a full result: an
      error is never replayed, although the engine may return a result together with an error. */
  lemma ErrorNeverReplayed<D>(env: Env<D>, db: D, msgs: seq<Frontend>, run: EngineRun)
    ensures var s := Serve(env, true, Initial(db), msgs);
            !s.failed && MemoHit(s, run.text) ==> RunText(env, true, s, run) == (Rows(s.lastRes.value), s)
  {
    ServeErrorsStop(env, true, Initial(db), msgs);
  }

  // ---------- the reply grammar ----------

  /** A recognizer of one reply: Empty, or Error, or [RowDescription DataRow*] Notice* CommandComplete,
      and then ReadyForQuery. */
  datatype Phase = Start | InRows | InNotices | Complete | Closed | Bad

  function NextPhase(ph: Phase, m: Backend): Phase {
    match m
    case EmptyQuery => if ph.Start? then Complete else Bad
    case ErrorResponse(_) => if ph.Start? then Complete else Bad
    case RowDescription(_) => if ph.Start? then InRows else Bad
    case DataRow(_) => if ph.InRows? then InRows else Bad
    case Notice(_) => if ph.Start? || ph.InRows? || ph.InNotices? then InNotices else Bad
    case CommandComplete(_) => if ph.Start? || ph.InRows? || ph.InNotices? then Complete else Bad
    case Ready(_) => if ph.Complete? then Closed else Bad
    case _ => Bad
  }

  function Recognize(ph: Phase, ms: seq<Backend>): Phase {
    if ms == [] then ph else NextPhase(Recognize(ph, ms[..|ms| - 1]), ms[|ms| - 1])
  }

  lemma {:induction false} RecognizeConcat(ph: Phase, a: seq<Backend>, b: seq<Backend>)
    ensures Recognize(ph, a + b) == Recognize(Recognize(ph, a), b)
  {
    if b == [] {
      assert a + b == a;
    } else {
      RecognizeConcat(ph, a, b[..|b| - 1]);
      assert (a + b)[..|a + b| - 1] == a + b[..|b| - 1];
    }
  }

  lemma RecognizeOne(ph: Phase, m: Backend)
    ensures Recognize(ph, [m]) == NextPhase(ph, m)
  {
    assert [m][..0] == [];
  }

  lemma {:induction false} RecognizeRows(rows: seq<Backend>)
    requires forall i :: 0 <= i < |rows| ==> rows[i].DataRow?
    ensures Recognize(InRows, rows) == InRows
  {
    if rows != [] { RecognizeRows(rows[..|rows| - 1]); }
  }

  lemma {:induction false} RecognizeNotices(ph: Phase, notices: seq<Backend>)
    requires ph.Start? || ph.InRows?
    requires forall i :: 0 <= i < |notices| ==> notices[i].Notice?
    ensures Recognize(ph, notices) == if notices == [] then ph else InNotices
  {
    if notices != [] { RecognizeNotices(ph, notices[..|notices| - 1]); }
  }

  function Is(kind: Backend): Backend -> bool {
    (m: Backend) => (m.DataRow? && kind.DataRow?) || (m.Notice? && kind.Notice?) || (m.Ready? && kind.Ready?)
  }

  const ROW := DataRow([])
  const NOTICE := Notice("")
  const READY := Ready('I')

  /** The successful reply: its parts in order, and how many of each. */
  lemma QueryReplyShape(codec: Codec, sql: string, res: QueryResult)
    ensures var ms := QueryReply(codec, sql, Rows(res));
            && Recognize(Start, ms) == Complete
            && |ms| > 0 && ms[|ms| - 1] == CommandComplete(CommandTag(sql, |res.rows|))
            && Count(ms, Is(ROW)) == (if |res.cols| > 0 then |res.rows| else 0)
            && Count(ms, Is(NOTICE)) == |Notices(codec, res)|
            && Count(ms, Is(READY)) == 0
  {
    hide Notices, RowValues, CommandTag, Fields;
    var header := if |res.cols| > 0 then [RowDescription(Fields(res, []))] + DataRows(codec, res, []) else [];
    var notices := Notices(codec, res);
    var tag := CommandComplete(CommandTag(sql, |res.rows|));
    NoticesAreNotices(codec, res);
    assert QueryReply(codec, sql, Rows(res)) == (header + notices) + [tag];
    HeaderShape(codec, res, header);
    RecognizeConcat(Start, header + notices, [tag]);
    RecognizeConcat(Start, header, notices);
    RecognizeNotices(Recognize(Start, header), notices);
    RecognizeOne(Recognize(Start, header + notices), tag);
    CountParts(header, notices, tag, Is(ROW));
    CountParts(header, notices, tag, Is(NOTICE));
    CountParts(header, notices, tag, Is(READY));
    CountNone(notices, Is(ROW));
    CountAll(notices, Is(NOTICE));
    CountNone(notices, Is(READY));
  }

  lemma CountParts(a: seq<Backend>, b: seq<Backend>, m: Backend, p: Backend -> bool)
    ensures Count((a + b) + [m], p) == Count(a, p) + Count(b, p) + if p(m) then 1 else 0
  {
    CountConcat(a + b, [m], p);
    CountConcat(a, b, p);
    CountOne(m, p);
  }

  lemma HeaderShape(codec: Codec, res: QueryResult, header: seq<Backend>)
    requires header == if |res.cols| > 0 then [RowDescription(Fields(res, []))] + DataRows(codec, res, []) else []
    ensures Recognize(Start, header) == if |res.cols| > 0 then InRows else Start
    ensures Count(header, Is(ROW)) == if |res.cols| > 0 then |res.rows| else 0
    ensures Count(header, Is(NOTICE)) == 0 && Count(header, Is(READY)) == 0
  {
    hide RowValues, Fields;
    if |res.cols| > 0 {
      var rows, first := DataRows(codec, res, []), RowDescription(Fields(res, []));
      RecognizeConcat(Start, [first], rows);
      RecognizeOne(Start, first);
      RecognizeRows(rows);
      CountConcat([first], rows, Is(ROW));
      CountOne(first, Is(ROW));
      CountAll(rows, Is(ROW));
      CountNone(header, Is(NOTICE));
      CountNone(header, Is(READY));
    }
  }

  lemma NoticesAreNotices(codec: Codec, res: QueryResult)
    ensures forall i :: 0 <= i < |Notices(codec, res)| ==> Notices(codec, res)[i].Notice?
    ensures |Notices(codec, res)| == |set p | p in Adds(PgRules(codec), res)|
  {
    hide NotesOf, AddsUpTo, WarningsOf;
    ReasonsClean(codec);
    AddsClean(PgRules(codec), res, |res.cols|);
    NotesKeyed(Adds(PgRules(codec), res));
    ReportIsFaithful(Adds(PgRules(codec), res));
  }

  /** The reply before ReadyForQuery, in every case. */
  lemma QueryOutputShape<D>(env: Env<D>, s: State<D>, sql: string)
    ensures var ms := QueryOutput(env, s, sql); Recognize(Start, ms) == Complete && Count(ms, Is(READY)) == 0
  {
    hide Blank, Recognize, Count;
    var o := env.eval(s.db, sql).0;
    if !Blank(sql) && o.Rows? {
      QueryReplyShape(env.codec, sql, o.res);
    } else {
      var m := if Blank(sql) then EmptyQuery else ErrorResponse(o.err);
      assert QueryOutput(env, s, sql) == [m];
      RecognizeOne(Start, m);
      CountOne(m, Is(READY));
    }
  }

  /** Every Query is answered in the grammar, its ReadyForQuery last and only once. */
  lemma QueryReplyGrammar<D>(env: Env<D>, memo: bool, s: State<D>, sql: string)
    ensures var ms := Output(env, memo, s, Query(sql));
            && Recognize(Start, ms) == Closed
            && Count(ms, Is(READY)) == 1
            && |ms| > 0 && ms[|ms| - 1] == Ready(TxByte(Step(env, memo, s, Query(sql))))
  {
    hide QueryOutput, Step, Recognize, Count;
    QueryOutputShape(env, s, sql);
    var body, ready := QueryOutput(env, s, sql), Ready(TxByte(Step(env, memo, s, Query(sql))));
    RecognizeConcat(Start, body, [ready]);
    RecognizeOne(Complete, ready);
    CountConcat(body, [ready], Is(READY));
    CountOne(ready, Is(READY));
  }

  /** When the engine succeeds, the reply has one DataRow per row of a result with columns -- the
      number its SELECT tag carries -- and one Notice per distinct approximation. */
  lemma QueryReplyCounts<D>(env: Env<D>, memo: bool, s: State<D>, sql: string, res: QueryResult)
    requires !Blank(sql) && env.eval(s.db, sql).0 == Rows(res)
    ensures var ms := Output(env, memo, s, Query(sql));
            && |ms| >= 2 && ms[|ms| - 2] == CommandComplete(CommandTag(sql, |res.rows|))
            && Count(ms, Is(ROW)) == (if |res.cols| > 0 then |res.rows| else 0)
            && Count(ms, Is(NOTICE)) == |set p | p in Adds(PgRules(env.codec), res)|
  {
    hide QueryReply, Step, Blank, Count, CommandTag, AddsUpTo, Notices;
    NoticesAreNotices(env.codec, res);
    QueryReplyShape(env.codec, sql, res);
    var body, ready := QueryReply(env.codec, sql, Rows(res)), Ready(TxByte(Step(env, memo, s, Query(sql))));
    assert Output(env, memo, s, Query(sql)) == body + [ready];
    CountConcat(body, [ready], Is(ROW));
    CountOne(ready, Is(ROW));
    CountConcat(body, [ready], Is(NOTICE));
    CountOne(ready, Is(NOTICE));
  }

  /** The messages that are answered with a ReadyForQuery. */
  predicate Readies(msg: Frontend) {
    msg.Query? || msg.Sync?
  }

  lemma NoReadyInExtended<D>(env: Env<D>, memo: bool, s: State<D>, msg: Frontend)
    requires !Readies(msg)
    ensures Count(Output(env, memo, s, msg), Is(READY)) == 0
  {
    hide RunText, Rewrite, TrackTx, WarningsOf, CommandTag, NotesOf, AddsUpTo, RowValues, ReturnsRows, MaxIndex, Fields;
    CountNone(Output(env, memo, s, msg), Is(READY));
  }

  /** The ReadyForQuery messages a run calls for: one per Query or Sync before the first Terminate. */
  function ReadyCalls(msgs: seq<Frontend>): nat {
    if msgs == [] || msgs[0].Terminate? then 0 else (if Readies(msgs[0]) then 1 else 0) + ReadyCalls(msgs[1..])
  }

  /** Over every run, ReadyForQuery is sent once per Query or Sync and by nothing else. */
  lemma {:induction false} ReadyPerQueryOrSync<D>(env: Env<D>, memo: bool, s: State<D>, msgs: seq<Frontend>)
    ensures Count(Serve(env, memo, s, msgs).out, Is(READY)) == Count(s.out, Is(READY)) + ReadyCalls(msgs)
    decreases |msgs|
  {
    hide Step, Count, QueryOutput, DescribeOutput, ExecuteOutput;
    if msgs != [] && !msgs[0].Terminate? {
      var msg, s' := msgs[0], Step(env, memo, s, msgs[0]);
      OutputOf(env, memo, s, msg);
      CountConcat(s.out, Output(env, memo, s, msg), Is(READY));
      if msg.Query? {
        QueryReplyGrammar(env, memo, s, msg.sql);
      } else if msg.Sync? {
        CountOne(Ready(TxByte(s)), Is(READY));
      } else {
        NoReadyInExtended(env, memo, s, msg);
      }
      ReadyPerQueryOrSync(env, memo, s', msgs[1..]);
    }
  }

  // ---------- the transaction byte ----------

  predicate Control(e: TxEvent) {
    OpensTransaction(e.sql) || ClosesTransaction(e.sql)
  }

  /** Statement `i` opened the transaction the log ends in. */
  predicate OpenSince(log: seq<TxEvent>, i: nat) {
    && i < |log|
    && OpensTransaction(log[i].sql)
    && forall j :: i < j < |log| ==> !Control(log[j])
  }

  predicate FailedSince(log: seq<TxEvent>, i: nat) {
    exists j :: i < j < |log| && log[j].failed
  }

  /** The state of the transaction by the whole history: idle unless the last control statement opens
      one, failed if a statement after it failed. */
  ghost function TxOfHistory(log: seq<TxEvent>): char {
    if i: nat :| OpenSince(log, i) then
      if FailedSince(log, i) then 'E' else 'T'
    else 'I'
  }

  lemma OpenSinceUnique(log: seq<TxEvent>, i: nat, k: nat)
    requires OpenSince(log, i) && OpenSince(log, k)
    ensures i == k
  {
  }

  ghost predicate TxTracked<D>(s: State<D>) {
    && (s.inTx <==> exists i: nat :: OpenSince(s.txlog, i))
    && (s.txFail <==> exists i: nat :: OpenSince(s.txlog, i) && FailedSince(s.txlog, i))
  }

  lemma TrackTxTracked<D>(s: State<D>, sql: string, failed: bool)
    requires TxTracked(s)
    ensures TxTracked(TrackTx(s, sql, failed))
  {
    hide OpensTransaction, ClosesTransaction;
    var t := TrackTx(s, sql, failed);
    var n, e := |s.txlog|, TxEvent(sql, failed);
    assert t.txlog == s.txlog + [e];
    assert t.txlog[n] == e;
    if Control(e) {
      forall i: nat | OpenSince(t.txlog, i) ensures i == n && OpensTransaction(sql) {
      }
      if OpensTransaction(sql) { assert OpenSince(t.txlog, n); }
    } else {
      forall i: nat ensures OpenSince(t.txlog, i) <==> OpenSince(s.txlog, i) {
        if OpenSince(s.txlog, i) || OpenSince(t.txlog, i) {
          assert i < n ==> t.txlog[i] == s.txlog[i];
          assert forall j :: i < j < n ==> t.txlog[j] == s.txlog[j];
        }
      }
      forall i: nat | OpenSince(s.txlog, i)
        ensures FailedSince(t.txlog, i) <==> FailedSince(s.txlog, i) || failed
      {
        if FailedSince(s.txlog, i) {
          var j :| i < j < n && s.txlog[j].failed;
          assert t.txlog[j].failed;
        }
      }
    }
  }

  lemma TrackedByte<D>(s: State<D>)
    requires TxTracked(s)
    ensures TxByte(s) == TxOfHistory(s.txlog) && (s.txFail ==> s.inTx)
  {
    forall i: nat, k: nat | OpenSince(s.txlog, i) && OpenSince(s.txlog, k) ensures i == k {
      OpenSinceUnique(s.txlog, i, k);
    }
  }

  /** Two states that the transaction tracker cannot tell apart. */
  predicate SameTx<D>(s: State<D>, t: State<D>) {
    s.inTx == t.inTx && s.txFail == t.txFail && s.txlog == t.txlog
  }

  lemma QueryTracked<D>(env: Env<D>, s: State<D>, sql: string)
    requires TxTracked(s)
    ensures TxTracked(QueryStep(env, s, sql))
  {
    hide QueryReply, Blank, TrackTx, TxTracked;
    if !Blank(sql) {
      var (o, ran) := EngineStep(env, s, EngineRun(sql, sql, BySimpleQuery));
      SameTxTracked(s, ran);
      TrackTxTracked(ran, sql, !o.Rows?);
      SameTxTracked(TrackTx(ran, sql, !o.Rows?), QueryStep(env, s, sql));
    } else {
      SameTxTracked(s, QueryStep(env, s, sql));
    }
  }

  lemma ExecuteTracked<D>(env: Env<D>, memo: bool, s: State<D>, portal: string)
    requires TxTracked(s)
    ensures TxTracked(ExecuteStep(env, memo, s, portal))
  {
    hide ExecuteReply, Rewrite, TrackTx, TxTracked;
    var p := Lookup(s.portals, portal, NO_PORTAL);
    var (o, ran) := RunText(env, memo, s, EngineRun(p.sql, ExecuteText(p), ByExecute));
    SameTxTracked(s, ran);
    TrackTxTracked(ran, p.sql, !o.Rows?);
    SameTxTracked(TrackTx(ran, p.sql, !o.Rows?), ExecuteStep(env, memo, s, portal));
  }

  lemma DescribeTracked<D>(env: Env<D>, memo: bool, s: State<D>, kind: char, name: string)
    requires TxTracked(s)
    ensures TxTracked(DescribeStep(env, memo, s, kind, name))
  {
    hide ShapeReply, ReturnsRows, Rewrite, MaxIndex, TxTracked;
    SameTxTracked(s, DescribeStep(env, memo, s, kind, name));
  }

  lemma StepTracked<D>(env: Env<D>, memo: bool, s: State<D>, msg: Frontend)
    requires TxTracked(s)
    ensures TxTracked(Step(env, memo, s, msg))
  {
    hide QueryStep, DescribeStep, ExecuteStep, TxTracked;
    match msg
    case Query(sql) => QueryTracked(env, s, sql);
    case Describe(kind, name) => if !s.failed { DescribeTracked(env, memo, s, kind, name); }
    case Execute(portal) => if !s.failed { ExecuteTracked(env, memo, s, portal); }
    case _ => SameTxTracked(s, Step(env, memo, s, msg));
  }

  lemma SameTxTracked<D>(s: State<D>, t: State<D>)
    requires SameTx(s, t) && TxTracked(s)
    ensures TxTracked(t)
  {
  }

  lemma {:induction false} ServeTracked<D>(env: Env<D>, memo: bool, s: State<D>, msgs: seq<Frontend>)
    requires TxTracked(s)
    ensures TxTracked(Serve(env, memo, s, msgs))
    decreases |msgs|
  {
    hide Step, TxTracked;
    if msgs != [] && !msgs[0].Terminate? {
      StepTracked(env, memo, s, msgs[0]);
      ServeTracked(env, memo, Step(env, memo, s, msgs[0]), msgs[1..]);
    }
  }

  /** In every reachable state the transaction byte is the one the whole history calls for. */
  lemma TxByteIsHistory<D>(env: Env<D>, memo: bool, db: D, msgs: seq<Frontend>)
    ensures var s := Serve(env, memo, Initial(db), msgs);
            TxByte(s) == TxOfHistory(s.txlog) && (s.txFail ==> s.inTx)
  {
    ServeTracked(env, memo, Initial(db), msgs);
    TrackedByte(Serve(env, memo, Initial(db), msgs));
  }

  // ---------- engine runs ----------

  /** A Describe only ever runs the NULL probe of a row-returning text. */
  predicate ProbesOnly(runs: seq<EngineRun>) {
    forall i :: 0 <= i < |runs| && runs[i].origin == ByDescribe ==>
      ReturnsRows(runs[i].raw) && runs[i].text == Substitute(runs[i].raw, [])
  }

  /** The engine run a step makes, if any. */
  function RunOf<D>(memo: bool, s: State<D>, msg: Frontend): Option<EngineRun> {
    match msg
    case Query(sql) => if Blank(sql) then None else Some(EngineRun(sql, sql, BySimpleQuery))
    case Describe(kind, name) =>
      var raw := DescribedText(s, kind, name);
      var run := EngineRun(raw, Substitute(raw, []), ByDescribe);
      if s.failed || !ReturnsRows(raw) || (memo && MemoHit(s, run.text)) then None else Some(run)
    case Execute(portal) =>
      var p := Lookup(s.portals, portal, NO_PORTAL);
      var run := EngineRun(p.sql, ExecuteText(p), ByExecute);
      if s.failed || (memo && MemoHit(s, run.text)) then None else Some(run)
    case _ => None
  }

  /** A step's effect on the engine: the run's effect, recorded; or none. */
  ghost predicate Ran<D>(env: Env<D>, s: State<D>, run: Option<EngineRun>, t: State<D>) {
    match run
    case None => t.runs == s.runs && t.db == s.db
    case Some(e) => t.runs == s.runs + [e] && t.db == env.eval(s.db, e.text).1
  }

  lemma QueryRan<D>(env: Env<D>, s: State<D>, sql: string)
    ensures Ran(env, s, RunOf(true, s, Query(sql)), QueryStep(env, s, sql))
  {
    hide QueryReply, Blank, OpensTransaction, ClosesTransaction;
  }

  lemma DescribeRan<D>(env: Env<D>, memo: bool, s: State<D>, kind: char, name: string)
    requires !s.failed
    ensures Ran(env, s, RunOf(memo, s, Describe(kind, name)), DescribeStep(env, memo, s, kind, name))
  {
    hide ShapeReply, ReturnsRows, Rewrite, MaxIndex;
  }

  lemma ExecuteRan<D>(env: Env<D>, memo: bool, s: State<D>, portal: string)
    requires !s.failed
    ensures Ran(env, s, RunOf(memo, s, Execute(portal)), ExecuteStep(env, memo, s, portal))
  {
    hide ExecuteReply, OpensTransaction, ClosesTransaction, Rewrite;
  }

  lemma StepRan<D>(env: Env<D>, memo: bool, s: State<D>, msg: Frontend)
    ensures Ran(env, s, RunOf(memo, s, msg), Step(env, memo, s, msg))
  {
    hide QueryStep, DescribeStep, ExecuteStep, Rewrite, ReturnsRows, Blank;
    match msg
    case Query(sql) => QueryRan(env, s, sql);
    case Describe(kind, name) => if !s.failed { DescribeRan(env, memo, s, kind, name); }
    case Execute(portal) => if !s.failed { ExecuteRan(env, memo, s, portal); }
    case _ =>
  }

  lemma StepProbes<D>(env: Env<D>, memo: bool, s: State<D>, msg: Frontend)
    requires ProbesOnly(s.runs)
    ensures ProbesOnly(Step(env, memo, s, msg).runs)
  {
    hide Step, Rewrite, ReturnsRows, Blank;
    StepRan(env, memo, s, msg);
  }

  /** The runs of text `q` that extended messages caused. */
  function ExtendedRun(q: string): EngineRun -> bool {
    (e: EngineRun) => e.raw == q && e.origin != BySimpleQuery
  }

  /** The Executes of text `q` that are not skipped, over a run. */
  ghost function Executes<D>(env: Env<D>, memo: bool, s: State<D>, msgs: seq<Frontend>, q: string): nat
    decreases |msgs|
  {
    if msgs == [] || msgs[0].Terminate? then 0
    else
      (if msgs[0].Execute? && !s.failed && Lookup(s.portals, msgs[0].portal, NO_PORTAL).sql == q then 1 else 0) +
      Executes(env, memo, Step(env, memo, s, msgs[0]), msgs[1..], q)
  }

  /** The runs one step adds: none, or one. */
  lemma StepRuns<D>(env: Env<D>, memo: bool, s: State<D>, msg: Frontend, q: string)
    requires !ReturnsRows(q)
    ensures var executes := msg.Execute? && !s.failed && Lookup(s.portals, msg.portal, NO_PORTAL).sql == q;
            var before, after := Count(s.runs, ExtendedRun(q)), Count(Step(env, memo, s, msg).runs, ExtendedRun(q));
            && after <= before + (if executes then 1 else 0)
            && (!memo ==> after == before + if executes then 1 else 0)
  {
    hide Step, Rewrite, ReturnsRows, Blank, Count;
    StepRan(env, memo, s, msg);
    var run := RunOf(memo, s, msg);
    if run.Some? {
      CountConcat(s.runs, [run.value], ExtendedRun(q));
      CountOne(run.value, ExtendedRun(q));
    }
  }

  /** Over every run, extended messages run a text outside the row-returning list at most once per
      Execute of it, and exactly once per Execute without the memo: describing it never runs it. */
  lemma {:induction false} DescribeNeverRunsEffects<D>(env: Env<D>, memo: bool, s: State<D>, msgs: seq<Frontend>, q: string)
    requires !ReturnsRows(q)
    ensures var before, after := Count(s.runs, ExtendedRun(q)), Count(Serve(env, memo, s, msgs).runs, ExtendedRun(q));
            && after <= before + Executes(env, memo, s, msgs, q)
            && (!memo ==> after == before + Executes(env, memo, s, msgs, q))
    ensures ProbesOnly(s.runs) ==> ProbesOnly(Serve(env, memo, s, msgs).runs)
    decreases |msgs|
  {
    hide Step, Count, ReturnsRows, ProbesOnly;
    if msgs != [] && !msgs[0].Terminate? {
      StepRuns(env, memo, s, msgs[0], q);
      if ProbesOnly(s.runs) { StepProbes(env, memo, s, msgs[0]); }
      DescribeNeverRunsEffects(env, memo, Step(env, memo, s, msgs[0]), msgs[1..], q);
    }
  }
}
