/** What a session remembers of its messages: the statements tracked for the transaction byte, and the
    texts behind its names. */
module PgHistory {
  import opened Basics
  import opened Results
  import opened SqlText
  import opened ScanParams
  import opened Words
  import opened PgSession
  import opened PgRuns

  // ---------- the transaction byte, from the messages alone ----------

  /** The statement a message makes the session track: every Query that is not blank and every Execute
      that is not skipped, with whether it failed. */
  ghost function Tracked<D>(env: Env<D>, memo: bool, s: State<D>, msg: Frontend): seq<TxEvent> {
    match msg
    case Query(sql) => if Blank(sql) then [] else [TxEvent(sql, !env.eval(s.db, sql).0.Rows?)]
    case Execute(portal) =>
      if s.failed then [] else [TxEvent(Lookup(s.portals, portal, NO_PORTAL).sql, Step(env, memo, s, msg).failed)]
    case _ => []
  }

  ghost function History<D>(env: Env<D>, memo: bool, s: State<D>, msgs: seq<Frontend>): seq<TxEvent>
    decreases |msgs|
  {
    if msgs == [] || msgs[0].Terminate? then []
    else Tracked(env, memo, s, msgs[0]) + History(env, memo, Step(env, memo, s, msgs[0]), msgs[1..])
  }

  lemma RunKeeps<D>(env: Env<D>, memo: bool, s: State<D>, run: EngineRun)
    ensures var t := RunText(env, memo, s, run).1; t.stmts == s.stmts && t.portals == s.portals && t.txlog == s.txlog
  {
  }

  lemma QueryLogs<D>(env: Env<D>, s: State<D>, sql: string)
    ensures QueryStep(env, s, sql).txlog ==
            s.txlog + if Blank(sql) then [] else [TxEvent(sql, !env.eval(s.db, sql).0.Rows?)]
  {
    hide QueryReply, Blank, TrackTx;
    var (o, ran) := EngineStep(env, s, EngineRun(sql, sql, BySimpleQuery));
    TrackTxFrame(ran, sql, !o.Rows?);
  }

  lemma ExecuteLogs<D>(env: Env<D>, memo: bool, s: State<D>, portal: string)
    ensures var t := ExecuteStep(env, memo, s, portal);
            t.txlog == s.txlog + [TxEvent(Lookup(s.portals, portal, NO_PORTAL).sql, t.failed)]
  {
    hide ExecuteReply, TrackTx, RunText, Rewrite;
    var p := Lookup(s.portals, portal, NO_PORTAL);
    var run := EngineRun(p.sql, ExecuteText(p), ByExecute);
    var (o, ran) := RunText(env, memo, s, run);
    RunKeeps(env, memo, s, run);
    TrackTxFrame(ran, p.sql, !o.Rows?);
  }

  lemma DescribeKeeps<D>(env: Env<D>, memo: bool, s: State<D>, kind: char, name: string)
    ensures var t := DescribeStep(env, memo, s, kind, name);
            t.stmts == s.stmts && t.portals == s.portals && t.txlog == s.txlog
  {
    hide DescribeStep, RunText, Rewrite, ReturnsRows, DescribePrefix;
    DescribeFrame(env, memo, s, kind, name);
    var raw := DescribedText(s, kind, name);
    RunKeeps(env, memo, Emit(s, DescribePrefix(kind, raw)), EngineRun(raw, Substitute(raw, []), ByDescribe));
  }

  lemma StepLogs<D>(env: Env<D>, memo: bool, s: State<D>, msg: Frontend)
    ensures Step(env, memo, s, msg).txlog == s.txlog + Tracked(env, memo, s, msg)
  {
    hide QueryStep, DescribeStep, ExecuteStep, StmtsAfter, PortalsAfter, Output, Blank;
    assert s.txlog + [] == s.txlog;
    if s.failed && Skippable(msg) {
      FailedSkips(env, memo, s, msg);
    } else if Plain(msg) {
      PlainFrame(env, memo, s, msg);
      hide Step;
    } else {
      match msg
      case Query(sql) => QueryLogs(env, s, sql);
      case Describe(kind, name) => DescribeKeeps(env, memo, s, kind, name);
      case Execute(portal) => ExecuteLogs(env, memo, s, portal);
    }
  }

  lemma {:induction false} ServeLogs<D>(env: Env<D>, memo: bool, s: State<D>, msgs: seq<Frontend>)
    ensures Serve(env, memo, s, msgs).txlog == s.txlog + History(env, memo, s, msgs)
    decreases |msgs|
  {
    hide Step, Tracked;
    if msgs != [] && !msgs[0].Terminate? {
      StepLogs(env, memo, s, msgs[0]);
      ServeLogs(env, memo, Step(env, memo, s, msgs[0]), msgs[1..]);
    }
  }

  /** The last statement of the log that begins with a transaction word. */
  ghost predicate LastControl(log: seq<TxEvent>, i: nat) {
    && i < |log| && Controls(log[i].sql)
    && forall j :: i < j < |log| ==> !Controls(log[j].sql)
  }

  ghost predicate Controls(sql: string) {
    BeginsWithAny(sql, OPENING_WORDS) || BeginsWithAny(sql, CLOSING_WORDS)
  }

  /** Over every run of a connection the byte is read off its statements: idle if none begins with BEGIN,
      START, COMMIT, ROLLBACK or END or the last that does is a closing one, and otherwise failed exactly
      if a statement after it failed. */
  lemma TxByteOfRun<D>(env: Env<D>, memo: bool, db: D, msgs: seq<Frontend>)
    ensures var log, tx := History(env, memo, Initial(db), msgs), TxByte(Serve(env, memo, Initial(db), msgs));
            && ((forall i :: 0 <= i < |log| ==> !Controls(log[i].sql)) ==> tx == 'I')
            && forall i: nat :: LastControl(log, i) ==>
                 if BeginsWithAny(log[i].sql, CLOSING_WORDS) then tx == 'I'
                 else if exists j :: i < j < |log| && log[j].failed then tx == 'E'
                 else tx == 'T'
  {
    hide OpensTransaction, ClosesTransaction, BeginsWithAny, TxOfHistory, TxByte, Serve, History;
    var s := Serve(env, memo, Initial(db), msgs);
    var log := History(env, memo, Initial(db), msgs);
    ServeLogs(env, memo, Initial(db), msgs);
    assert s.txlog == [] + log == log;
    TxByteIsHistory(env, memo, db, msgs);
    forall sql ensures OpensTransaction(sql) <==> BeginsWithAny(sql, OPENING_WORDS)
               ensures ClosesTransaction(sql) <==> BeginsWithAny(sql, CLOSING_WORDS)
    {
      KeywordTests(sql);
    }
    if forall i :: 0 <= i < |log| ==> !Controls(log[i].sql) {
      ByteWithoutControl(log);
    }
    forall i: nat | LastControl(log, i)
      ensures if BeginsWithAny(log[i].sql, CLOSING_WORDS) then TxByte(s) == 'I'
              else if exists j :: i < j < |log| && log[j].failed then TxByte(s) == 'E'
              else TxByte(s) == 'T'
    {
      ByteByLast(log, i);
    }
  }

  lemma ByteWithoutControl(log: seq<TxEvent>)
    requires forall j :: 0 <= j < |log| ==> !Control(log[j])
    ensures TxOfHistory(log) == 'I'
  {
    hide OpensTransaction, ClosesTransaction;
    forall i: nat ensures !OpenSince(log, i) {
    }
  }

  lemma OneKeyword(sql: string)
    ensures !(OpensTransaction(sql) && ClosesTransaction(sql))
  {
    hide FirstKeyword;
  }

  lemma ByteByLast(log: seq<TxEvent>, i: nat)
    requires i < |log| && Control(log[i]) && forall j :: i < j < |log| ==> !Control(log[j])
    ensures TxOfHistory(log) ==
            if ClosesTransaction(log[i].sql) then 'I'
            else if exists j :: i < j < |log| && log[j].failed then 'E'
            else 'T'
  {
    hide OpensTransaction, ClosesTransaction;
    OneKeyword(log[i].sql);
    if OpensTransaction(log[i].sql) {
      assert OpenSince(log, i);
    }
    forall k: nat | OpenSince(log, k) ensures k == i && OpensTransaction(log[i].sql) {
    }
  }

  // ---------- names ----------

  /** Parse replaces the text of one statement, Bind fixes a portal's text, parameters and formats,
      Close forgets one name; nothing else changes a name, and Query, Describe and Execute none. */
  lemma NamesChange<D>(env: Env<D>, memo: bool, s: State<D>, msg: Frontend)
    ensures var t := Step(env, memo, s, msg);
            && (msg.Parse? && !s.failed ==> t.stmts == s.stmts[msg.name := msg.query] && t.portals == s.portals)
            && (msg.Bind? && !s.failed ==>
                  && t.stmts == s.stmts
                  && t.portals == s.portals[msg.portal :=
                       Portal(if msg.stmt in s.stmts then s.stmts[msg.stmt] else "", msg.params, msg.formats)])
            && (msg.Close? && msg.kind == 'S' ==>
                  && t.portals == s.portals && t.stmts.Keys == s.stmts.Keys - {msg.name}
                  && forall n :: n in t.stmts ==> t.stmts[n] == s.stmts[n])
            && (msg.Close? && msg.kind != 'S' ==>
                  && t.stmts == s.stmts && t.portals.Keys == s.portals.Keys - {msg.name}
                  && forall n :: n in t.portals ==> t.portals[n] == s.portals[n])
            && (!msg.Parse? && !msg.Bind? && !msg.Close? ==> t.stmts == s.stmts && t.portals == s.portals)
  {
    hide QueryStep, DescribeStep, ExecuteStep, Output, RunText, Rewrite, ReturnsRows;
    if s.failed && Skippable(msg) {
      FailedSkips(env, memo, s, msg);
    } else if Plain(msg) {
      PlainFrame(env, memo, s, msg);
      hide Step;
    } else {
      match msg
      case Query(sql) => QueryFrame(env, s, sql);
      case Describe(kind, name) => DescribeKeeps(env, memo, s, kind, name);
      case Execute(portal) => ExecuteKeepsNames(env, memo, s, portal);
    }
  }

  lemma ExecuteKeepsNames<D>(env: Env<D>, memo: bool, s: State<D>, portal: string)
    ensures var t := ExecuteStep(env, memo, s, portal); t.stmts == s.stmts && t.portals == s.portals
  {
    hide ExecuteStep, RunText, Rewrite;
    ExecuteFrame(env, memo, s, portal);
    var p := Lookup(s.portals, portal, NO_PORTAL);
    RunKeeps(env, memo, s, EngineRun(p.sql, ExecuteText(p), ByExecute));
  }

  /** A portal keeps what it was bound to until that portal is bound again or closed, whatever becomes of
      its statement. */
  lemma {:induction false} PortalKeeps<D>(env: Env<D>, memo: bool, s: State<D>, msgs: seq<Frontend>, portal: string)
    requires forall i :: 0 <= i < |msgs| ==>
               !(msgs[i].Bind? && msgs[i].portal == portal) && !(msgs[i].Close? && msgs[i].kind != 'S' && msgs[i].name == portal)
    ensures var t := Serve(env, memo, s, msgs);
            Lookup(t.portals, portal, NO_PORTAL) == Lookup(s.portals, portal, NO_PORTAL)
    decreases |msgs|
  {
    hide Step;
    if msgs != [] && !msgs[0].Terminate? {
      var t := Step(env, memo, s, msgs[0]);
      NamesChange(env, memo, s, msgs[0]);
      if s.failed && Skippable(msgs[0]) { FailedSkips(env, memo, s, msgs[0]); }
      assert portal in t.portals <==> portal in t.portals.Keys;
      PortalKeeps(env, memo, t, msgs[1..], portal);
    }
  }
}
