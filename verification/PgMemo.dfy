/** The one-entry result memo of the Postgres session against the session that always runs the engine. */
module PgMemo {
  import opened Basics
  import opened Results
  import opened SqlText
  import opened ScanParams
  import opened PgSession
  import opened PgRuns

  // ---------- what is compared ----------

  /** Equal but for the log of engine runs. */
  ghost predicate SameView<D>(s: State<D>, n: State<D>) {
    s == n.(runs := s.runs)
  }

  /** What the client and the other connections can tell: the messages sent and the database. */
  ghost predicate SameObservation<D>(s: State<D>, n: State<D>) {
    s.out == n.out && s.db == n.db
  }

  /** The memoized session `s` and the plain one `n` cannot be told apart now or after any further message. */
  ghost predicate AgreeFrom<D>(env: Env<D>, s: State<D>, n: State<D>, msgs: seq<Frontend>)
    decreases |msgs|
  {
    && SameObservation(s, n)
    && (msgs == [] || msgs[0].Terminate? ||
        AgreeFrom(env, Step(env, true, s, msgs[0]), Step(env, false, n, msgs[0]), msgs[1..]))
  }

  ghost predicate Agree<D>(env: Env<D>, db: D, msgs: seq<Frontend>) {
    AgreeFrom(env, Initial(db), Initial(db), msgs)
  }

  /** If the engine runs a row-returning text at this step, the text leaves the database as it is.
      (No other connection writes: the database changes only by this session's runs.) */
  ghost predicate PureStep<D>(env: Env<D>, s: State<D>, msg: Frontend) {
    var run := RunOf(true, s, msg);
    run.Some? ==> PureAt(env, s.db, run.value.text)
  }

  ghost predicate PureAt<D>(env: Env<D>, db: D, q: string) {
    ReturnsRows(q) ==> env.eval(db, q).1 == db
  }

  /** So do the row-returning texts the engine runs in this run, at the databases it runs them on.
      Nothing is asked of any other text or of any other database. */
  ghost predicate PureRun<D>(env: Env<D>, s: State<D>, msgs: seq<Frontend>)
    decreases |msgs|
  {
    msgs == [] || msgs[0].Terminate? ||
    (PureStep(env, s, msgs[0]) && PureRun(env, Step(env, true, s, msgs[0]), msgs[1..]))
  }

  /** No Describe and no Execute of this run fails. */
  ghost predicate Unfailed<D>(env: Env<D>, s: State<D>, msgs: seq<Frontend>)
    decreases |msgs|
  {
    !s.failed && (msgs == [] || msgs[0].Terminate? || Unfailed(env, Step(env, true, s, msgs[0]), msgs[1..]))
  }

  // ---------- what a client can check on its own messages ----------

  /** The prepared statements and portals, the last text described or executed since the last Sync,
      and whether a simple query outside the row-returning list came after it. */
  datatype Track = Track(stmts: map<string, string>, portals: map<string, Portal>, last: Option<string>, stale: bool)

  const NEW_TRACK := Track(map[], map[], None, false)

  /** The text a Describe or Execute is about to run, if it runs one. */
  function TextOf(t: Track, msg: Frontend): Option<string> {
    match msg
    case Describe(kind, name) =>
      var raw := if kind == 'S' then Lookup(t.stmts, name, "") else Lookup(t.portals, name, NO_PORTAL).sql;
      if ReturnsRows(raw) then Some(Substitute(raw, [])) else None
    case Execute(portal) => Some(ExecuteText(Lookup(t.portals, portal, NO_PORTAL)))
    case _ => None
  }

  function Touch(t: Track, q: string): Track {
    if t.last == Some(q) then t else t.(last := Some(q), stale := false)
  }

  function Follow(t: Track, msg: Frontend): Track {
    match msg
    case Query(sql) => if Blank(sql) then t else t.(stale := t.stale || !ReturnsRows(sql))
    case Parse(name, query) => t.(stmts := t.stmts[name := query])
    case Bind(portal, stmt, params, formats) =>
      t.(portals := t.portals[portal := Portal(Lookup(t.stmts, stmt, ""), params, formats)])
    case Describe(_, _) => if TextOf(t, msg).Some? then Touch(t, TextOf(t, msg).value) else t
    case Execute(_) => Touch(t, TextOf(t, msg).value)
    case Sync => t.(last := None, stale := false)
    case Close(kind, name) => if kind == 'S' then t.(stmts := t.stmts - {name}) else t.(portals := t.portals - {name})
    case _ => t
  }

  /** Repeating the last text is safe if it returns rows and nothing written since could change it. */
  predicate SafeMessage(t: Track, msg: Frontend) {
    TextOf(t, msg).Some? && t.last == TextOf(t, msg) ==> ReturnsRows(t.last.value) && !t.stale
  }

  predicate SafeTrace(t: Track, msgs: seq<Frontend>)
    decreases |msgs|
  {
    msgs == [] || msgs[0].Terminate? ||
    (SafeMessage(t, msgs[0]) && SafeTrace(Follow(t, msgs[0]), msgs[1..]))
  }

  /** The same check along an actual run, in which skipped messages do not count. */
  ghost predicate SafeRun<D>(env: Env<D>, s: State<D>, t: Track, msgs: seq<Frontend>)
    decreases |msgs|
  {
    msgs == [] || msgs[0].Terminate? ||
    if s.failed && Skippable(msgs[0]) then SafeRun(env, Step(env, true, s, msgs[0]), t, msgs[1..])
    else SafeMessage(t, msgs[0]) && SafeRun(env, Step(env, true, s, msgs[0]), Follow(t, msgs[0]), msgs[1..])
  }

  // ---------- the simulation ----------

  /** The track follows the session, and while the session is not failed a fresh memo of a
      row-returning text is what the engine would answer now. */
  ghost predicate Linked<D>(env: Env<D>, s: State<D>, t: Track) {
    && t.stmts == s.stmts && t.portals == s.portals
    && (!s.failed ==>
          && s.lastErr.None?
          && t.last == (if s.lastRes.Some? then Some(s.lastSQL) else None)
          && (s.lastRes.Some? && ReturnsRows(s.lastSQL) && !t.stale ==>
                env.eval(s.db, s.lastSQL) == (Rows(s.lastRes.value), s.db)))
  }

  /** A run that the memo may answer gives the same either way. */
  lemma RunTextAgrees<D>(env: Env<D>, s: State<D>, n: State<D>, t: Track, run: EngineRun)
    requires Linked(env, s, t) && SameView(s, n) && !s.failed
    requires t.last == Some(run.text) ==> ReturnsRows(run.text) && !t.stale
    ensures var (o1, s1), (o2, n1) := RunText(env, true, s, run), RunText(env, false, n, run);
            o1 == o2 && SameView(s1, n1)
  {
    hide ReturnsRows;
  }

  /** After a run that did not end in an error the memo holds what the engine would answer. */
  lemma RunTextLinks<D>(env: Env<D>, s: State<D>, t: Track, run: EngineRun)
    requires Linked(env, s, t) && !s.failed
    requires MemoHit(s, run.text) || PureAt(env, s.db, run.text)
    ensures var (o, s1) := RunText(env, true, s, run);
            Linked(env, s1.(failed := !o.Rows?), Touch(t, run.text))
  {
    hide ReturnsRows;
  }

  /** Link and view depend only on some fields. */
  lemma LinkedFrame<D>(env: Env<D>, s: State<D>, s': State<D>, t: Track)
    requires Linked(env, s, t)
    requires s' == s.(inTx := s'.inTx, txFail := s'.txFail, out := s'.out, runs := s'.runs, txlog := s'.txlog)
    ensures Linked(env, s', t)
  {
    hide ReturnsRows;
  }

  lemma TrackTxView<D>(s: State<D>, n: State<D>, sql: string, failed: bool)
    requires SameView(s, n)
    ensures SameView(TrackTx(s, sql, failed), TrackTx(n, sql, failed))
  {
    hide OpensTransaction, ClosesTransaction;
  }

  lemma ExecuteView<D>(env: Env<D>, s: State<D>, n: State<D>, t: Track, portal: string)
    requires Linked(env, s, t) && SameView(s, n) && !s.failed && SafeMessage(t, Execute(portal))
    ensures SameView(ExecuteStep(env, true, s, portal), ExecuteStep(env, false, n, portal))
  {
    hide ReturnsRows, Rewrite, ExecuteReply, RunText, Linked, TrackTx;
    LinkedFields(env, s, t);
    var p := Lookup(s.portals, portal, NO_PORTAL);
    var run := EngineRun(p.sql, ExecuteText(p), ByExecute);
    RunTextAgrees(env, s, n, t, run);
    var (o, s1) := RunText(env, true, s, run);
    var (o2, n1) := RunText(env, false, n, run);
    TrackTxView(s1, n1, p.sql, !o.Rows?);
  }

  lemma ExecuteSimulates<D>(env: Env<D>, s: State<D>, n: State<D>, t: Track, portal: string)
    requires Linked(env, s, t) && SameView(s, n) && !s.failed
    requires PureStep(env, s, Execute(portal)) && SafeMessage(t, Execute(portal))
    ensures SameView(ExecuteStep(env, true, s, portal), ExecuteStep(env, false, n, portal))
    ensures Linked(env, ExecuteStep(env, true, s, portal), Follow(t, Execute(portal)))
  {
    hide ReturnsRows, Rewrite, RunText, Linked, PureAt, ExecuteStep, SafeMessage;
    ExecuteView(env, s, n, t, portal);
    LinkedFields(env, s, t);
    var p := Lookup(s.portals, portal, NO_PORTAL);
    var run := EngineRun(p.sql, ExecuteText(p), ByExecute);
    var (o, s1) := RunText(env, true, s, run);
    RunTextLinks(env, s, t, run);
    ExecuteFrame(env, true, s, portal);
    LinkedFrame(env, s1.(failed := !o.Rows?), ExecuteStep(env, true, s, portal), Touch(t, run.text));
  }

  lemma LinkedFields<D>(env: Env<D>, s: State<D>, t: Track)
    requires Linked(env, s, t)
    ensures t.stmts == s.stmts && t.portals == s.portals
  {
  }

  lemma DescribeSimulates<D>(env: Env<D>, s: State<D>, n: State<D>, t: Track, kind: char, name: string)
    requires Linked(env, s, t) && SameView(s, n) && !s.failed
    requires PureStep(env, s, Describe(kind, name)) && SafeMessage(t, Describe(kind, name))
    ensures SameView(DescribeStep(env, true, s, kind, name), DescribeStep(env, false, n, kind, name))
    ensures Linked(env, DescribeStep(env, true, s, kind, name), Follow(t, Describe(kind, name)))
  {
    hide ReturnsRows, Rewrite, MaxIndex, ShapeReply, RunText, Linked, PureAt;
    LinkedFields(env, s, t);
    var raw := DescribedText(s, kind, name);
    var prefix := DescribePrefix(kind, raw);
    var run := EngineRun(raw, Substitute(raw, []), ByDescribe);
    var told := Emit(s, prefix);
    LinkedFrame(env, s, told, t);
    if ReturnsRows(raw) {
      RunTextAgrees(env, told, Emit(n, prefix), t, run);
      RunTextLinks(env, told, t, run);
      var (o, ran) := RunText(env, true, told, run);
      LinkedFrame(env, ran.(failed := !o.Rows?), DescribeStep(env, true, s, kind, name), Touch(t, run.text));
    } else {
      LinkedFrame(env, s, DescribeStep(env, true, s, kind, name), t);
    }
  }

  lemma QueryView<D>(env: Env<D>, s: State<D>, n: State<D>, sql: string)
    requires SameView(s, n)
    ensures SameView(QueryStep(env, s, sql), QueryStep(env, n, sql))
  {
    hide QueryReply, Blank, TrackTx;
    if !Blank(sql) {
      var run := EngineRun(sql, sql, BySimpleQuery);
      var (o, s1) := EngineStep(env, s, run);
      var (o2, n1) := EngineStep(env, n, run);
      TrackTxView(s1, n1, sql, !o.Rows?);
    }
  }

  lemma QuerySimulates<D>(env: Env<D>, s: State<D>, n: State<D>, t: Track, sql: string)
    requires Linked(env, s, t) && SameView(s, n) && PureStep(env, s, Query(sql))
    ensures SameView(QueryStep(env, s, sql), QueryStep(env, n, sql))
    ensures Linked(env, QueryStep(env, s, sql), Follow(t, Query(sql)))
  {
    hide ReturnsRows, QueryStep, Blank, Linked, PureAt;
    QueryView(env, s, n, sql);
    QueryFrame(env, s, sql);
    var next := QueryStep(env, s, sql);
    if Blank(sql) {
      LinkedFrame(env, s, next, t);
    } else {
      LinkedAfterQuery(env, s, t, sql);
      LinkedFrame(env, s.(db := next.db), next, Follow(t, Query(sql)));
    }
  }

  lemma LinkedAfterQuery<D>(env: Env<D>, s: State<D>, t: Track, sql: string)
    requires PureAt(env, s.db, sql) && Linked(env, s, t)
    ensures Linked(env, s.(db := env.eval(s.db, sql).1), t.(stale := t.stale || !ReturnsRows(sql)))
  {
    hide ReturnsRows;
  }

  lemma PlainView<D>(env: Env<D>, s: State<D>, n: State<D>, msg: Frontend)
    requires SameView(s, n) && Plain(msg)
    ensures SameView(Step(env, true, s, msg), Step(env, false, n, msg))
  {
    hide Step, StmtsAfter, PortalsAfter, QueryOutput, DescribeOutput, ExecuteOutput;
    PlainFrame(env, true, s, msg);
    PlainFrame(env, false, n, msg);
  }

  lemma LinkedNames<D>(env: Env<D>, s: State<D>, t: Track, s': State<D>, t': Track)
    requires Linked(env, s, t)
    requires s' == s.(stmts := t'.stmts, portals := t'.portals, out := s'.out)
    requires t' == t.(stmts := t'.stmts, portals := t'.portals)
    ensures Linked(env, s', t')
  {
    hide ReturnsRows;
  }

  lemma LinkedAfterSync<D>(env: Env<D>, s: State<D>, t: Track)
    requires Linked(env, s, t)
    ensures Linked(env, SyncStep(s), t.(last := None, stale := false))
  {
    hide ReturnsRows;
  }

  lemma PlainSimulates<D>(env: Env<D>, s: State<D>, t: Track, msg: Frontend)
    requires Linked(env, s, t) && Plain(msg) && !(s.failed && Skippable(msg))
    ensures Linked(env, Step(env, true, s, msg), Follow(t, msg))
  {
    hide Step, ReturnsRows, TextOf, Linked, SyncStep, Output;
    PlainFrame(env, true, s, msg);
    LinkedFields(env, s, t);
    if msg.Sync? {
      LinkedAfterSync(env, s, t);
    } else {
      LinkedNames(env, s, t, Step(env, true, s, msg), Follow(t, msg));
    }
  }

  lemma StepSimulates<D>(env: Env<D>, s: State<D>, n: State<D>, t: Track, msg: Frontend)
    requires Linked(env, s, t) && SameView(s, n) && PureStep(env, s, msg)
    requires (s.failed && Skippable(msg)) || SafeMessage(t, msg)
    ensures SameView(Step(env, true, s, msg), Step(env, false, n, msg))
    ensures Linked(env, Step(env, true, s, msg), if s.failed && Skippable(msg) then t else Follow(t, msg))
  {
    if s.failed && Skippable(msg) {
      FailedSkips(env, true, s, msg);
      FailedSkips(env, false, n, msg);
    } else if Plain(msg) {
      PlainView(env, s, n, msg);
      PlainSimulates(env, s, t, msg);
    } else {
      hide QueryStep, DescribeStep, ExecuteStep, PureStep, Linked, Follow, SafeMessage;
      match msg
      case Query(sql) => QuerySimulates(env, s, n, t, sql);
      case Describe(kind, name) => DescribeSimulates(env, s, n, t, kind, name);
      case Execute(portal) => ExecuteSimulates(env, s, n, t, portal);
    }
  }

  lemma {:induction false} RunSimulates<D>(env: Env<D>, s: State<D>, n: State<D>, t: Track, msgs: seq<Frontend>)
    requires Linked(env, s, t) && SameView(s, n) && PureRun(env, s, msgs) && SafeRun(env, s, t, msgs)
    ensures AgreeFrom(env, s, n, msgs)
    decreases |msgs|
  {
    hide Step, Follow, PureStep, Linked, SafeMessage;
    if msgs != [] && !msgs[0].Terminate? {
      var msg := msgs[0];
      StepSimulates(env, s, n, t, msg);
      RunSimulates(env, Step(env, true, s, msg), Step(env, false, n, msg),
                   if s.failed && Skippable(msg) then t else Follow(t, msg), msgs[1..]);
    }
  }

  /** For every engine, failing or not: over a safe run in which the row-returning texts that ran were
      pure, the memo is invisible -- the same messages and the same database after every message. */
  lemma MemoInvisible<D>(env: Env<D>, db: D, msgs: seq<Frontend>)
    requires PureRun(env, Initial(db), msgs) && SafeRun(env, Initial(db), NEW_TRACK, msgs)
    ensures Agree(env, db, msgs)
  {
    RunSimulates(env, Initial(db), Initial(db), NEW_TRACK, msgs);
  }
}
