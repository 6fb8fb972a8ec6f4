/** The memo is invisible on the safe runs only: on every other run an engine that fails just where the
    given one does shows the difference. */
module PgMemoExact {
  import opened Basics
  import opened Results
  import opened SqlText
  import opened ScanParams
  import opened PgSession
  import opened PgRuns
  import opened PgMemo

  // ---------- engines that fail alike ----------

  predicate SameKind(o: Outcome, o': Outcome) {
    (o.Rows? <==> o'.Rows?) && (o.Failed? <==> o'.Failed?)
  }

  /** `twin` works on the database of `env` and a number beside it: it fails where `env` does and takes
      the database where `env` takes it. Its results and what it does to the number are its own. */
  ghost predicate Mirrors<D(!new)>(twin: Env<(D, nat)>, env: Env<D>) {
    forall d: D, n: nat, q: string ::
      SameKind(env.eval(d, q).0, twin.eval((d, n), q).0) && twin.eval((d, n), q).1.0 == env.eval(d, q).1
  }

  /** Two sessions over such engines that have gone the same way. */
  ghost predicate Lockstep<D>(s: State<D>, x: State<(D, nat)>) {
    && x.stmts == s.stmts && x.portals == s.portals && x.failed == s.failed
    && x.lastSQL == s.lastSQL && x.lastRes.Some? == s.lastRes.Some? && x.lastErr.Some? == s.lastErr.Some?
    && x.db.0 == s.db
  }

  lemma MirrorsAt<D(!new)>(env: Env<D>, twin: Env<(D, nat)>, x: State<(D, nat)>, q: string)
    requires Mirrors(twin, env)
    ensures SameKind(env.eval(x.db.0, q).0, twin.eval(x.db, q).0)
    ensures twin.eval(x.db, q).1.0 == env.eval(x.db.0, q).1
  {
    var d, n := x.db.0, x.db.1;
    assert x.db == (d, n);
    assert SameKind(env.eval(d, q).0, twin.eval((d, n), q).0);
  }

  lemma RunTextLockstep<D(!new)>(env: Env<D>, twin: Env<(D, nat)>, s: State<D>, x: State<(D, nat)>, run: EngineRun)
    requires Mirrors(twin, env) && Lockstep(s, x)
    ensures var (o, s1) := RunText(env, true, s, run);
            var (o', x1) := RunText(twin, true, x, run);
            (o.Rows? <==> o'.Rows?) && Lockstep(s1, x1)
  {
    MirrorsAt(env, twin, x, run.text);
    hide Mirrors;
  }

  lemma QueryLockstep<D(!new)>(env: Env<D>, twin: Env<(D, nat)>, s: State<D>, x: State<(D, nat)>, sql: string)
    requires Mirrors(twin, env) && Lockstep(s, x)
    ensures Lockstep(QueryStep(env, s, sql), QueryStep(twin, x, sql))
  {
    hide QueryStep, Blank;
    QueryFrame(env, s, sql);
    QueryFrame(twin, x, sql);
    MirrorsAt(env, twin, x, sql);
  }

  lemma LockstepFrame<D>(s: State<D>, x: State<(D, nat)>, s': State<D>, x': State<(D, nat)>)
    requires Lockstep(s, x)
    requires s' == s.(failed := s'.failed, inTx := s'.inTx, txFail := s'.txFail, out := s'.out, txlog := s'.txlog)
    requires x' == x.(failed := s'.failed, inTx := x'.inTx, txFail := x'.txFail, out := x'.out, txlog := x'.txlog)
    ensures Lockstep(s', x')
  {
  }

  lemma DescribeLockstep<D(!new)>(env: Env<D>, twin: Env<(D, nat)>, s: State<D>, x: State<(D, nat)>, kind: char, name: string)
    requires Mirrors(twin, env) && Lockstep(s, x)
    ensures Lockstep(DescribeStep(env, true, s, kind, name), DescribeStep(twin, true, x, kind, name))
  {
    hide ReturnsRows, Rewrite, DescribeStep, DescribePrefix, RunText, Mirrors;
    var raw := DescribedText(s, kind, name);
    var told, told' := Emit(s, DescribePrefix(kind, raw)), Emit(x, DescribePrefix(kind, raw));
    DescribeFrame(env, true, s, kind, name);
    DescribeFrame(twin, true, x, kind, name);
    LockstepFrame(s, x, told, told');
    var run := EngineRun(raw, Substitute(raw, []), ByDescribe);
    RunTextLockstep(env, twin, told, told', run);
    if ReturnsRows(raw) {
      LockstepFrame(RunText(env, true, told, run).1, RunText(twin, true, told', run).1,
                    DescribeStep(env, true, s, kind, name), DescribeStep(twin, true, x, kind, name));
    }
  }

  lemma ExecuteLockstep<D(!new)>(env: Env<D>, twin: Env<(D, nat)>, s: State<D>, x: State<(D, nat)>, portal: string)
    requires Mirrors(twin, env) && Lockstep(s, x)
    ensures Lockstep(ExecuteStep(env, true, s, portal), ExecuteStep(twin, true, x, portal))
  {
    hide Rewrite, ExecuteStep, RunText, Mirrors;
    var p := Lookup(s.portals, portal, NO_PORTAL);
    var run := EngineRun(p.sql, ExecuteText(p), ByExecute);
    ExecuteFrame(env, true, s, portal);
    ExecuteFrame(twin, true, x, portal);
    RunTextLockstep(env, twin, s, x, run);
    LockstepFrame(RunText(env, true, s, run).1, RunText(twin, true, x, run).1,
                  ExecuteStep(env, true, s, portal), ExecuteStep(twin, true, x, portal));
  }

  lemma PlainLockstep<D>(env: Env<D>, twin: Env<(D, nat)>, s: State<D>, x: State<(D, nat)>, msg: Frontend)
    requires Lockstep(s, x) && Plain(msg)
    ensures Lockstep(Step(env, true, s, msg), Step(twin, true, x, msg))
  {
    hide Step, StmtsAfter, PortalsAfter, Output, TxByte;
    PlainFrame(env, true, s, msg);
    PlainFrame(twin, true, x, msg);
  }

  lemma StepLockstep<D(!new)>(env: Env<D>, twin: Env<(D, nat)>, s: State<D>, x: State<(D, nat)>, msg: Frontend)
    requires Mirrors(twin, env) && Lockstep(s, x)
    ensures Lockstep(Step(env, true, s, msg), Step(twin, true, x, msg))
  {
    hide QueryStep, DescribeStep, ExecuteStep, Mirrors;
    if Plain(msg) {
      PlainLockstep(env, twin, s, x, msg);
    } else if s.failed && Skippable(msg) {
      FailedSkips(env, true, s, msg);
      FailedSkips(twin, true, x, msg);
    } else {
      match msg
      case Query(sql) => QueryLockstep(env, twin, s, x, sql);
      case Describe(kind, name) => DescribeLockstep(env, twin, s, x, kind, name);
      case Execute(portal) => ExecuteLockstep(env, twin, s, x, portal);
    }
  }

  /** Whether a run is safe, and whether it fails, does not tell such engines apart. */
  lemma {:induction false} SafeRunMirrored<D(!new)>(env: Env<D>, twin: Env<(D, nat)>, s: State<D>, x: State<(D, nat)>,
                                                    t: Track, msgs: seq<Frontend>)
    requires Mirrors(twin, env) && Lockstep(s, x)
    ensures SafeRun(env, s, t, msgs) <==> SafeRun(twin, x, t, msgs)
    ensures Unfailed(env, s, msgs) <==> Unfailed(twin, x, msgs)
    decreases |msgs|
  {
    hide Step, Follow, SafeMessage, Mirrors;
    if msgs != [] && !msgs[0].Terminate? {
      var msg := msgs[0];
      StepLockstep(env, twin, s, x, msg);
      SafeRunMirrored(env, twin, Step(env, true, s, msg), Step(twin, true, x, msg),
                      if s.failed && Skippable(msg) then t else Follow(t, msg), msgs[1..]);
      // An unfailed run follows every message.
      SafeRunMirrored(env, twin, Step(env, true, s, msg), Step(twin, true, x, msg), Follow(t, msg), msgs[1..]);
    }
  }

  // ---------- the engine that shows the difference ----------

  function Tally(n: nat): string {
    seq(n, _ => 'x')
  }

  function CounterResult(n: nat): QueryResult {
    QueryResult([Column(Tally(n), "")], [[Text(Tally(n))]])
  }

  /** The engine `env`, with every result replaced by one that shows the number in its column's name
      and in its row, and with every text outside the row-returning list adding one to it. */
  function Shadow<D>(env: Env<D>): Env<(D, nat)> {
    Env((db, q) => ShadowEval(env, db, q), env.codec)
  }

  function ShadowEval<D>(env: Env<D>, db: (D, nat), q: string): (Outcome, (D, nat)) {
    var (o, d) := env.eval(db.0, q);
    (if o.Rows? then Rows(CounterResult(db.1)) else o, (d, if ReturnsRows(q) then db.1 else db.1 + 1))
  }

  lemma ShadowMirrors<D(!new)>(env: Env<D>)
    ensures Mirrors(Shadow(env), env)
  {
    hide ReturnsRows, CounterResult;
  }

  lemma {:induction false} ShadowPure<D(!new)>(env: Env<D>, s: State<D>, x: State<(D, nat)>, msgs: seq<Frontend>)
    requires Lockstep(s, x) && PureRun(env, s, msgs)
    ensures PureRun(Shadow(env), x, msgs)
    decreases |msgs|
  {
    hide Step, Mirrors, PureStep, Shadow;
    if msgs != [] && !msgs[0].Terminate? {
      ShadowMirrors(env);
      StepLockstep(env, Shadow(env), s, x, msgs[0]);
      ShadowPureStep(env, s, x, msgs[0]);
      ShadowPure(env, Step(env, true, s, msgs[0]), Step(Shadow(env), true, x, msgs[0]), msgs[1..]);
    }
  }

  lemma ShadowPureStep<D>(env: Env<D>, s: State<D>, x: State<(D, nat)>, msg: Frontend)
    requires Lockstep(s, x) && PureStep(env, s, msg)
    ensures PureStep(Shadow(env), x, msg)
  {
    hide ReturnsRows, Rewrite, Blank, CounterResult;
    assert RunOf(true, x, msg) == RunOf(true, s, msg);
  }

  /** While the session is not failed, the memo of a row-returning text holds an earlier number; an
      older one if the track says stale. */
  ghost predicate CounterLinked<D>(s: State<(D, nat)>, t: Track) {
    !s.failed && s.lastRes.Some? && ReturnsRows(s.lastSQL) ==>
      exists n: nat :: s.lastRes.value == CounterResult(n) && n <= s.db.1 && (t.stale ==> n < s.db.1)
  }

  lemma CounterRun<D>(env: Env<D>, s: State<(D, nat)>, t: Track, run: EngineRun)
    requires CounterLinked(s, t) && !s.failed
    requires t.last == (if s.lastRes.Some? then Some(s.lastSQL) else None)
    ensures var (o, s1) := RunText(Shadow(env), true, s, run);
            CounterLinked(s1.(failed := !o.Rows?), Touch(t, run.text))
  {
    hide ReturnsRows, CounterResult;
    var (o, s1) := RunText(Shadow(env), true, s, run);
    if !MemoHit(s, run.text) && o.Rows? {
      assert s1.lastRes == Some(CounterResult(s.db.1));
    }
  }

  lemma CounterFrame<D>(s: State<(D, nat)>, s': State<(D, nat)>, t: Track, t': Track)
    requires CounterLinked(s, t) && s'.lastRes == s.lastRes && s'.lastSQL == s.lastSQL && s'.db == s.db
    requires s'.failed == s.failed && t'.stale == t.stale
    ensures CounterLinked(s', t')
  {
    hide ReturnsRows, CounterResult;
  }

  lemma CounterQuery<D>(env: Env<D>, s: State<(D, nat)>, t: Track, sql: string)
    requires CounterLinked(s, t)
    ensures CounterLinked(QueryStep(Shadow(env), s, sql), Follow(t, Query(sql)))
  {
    hide ReturnsRows, QueryStep, Blank, CounterResult;
    QueryFrame(Shadow(env), s, sql);
    var s1 := QueryStep(Shadow(env), s, sql);
    assert s1.db.1 >= s.db.1 && (!Blank(sql) && !ReturnsRows(sql) ==> s1.db.1 > s.db.1);
    if !s.failed && s.lastRes.Some? && ReturnsRows(s.lastSQL) {
      var n: nat :| s.lastRes.value == CounterResult(n) && n <= s.db.1 && (t.stale ==> n < s.db.1);
      assert s1.lastRes.value == CounterResult(n) && n <= s1.db.1;
    }
  }

  lemma CounterDescribe<D>(env: Env<D>, s: State<(D, nat)>, t: Track, kind: char, name: string)
    requires Linked(Shadow(env), s, t) && CounterLinked(s, t) && !s.failed
    ensures CounterLinked(DescribeStep(Shadow(env), true, s, kind, name), Follow(t, Describe(kind, name)))
  {
    hide DescribeStep, ReturnsRows, Rewrite, RunText, Shadow, CounterLinked, DescribePrefix;
    var raw := DescribedText(s, kind, name);
    var told := Emit(s, DescribePrefix(kind, raw));
    var run := EngineRun(raw, Substitute(raw, []), ByDescribe);
    DescribeFrame(Shadow(env), true, s, kind, name);
    CounterFrame(s, told, t, t);
    CounterRun(env, told, t, run);
    var next, track := DescribeStep(Shadow(env), true, s, kind, name), Follow(t, Describe(kind, name));
    if ReturnsRows(raw) {
      var (o, ran) := RunText(Shadow(env), true, told, run);
      CounterFrame(ran.(failed := !o.Rows?), next, Touch(t, run.text), track);
    } else {
      CounterFrame(s, next, t, track);
    }
  }

  lemma CounterExecute<D>(env: Env<D>, s: State<(D, nat)>, t: Track, portal: string)
    requires Linked(Shadow(env), s, t) && CounterLinked(s, t) && !s.failed
    ensures CounterLinked(ExecuteStep(Shadow(env), true, s, portal), Follow(t, Execute(portal)))
  {
    hide ExecuteStep, ReturnsRows, Rewrite, RunText, Shadow, CounterLinked;
    var p := Lookup(s.portals, portal, NO_PORTAL);
    var run := EngineRun(p.sql, ExecuteText(p), ByExecute);
    ExecuteFrame(Shadow(env), true, s, portal);
    CounterRun(env, s, t, run);
    var (o, ran) := RunText(Shadow(env), true, s, run);
    CounterFrame(ran.(failed := !o.Rows?), ExecuteStep(Shadow(env), true, s, portal), Touch(t, run.text),
                 Follow(t, Execute(portal)));
  }

  lemma CounterPlain<D>(env: Env<D>, s: State<(D, nat)>, t: Track, msg: Frontend)
    requires CounterLinked(s, t) && Plain(msg)
    ensures CounterLinked(Step(Shadow(env), true, s, msg), if s.failed && Skippable(msg) then t else Follow(t, msg))
  {
    hide Step, ReturnsRows, CounterResult, Shadow, TextOf, TxByte, Output, StmtsAfter, PortalsAfter;
    PlainFrame(Shadow(env), true, s, msg);
    var next := Step(Shadow(env), true, s, msg);
    if !msg.Sync? {
      CounterFrame(s, next, t, if s.failed && Skippable(msg) then t else Follow(t, msg));
    }
  }

  lemma CounterStep<D>(env: Env<D>, s: State<(D, nat)>, t: Track, msg: Frontend)
    requires Linked(Shadow(env), s, t) && CounterLinked(s, t)
    ensures CounterLinked(Step(Shadow(env), true, s, msg), if s.failed && Skippable(msg) then t else Follow(t, msg))
  {
    hide QueryStep, DescribeStep, ExecuteStep, CounterLinked, Linked, Follow, Shadow;
    if Plain(msg) {
      CounterPlain(env, s, t, msg);
    } else if s.failed && Skippable(msg) {
      FailedSkips(Shadow(env), true, s, msg);
    } else {
      match msg
      case Query(sql) => CounterQuery(env, s, t, sql);
      case Describe(kind, name) => CounterDescribe(env, s, t, kind, name);
      case Execute(portal) => CounterExecute(env, s, t, portal);
    }
  }

  // ---------- the first unsafe message shows ----------

  lemma CounterRows(codec: Codec, n: nat, formats: seq<int>)
    ensures |DataRows(codec, CounterResult(n), formats)| == 1
    ensures DataRows(codec, CounterResult(n), formats)[0] == DataRow([Some(Tally(n))])
    ensures Fields(CounterResult(n), formats)[0].name == Tally(n)
  {
    EmptyTypeName();
    var res := CounterResult(n);
    assert RowValues(codec, res, res.rows[0], formats) == [Some(Tally(n))];
  }

  lemma EmptyTypeName()
    ensures TypeOf("") == Varchar
  {
    assert Upper("") == "";
    assert Until("", c => c == '(') == "";
  }

  lemma UnsafeMessageShows<D>(env: Env<D>, s: State<(D, nat)>, n: State<(D, nat)>, t: Track, msg: Frontend)
    requires Linked(Shadow(env), s, t) && CounterLinked(s, t) && SameView(s, n) && !s.failed
    requires !SafeMessage(t, msg)
    ensures var twin := Shadow(env);
            !SameObservation(Step(twin, true, s, msg), Step(twin, false, n, msg))
  {
    hide Step, ReturnsRows, Rewrite, Output, Blank, CounterResult;
    var twin := Shadow(env);
    var q := t.last.value;
    StepRan(twin, true, s, msg);
    StepRan(twin, false, n, msg);
    if ReturnsRows(q) {
      OutputOf(twin, true, s, msg);
      OutputOf(twin, false, n, msg);
      var k: nat :| s.lastRes.value == CounterResult(k) && k < s.db.1;
      StaleReplyDiffers(env, s, n, msg, q, k);
      var plain, memoized := Output(twin, false, n, msg), Output(twin, true, s, msg);
      assert (s.out + memoized)[|s.out|..] == memoized;
      assert (n.out + plain)[|n.out|..] == plain;
    }
  }

  lemma StaleReplyDiffers<D>(env: Env<D>, s: State<(D, nat)>, n: State<(D, nat)>, msg: Frontend, q: string, k: nat)
    requires SameView(s, n) && !s.failed && s.lastErr.None?
    requires s.lastRes == Some(CounterResult(k)) && s.lastSQL == q && k < s.db.1
    requires TextOf(Track(s.stmts, s.portals, None, false), msg) == Some(q)
    ensures Output(Shadow(env), true, s, msg) != Output(Shadow(env), false, n, msg)
  {
    hide ReturnsRows, Rewrite, Notices, CommandTag, Fields, DataRows, MaxIndex;
    var twin := Shadow(env);
    assert |Tally(k)| != |Tally(s.db.1)|;
    match msg
    case Execute(portal) =>
      var p := Lookup(s.portals, portal, NO_PORTAL);
      CounterRows(env.codec, k, p.formats);
      CounterRows(env.codec, s.db.1, p.formats);
      assert Output(twin, true, s, msg)[0] == DataRow([Some(Tally(k))]);
      assert Output(twin, false, n, msg)[0] ==
             if env.eval(s.db.0, q).0.Rows? then DataRow([Some(Tally(s.db.1))]) else ErrorResponse(env.eval(s.db.0, q).0.err);
    case Describe(kind, name) =>
      var formats := DescribedFormats(s, kind, name);
      CounterRows(env.codec, k, formats);
      CounterRows(env.codec, s.db.1, formats);
      var i := |DescribePrefix(kind, DescribedText(s, kind, name))|;
      assert Output(twin, true, s, msg)[i] == RowDescription(Fields(CounterResult(k), formats));
      assert Output(twin, false, n, msg)[i] ==
             if env.eval(s.db.0, q).0.Rows? then RowDescription(Fields(CounterResult(s.db.1), formats))
             else ErrorResponse(env.eval(s.db.0, q).0.err);
  }

  /** On every unsafe run of the shadow engine the memo shows. */
  lemma {:induction false} UnsafeRunShows<D(!new)>(env: Env<D>, s: State<(D, nat)>, n: State<(D, nat)>, t: Track,
                                                   msgs: seq<Frontend>)
    requires Linked(Shadow(env), s, t) && CounterLinked(s, t) && SameView(s, n)
    requires PureRun(Shadow(env), s, msgs) && !SafeRun(Shadow(env), s, t, msgs)
    ensures !AgreeFrom(Shadow(env), s, n, msgs)
    decreases |msgs|
  {
    hide Step, Follow, SafeMessage, Linked, CounterLinked, SameView, Shadow, PureStep;
    var twin, msg := Shadow(env), msgs[0];
    var skipped := s.failed && Skippable(msg);
    if skipped || SafeMessage(t, msg) {
      StepSimulates(twin, s, n, t, msg);
      CounterStep(env, s, t, msg);
      UnsafeRunShows(env, Step(twin, true, s, msg), Step(twin, false, n, msg), if skipped then t else Follow(t, msg),
                     msgs[1..]);
    } else {
      UnsafeRuns(t, msg);
      UnsafeMessageShows(env, s, n, t, msg);
    }
  }

  /** Only a Describe or an Execute can be unsafe. */
  lemma UnsafeRuns(t: Track, msg: Frontend)
    requires !SafeMessage(t, msg)
    ensures Skippable(msg)
  {
    hide ReturnsRows;
  }

  /** For every engine and every run whose row-returning texts were pure: the run is safe exactly if the
      memo is invisible under every engine that fails where this one fails and is as pure on this run. */
  lemma MemoInvisibleIffSafeRun<D(!new)>(env: Env<D>, db: D, msgs: seq<Frontend>)
    requires PureRun(env, Initial(db), msgs)
    ensures SafeRun(env, Initial(db), NEW_TRACK, msgs) <==>
            forall twin: Env<(D, nat)> :: Mirrors(twin, env) && PureRun(twin, Initial((db, 0)), msgs) ==>
              Agree(twin, (db, 0), msgs)
  {
    var s, x := Initial<D>(db), Initial<(D, nat)>((db, 0));
    if SafeRun(env, s, NEW_TRACK, msgs) {
      forall twin: Env<(D, nat)> | Mirrors(twin, env) && PureRun(twin, x, msgs) ensures Agree(twin, (db, 0), msgs) {
        SafeRunMirrored(env, twin, s, x, NEW_TRACK, msgs);
        MemoInvisible(twin, (db, 0), msgs);
      }
    } else {
      ShadowMirrors(env);
      ShadowPure(env, s, x, msgs);
      SafeRunMirrored(env, Shadow(env), s, x, NEW_TRACK, msgs);
      UnsafeRunShows(env, x, x, NEW_TRACK, msgs);
      assert !Agree(Shadow(env), (db, 0), msgs);
    }
  }

  // ---------- on runs that do not fail, the client can tell ----------

  lemma {:induction false} SafeTraceRuns<D>(env: Env<D>, s: State<D>, t: Track, msgs: seq<Frontend>)
    requires Unfailed(env, s, msgs)
    ensures SafeTrace(t, msgs) <==> SafeRun(env, s, t, msgs)
    decreases |msgs|
  {
    hide Step, Follow, SafeMessage;
    if msgs != [] && !msgs[0].Terminate? {
      SafeTraceRuns(env, Step(env, true, s, msgs[0]), Follow(t, msgs[0]), msgs[1..]);
    }
  }

  /** An engine that answers nothing and never fails. */
  function Idle<D>(codec: Codec): Env<D> {
    Env((db, q) => (Rows(QueryResult([], [])), db), codec)
  }

  lemma IdleStep<D>(codec: Codec, s: State<D>, msg: Frontend)
    requires ErrorsStop(s) && !s.failed
    ensures PureStep(Idle(codec), s, msg) && !Step(Idle(codec), true, s, msg).failed
  {
    hide QueryStep, DescribeStep, ExecuteStep, ReturnsRows, Rewrite, Blank, MaxIndex;
    match msg
    case Query(sql) => QueryFrame(Idle(codec), s, sql);
    case Describe(kind, name) => DescribeFrame(Idle(codec), true, s, kind, name);
    case Execute(portal) => ExecuteFrame(Idle(codec), true, s, portal);
    case _ =>
  }

  lemma {:induction false} IdleRun<D>(codec: Codec, s: State<D>, msgs: seq<Frontend>)
    requires ErrorsStop(s) && !s.failed
    ensures PureRun(Idle(codec), s, msgs) && Unfailed(Idle(codec), s, msgs)
    decreases |msgs|
  {
    hide Step, Idle, PureStep;
    if msgs != [] && !msgs[0].Terminate? {
      IdleStep(codec, s, msgs[0]);
      StepErrorsStop(Idle(codec), true, s, msgs[0]);
      IdleRun(codec, Step(Idle(codec), true, s, msgs[0]), msgs[1..]);
    }
  }

  /** Over runs that do not fail the client can check its own messages: the memo is invisible to every
      engine whose row-returning texts were pure in the run exactly if no text outside the
      row-returning list is run twice in a row within a Sync segment, and none is sent as a simple query
      between a Describe or Execute and a repetition of its text. */
  lemma MemoInvisibleIffSafe<D(!new)>(codec: Codec, db: D, msgs: seq<Frontend>)
    ensures SafeTrace(NEW_TRACK, msgs) <==>
            forall env: Env<(D, nat)> ::
              PureRun(env, Initial((db, 0)), msgs) && Unfailed(env, Initial((db, 0)), msgs) ==> Agree(env, (db, 0), msgs)
  {
    var s, x := Initial<D>(db), Initial<(D, nat)>((db, 0));
    if SafeTrace(NEW_TRACK, msgs) {
      forall env: Env<(D, nat)> | PureRun(env, x, msgs) && Unfailed(env, x, msgs) ensures Agree(env, (db, 0), msgs) {
        SafeTraceRuns(env, x, NEW_TRACK, msgs);
        MemoInvisible(env, (db, 0), msgs);
      }
    } else {
      var env := Idle<D>(codec);
      IdleRun(codec, s, msgs);
      ShadowMirrors(env);
      ShadowPure(env, s, x, msgs);
      SafeRunMirrored(env, Shadow(env), s, x, NEW_TRACK, msgs);
      SafeTraceRuns(env, s, NEW_TRACK, msgs);
      UnsafeRunShows(env, x, x, NEW_TRACK, msgs);
      assert !Agree(Shadow(env), (db, 0), msgs);
    }
  }
}
