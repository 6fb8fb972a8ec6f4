/** Describe and the Execute of the same portal: how often the engine runs, and whether the rows sent are
    the rows announced. */
module PgDescribe {
  import opened Basics
  import opened Results
  import opened PgWire
  import opened SqlText
  import opened ScanParams
  import opened PgSession
  import opened PgRuns
  import SqlLexer

  // ---------- what Describe leaves behind ----------

  function ProbeText(p: Portal): string {
    Substitute(p.sql, [])
  }

  /** The NULL probe, not in the memo, fails on the engine. */
  predicate ProbeFails<D>(env: Env<D>, s: State<D>, p: Portal) {
    !MemoHit(s, ProbeText(p)) && !env.eval(s.db, ProbeText(p)).0.Rows?
  }

  predicate Remembers<D>(t: State<D>, text: string) {
    MemoHit(t, text) && t.lastErr.None?
  }

  /** The state after describing a row-returning text, from every unfailed state a session reaches. */
  lemma DescribeRemembers<D>(env: Env<D>, s: State<D>, kind: char, name: string)
    requires !s.failed && ErrorsStop(s)
    ensures var raw, t := DescribedText(s, kind, name), Step(env, true, s, Describe(kind, name));
            var p := Portal(raw, [], []);
            && t.portals == s.portals
            && (!ReturnsRows(raw) ==> t == s.(out := t.out))
            && (ReturnsRows(raw) ==> t.failed == ProbeFails(env, s, p))
            && (ReturnsRows(raw) && !t.failed ==>
                  && Remembers(t, ProbeText(p))
                  && t.lastRes == if MemoHit(s, ProbeText(p)) then s.lastRes else Some(env.eval(s.db, ProbeText(p)).0.res))
  {
    hide ShapeReply, ReturnsRows, Rewrite, MaxIndex;
  }

  lemma DescribeShows<D>(env: Env<D>, s: State<D>, kind: char, name: string)
    requires !s.failed && ErrorsStop(s)
    requires var raw := DescribedText(s, kind, name); ReturnsRows(raw) && !ProbeFails(env, s, Portal(raw, [], []))
    ensures var t := Step(env, true, s, Describe(kind, name));
            t.lastRes.Some? &&
            Output(env, true, s, Describe(kind, name)) ==
            DescribePrefix(kind, DescribedText(s, kind, name))
            + [ShapeReply(Rows(t.lastRes.value), DescribedFormats(s, kind, name))]
  {
    hide ShapeReply, ReturnsRows, Rewrite, MaxIndex;
  }

  /** What an Execute sends from a state that remembers the probe. */
  lemma ExecuteShows<D>(env: Env<D>, t: State<D>, portal: string)
    requires !t.failed && Remembers(t, ProbeText(Lookup(t.portals, portal, NO_PORTAL)))
    ensures var p := Lookup(t.portals, portal, NO_PORTAL);
            Output(env, true, t, Execute(portal)) ==
            ExecuteReply(env.codec, p, if ExecuteText(p) == ProbeText(p) then Rows(t.lastRes.value)
                                       else env.eval(t.db, ExecuteText(p)).0)
  {
    hide ExecuteReply, Rewrite;
  }

  // ---------- how often the engine runs ----------

  /** A Describe and the Execute of the same text, from every unfailed state a session reaches: the
      probe runs unless it is remembered, and the bound text runs again exactly when the probe did not
      fail and some placeholder has a value. */
  lemma DescribeExecuteRuns<D>(env: Env<D>, s: State<D>, kind: char, name: string, portal: string)
    requires !s.failed && ErrorsStop(s)
    requires DescribedText(s, kind, name) == Lookup(s.portals, portal, NO_PORTAL).sql
    ensures var p := Lookup(s.portals, portal, NO_PORTAL);
            var described := Step(env, true, s, Describe(kind, name));
            var executed := Step(env, true, described, Execute(portal));
            |executed.runs| - |s.runs| ==
            if !ReturnsRows(p.sql) then (if MemoHit(s, ExecuteText(p)) then 0 else 1)
            else (if MemoHit(s, ProbeText(p)) then 0 else 1) +
                 (if !ProbeFails(env, s, p) && AnyBound(p.sql, Outside, p.params) then 1 else 0)
  {
    hide Step, ReturnsRows, Rewrite, AnyBound;
    var p := Lookup(s.portals, portal, NO_PORTAL);
    var described := Step(env, true, s, Describe(kind, name));
    SameTextAsProbe(p.sql, p.params);
    StepRan(env, true, s, Describe(kind, name));
    DescribeRemembers(env, s, kind, name);
    if described.failed {
      FailedSkips(env, true, described, Execute(portal));
    } else {
      StepRan(env, true, described, Execute(portal));
    }
  }

  /** At the start of a segment the pair runs the engine once -- as `describe` promises -- exactly when
      the text is not probed, or the engine refuses the probe, or no placeholder has a value. */
  lemma PairRunsOnceIff<D>(env: Env<D>, s: State<D>, kind: char, name: string, portal: string)
    requires !s.failed && ErrorsStop(s) && s.lastRes.None?
    requires DescribedText(s, kind, name) == Lookup(s.portals, portal, NO_PORTAL).sql
    ensures var p := Lookup(s.portals, portal, NO_PORTAL);
            var executed := Step(env, true, Step(env, true, s, Describe(kind, name)), Execute(portal));
            var once := !ReturnsRows(p.sql) || !env.eval(s.db, ProbeText(p)).0.Rows? || !AnyBound(p.sql, Outside, p.params);
            |executed.runs| == |s.runs| + if once then 1 else 2
  {
    hide Step, ReturnsRows, Rewrite, AnyBound;
    DescribeExecuteRuns(env, s, kind, name, portal);
  }

  const SELECT_ONE := "SELECT $1"

  lemma {:induction false} PlainPrefix(t: string, rest: string, r: nat -> string)
    requires forall i :: 0 <= i < |t| ==> !IsQuote(t[i]) && t[i] != '$'
    ensures Rewrite(t + rest, Outside, r) == t + Rewrite(rest, Outside, r)
  {
    if t == [] {
      assert t + rest == rest;
    } else {
      PlainPrefix(t[1..], rest, r);
      assert (t + rest)[1..] == t[1..] + rest;
      assert [t[0]] + (t[1..] + Rewrite(rest, Outside, r)) == t + Rewrite(rest, Outside, r);
    }
  }

  lemma SubstituteSelect(ps: Params)
    ensures Substitute(SELECT_ONE, ps) == "SELECT " + ParamText(ps, 1)
  {
    hide Rewrite, ParamIndex;
    var r := Replacer(ps);
    PlainPrefix("SELECT ", "$1", r);
    assert "SELECT " + "$1" == SELECT_ONE;
    SqlLexer.OneDigit('1');
    ParamRewrite(['1'], [], r);
    assert ['$'] + ['1'] + [] == "$1";
    SqlLexer.RewriteEmpty(Outside, r);
    assert ParamText(ps, 1) + [] == ParamText(ps, 1);
  }

  lemma {:induction false} UntilStop(a: string, c: char, rest: string, stop: char -> bool)
    requires stop(c) && forall i :: 0 <= i < |a| ==> !stop(a[i])
    ensures Until(a + [c] + rest, stop) == a
  {
    if a == [] {
      assert a + [c] + rest == [c] + rest;
    } else {
      UntilStop(a[1..], c, rest, stop);
      assert (a + [c] + rest)[1..] == a[1..] + [c] + rest;
    }
  }

  lemma SelectReturnsRows()
    ensures ReturnsRows(SELECT_ONE)
  {
    assert TrimLeft(SELECT_ONE, IsSpace) == SELECT_ONE && TrimRight(SELECT_ONE, IsSpace) == SELECT_ONE;
    UntilStop("SELECT", ' ', "$1", EndsKeyword);
    assert "SELECT" + [' '] + "$1" == SELECT_ONE;
    assert Upper("SELECT") == "SELECT";
  }

  /** Prepared, bound to one value, described and executed on a fresh session, `SELECT $1` runs twice on
      every engine that answers `SELECT NULL`. */
  lemma BoundSelectRunsTwice<D>(env: Env<D>, db: D, v: string)
    requires env.eval(db, "SELECT NULL").0.Rows?
    ensures var msgs := [Parse("", SELECT_ONE), Bind("", "", [Some(v)], []), Describe('P', ""), Execute("")];
            |Serve(env, true, Initial(db), msgs).runs| == 2
  {
    hide DescribeStep, ExecuteStep, ReturnsRows, Rewrite, AnyBound;
    var s := Initial(db);
    var s1 := Step(env, true, s, Parse("", SELECT_ONE));
    var s2 := Step(env, true, s1, Bind("", "", [Some(v)], []));
    var p := s2.portals[""];
    assert p == Portal(SELECT_ONE, [Some(v)], []);
    SelectReturnsRows();
    SubstituteSelect([]);
    SubstituteSelect([Some(v)]);
    SameTextAsProbe(SELECT_ONE, [Some(v)]);
    assert Substitute(SELECT_ONE, [Some(v)])[7] == '\'' && Substitute(SELECT_ONE, [])[7] == 'N';
    assert Substitute(SELECT_ONE, []) == "SELECT NULL";
    PairRunsOnceIff(env, s2, 'P', "", "");
    assert s2.runs == [] && s2.db == db;
    hide Step;
    ServeFour(env, s, Parse("", SELECT_ONE), Bind("", "", [Some(v)], []), Describe('P', ""), Execute(""));
  }

  // ---------- whether the rows sent are the rows announced ----------

  /** The message is the row, each value in the type and format of its field. */
  predicate RowMatches(codec: Codec, fields: seq<FieldDescription>, row: seq<Value>, m: Backend) {
    && m.DataRow?
    && |m.values| == |row| == |fields|
    && forall i :: 0 <= i < |fields| ==> m.values[i] == EncodeValue(codec, row[i], fields[i].oid, fields[i].format)
  }

  /** The DataRows among `ms` come first and are the rows of the result, each as `fields` announce it. */
  predicate RowsMatch(codec: Codec, fields: seq<FieldDescription>, res: QueryResult, ms: seq<Backend>) {
    && |res.rows| <= |ms|
    && (forall k :: 0 <= k < |ms| ==> (ms[k].DataRow? <==> k < |res.rows|))
    && (forall k :: 0 <= k < |res.rows| ==> RowMatches(codec, fields, res.rows[k], ms[k]))
  }

  /** As many columns, of the same wire types. */
  predicate SameShape(a: QueryResult, b: QueryResult) {
    |a.cols| == |b.cols| && forall i :: 0 <= i < |a.cols| ==> Oid(TypeOf(a.cols[i].typ)) == Oid(TypeOf(b.cols[i].typ))
  }

  predicate SameTypes(a: seq<FieldDescription>, b: seq<FieldDescription>) {
    |a| == |b| && forall i :: 0 <= i < |a| ==> a[i].oid == b[i].oid && a[i].format == b[i].format
  }

  lemma SameShapeIsSameTypes(a: QueryResult, b: QueryResult, formats: seq<int>)
    ensures SameShape(a, b) <==> SameTypes(Fields(a, formats), Fields(b, formats))
  {
    hide TypeOf, Oid;
    if SameTypes(Fields(a, formats), Fields(b, formats)) {
      forall i | 0 <= i < |a.cols| ensures Oid(TypeOf(a.cols[i].typ)) == Oid(TypeOf(b.cols[i].typ)) {
        assert Fields(a, formats)[i].oid == Fields(b, formats)[i].oid;
      }
    }
  }

  /** Rows of `res` against the description of `told`. */
  lemma ShapedRowsMatch(codec: Codec, p: Portal, told: QueryResult, res: QueryResult)
    requires Rectangular(res)
    ensures var ms, fields := ExecuteReply(codec, p, Rows(res)), Fields(told, p.formats);
            && (SameShape(told, res) ==> RowsMatch(codec, fields, res, ms))
            && (|told.cols| != |res.cols| && res.rows != [] ==> !RowsMatch(codec, fields, res, ms))
  {
    hide Notices, CommandTag, EncodeValue, TypeOf, Oid, ResolveFormat;
    NoticesAreNotices(codec, res);
    var ms, fields := ExecuteReply(codec, p, Rows(res)), Fields(told, p.formats);
    var rows := DataRows(codec, res, p.formats);
    var rest := Notices(codec, res) + [CommandComplete(CommandTag(p.sql, |res.rows|))];
    assert ms == rows + rest;
    forall k | 0 <= k < |ms| ensures ms[k].DataRow? <==> k < |res.rows| {
      assert ms[k] == if k < |rows| then rows[k] else rest[k - |rows|];
    }
    if res.rows != [] {
      assert ms[0] == rows[0];
    }
  }

  /** A portal described and then executed, from every unfailed state a session reaches. The description
      is that of the result the Describe left in the memo. Without a bound value every DataRow has its
      width, types and formats. With one the rows come from another run: they have them too if that
      run's result has as many columns of the same wire types, and if it has another number of columns
      no row does. */
  lemma DescribedRowsMatch<D>(env: Env<D>, s: State<D>, portal: string, kind: char)
    requires !s.failed && ErrorsStop(s) && kind != 'S'
    requires var p := Lookup(s.portals, portal, NO_PORTAL); ReturnsRows(p.sql) && !ProbeFails(env, s, p)
    ensures var p := Lookup(s.portals, portal, NO_PORTAL);
            var described := Step(env, true, s, Describe(kind, portal));
            && !described.failed && Remembers(described, ProbeText(p))
            && var told, shape := described.lastRes.value, Output(env, true, s, Describe(kind, portal));
               var ms := Output(env, true, described, Execute(portal));
               var fields := Fields(told, p.formats);
               var text, bound := ExecuteText(p), AnyBound(p.sql, Outside, p.params);
               && shape == [if |told.cols| == 0 then NoData else RowDescription(fields)]
               && (!bound && Rectangular(told) ==> RowsMatch(env.codec, fields, told, ms))
               && (bound ==>
                     match env.eval(described.db, text).0
                     case Rows(res) =>
                       Rectangular(res) ==>
                         && (SameShape(told, res) ==> RowsMatch(env.codec, fields, res, ms))
                         && (|told.cols| != |res.cols| && res.rows != [] ==> !RowsMatch(env.codec, fields, res, ms))
                     case o => ms == [ErrorResponse(o.err)])
  {
    hide ReturnsRows, Rewrite, AnyBound, Step, Output, Notices, DataRows, Fields, RowsMatch;
    var p := Lookup(s.portals, portal, NO_PORTAL);
    SameTextAsProbe(p.sql, p.params);
    DescribeRemembers(env, s, kind, portal);
    DescribeShows(env, s, kind, portal);
    var described := Step(env, true, s, Describe(kind, portal));
    ExecuteShows(env, described, portal);
    var told, o := described.lastRes.value, env.eval(described.db, ExecuteText(p)).0;
    if Rectangular(told) { ShapedRowsMatch(env.codec, p, told, told); }
    if o.Rows? && Rectangular(o.res) { ShapedRowsMatch(env.codec, p, told, o.res); }
    assert SameShape(told, told);
  }

  // An engine that takes a bare NULL for an integer and any other text for a string.
  const NULL_RESULT := QueryResult([Column("c", "INTEGER")], [[Null]])
  const TEXT_RESULT := QueryResult([Column("c", "VARCHAR")], [[Text("abc")]])

  function LooseEval(db: int, q: string): (Outcome, int) {
    (Rows(if q == "SELECT NULL" then NULL_RESULT else TEXT_RESULT), db)
  }

  const BOUND_SELECT := Portal(SELECT_ONE, [Some("abc")], [1])

  lemma IntegerName()
    ensures TypeOf("INTEGER") == Integer
  {
    assert Upper("INTEGER") == "INTEGER";
    UntilAll("INTEGER", c => c == '(');
  }

  /** No type name told apart begins with a V. */
  lemma OtherName(name: string)
    requires var base := Until(Upper(name), c => c == '('); base != "" && base[0] == 'V'
    ensures TypeOf(name) == Varchar
  {
    hide Until, Upper;
  }

  lemma VarcharName()
    ensures TypeOf("VARCHAR") == Varchar
  {
    hide TypeOf;
    assert Upper("VARCHAR")[0] == 'V';
    assert Until(Upper("VARCHAR"), c => c == '(')[0] == 'V';
    OtherName("VARCHAR");
  }

  lemma {:induction false} UntilAll(s: string, stop: char -> bool)
    requires forall i :: 0 <= i < |s| ==> !stop(s[i])
    ensures Until(s, stop) == s
  {
    if s != [] { UntilAll(s[1..], stop); }
  }

  lemma BoundSelectTexts()
    ensures ReturnsRows(SELECT_ONE) && ProbeText(BOUND_SELECT) == "SELECT NULL" != ExecuteText(BOUND_SELECT)
  {
    hide ReturnsRows, Rewrite;
    SelectReturnsRows();
    SubstituteSelect([]);
    SubstituteSelect([Some("abc")]);
    assert ExecuteText(BOUND_SELECT)[7] == '\'';
  }

  /** Four bytes are announced, three are sent. */
  lemma LooseRows(codec: Codec)
    ensures Fields(NULL_RESULT, [1]) == [FieldDescription("c", 23, 1)]
    ensures |DataRows(codec, TEXT_RESULT, [1])| == 1 && DataRows(codec, TEXT_RESULT, [1])[0] == DataRow([Some("abc")])
    ensures !RowMatches(codec, [FieldDescription("c", 23, 1)], [Text("abc")], DataRow([Some("abc")]))
  {
    hide TypeOf, PutInt, ToInt;
    IntegerName();
    VarcharName();
    assert RowValues(codec, TEXT_RESULT, TEXT_RESULT.rows[0], [1]) == [Some("abc")];
    PutIntExact(ToInt(codec, Text("abc")), 4);
    var field := EncodeValue(codec, Text("abc"), 23, 1);
    assert field.Some? && |field.value| == 4;
    assert DataRow([Some("abc")]).values[0] != field;
  }

  /** There `SELECT $1`, bound to a text and in binary format, is described as an integer and sends a
      text of three bytes. */
  lemma AnnouncedTypeCanDiffer(codec: Codec)
    ensures var env := Env(LooseEval, codec);
            var s := Initial(0).(portals := map["" := BOUND_SELECT]);
            var described := Step(env, true, s, Describe('P', ""));
            var shape, rows := Output(env, true, s, Describe('P', "")), Output(env, true, described, Execute(""));
            && shape == [RowDescription([FieldDescription("c", 23, 1)])]
            && |rows| > 0 && rows[0] == DataRow([Some("abc")])
            && !RowMatches(codec, shape[0].fields, [Text("abc")], rows[0])
  {
    hide ReturnsRows, Rewrite, Notices, CommandTag, TypeOf, Step, Output, RowMatches, Fields, DataRows;
    var env := Env(LooseEval, codec);
    var s := Initial(0).(portals := map["" := BOUND_SELECT]);
    BoundSelectTexts();
    LooseRows(codec);
    DescribeRemembers(env, s, 'P', "");
    DescribeShows(env, s, 'P', "");
    var described := Step(env, true, s, Describe('P', ""));
    ExecuteShows(env, described, "");
    assert described.lastRes == Some(NULL_RESULT);
    var rows := Output(env, true, described, Execute(""));
    assert rows == ExecuteReply(codec, BOUND_SELECT, Rows(TEXT_RESULT));
    assert rows[0] == DataRows(codec, TEXT_RESULT, [1])[0];
  }

  /** Prepare, bind, describe, execute, sync: one engine run of the bound text, and its effect once. */
  lemma SegmentRunsOnce<D>(env: Env<D>, s: State<D>, stmt: string, q: string, portal: string, ps: Params,
                           formats: seq<int>, byStatement: bool)
    requires !s.failed && ErrorsStop(s) && !ReturnsRows(q) && !MemoHit(s, Substitute(q, ps))
    ensures var msgs := [Parse(stmt, q), Bind(portal, stmt, ps, formats),
                         if byStatement then Describe('S', stmt) else Describe('P', portal), Execute(portal), Sync];
            var t := Serve(env, true, s, msgs);
            && t.runs == s.runs + [EngineRun(q, Substitute(q, ps), ByExecute)]
            && t.db == env.eval(s.db, Substitute(q, ps)).1
            && !t.failed && t.lastRes.None?
  {
    hide DescribeStep, ExecuteStep, ReturnsRows, Rewrite;
    var describe := if byStatement then Describe('S', stmt) else Describe('P', portal);
    var s1 := Step(env, true, s, Parse(stmt, q));
    var s2 := Step(env, true, s1, Bind(portal, stmt, ps, formats));
    var s3 := Step(env, true, s2, describe);
    assert s2.portals[portal] == Portal(q, ps, formats) && s2.stmts[stmt] == q;
    DescribeRemembers(env, s2, describe.kind, describe.name);
    StepRan(env, true, s2, describe);
    StepRan(env, true, s3, Execute(portal));
    var s4 := Step(env, true, s3, Execute(portal));
    hide Step;
    ServeCons(env, s, Parse(stmt, q), [Bind(portal, stmt, ps, formats), describe, Execute(portal), Sync]);
    ServeFour(env, s1, Bind(portal, stmt, ps, formats), describe, Execute(portal), Sync);
    assert [Parse(stmt, q)] + [Bind(portal, stmt, ps, formats), describe, Execute(portal), Sync] ==
           [Parse(stmt, q), Bind(portal, stmt, ps, formats), describe, Execute(portal), Sync];
    SyncEffect(env, s4);
  }

  lemma SyncEffect<D>(env: Env<D>, s: State<D>)
    ensures var t := Step(env, true, s, Sync); t.runs == s.runs && t.db == s.db && !t.failed && t.lastRes.None?
  {
  }

  lemma ServeCons<D>(env: Env<D>, s: State<D>, m: Frontend, rest: seq<Frontend>)
    requires !m.Terminate?
    ensures Serve(env, true, s, [m] + rest) == Serve(env, true, Step(env, true, s, m), rest)
  {
    assert ([m] + rest)[1..] == rest;
  }

  lemma ServeFour<D>(env: Env<D>, s: State<D>, a: Frontend, b: Frontend, c: Frontend, d: Frontend)
    requires !a.Terminate? && !b.Terminate? && !c.Terminate? && !d.Terminate?
    ensures Serve(env, true, s, [a, b, c, d]) ==
            Step(env, true, Step(env, true, Step(env, true, Step(env, true, s, a), b), c), d)
  {
    hide Step, Serve;
    var s1 := Step(env, true, s, a);
    var s2 := Step(env, true, s1, b);
    var s3 := Step(env, true, s2, c);
    ServeCons(env, s, a, [b] + ([c] + ([d] + [])));
    ServeCons(env, s1, b, [c] + ([d] + []));
    ServeCons(env, s2, c, [d] + []);
    ServeCons(env, s3, d, []);
    ServeNothing(env, Step(env, true, s3, d));
    assert [a, b, c, d] == [a] + ([b] + ([c] + ([d] + [])));
  }

  lemma ServeNothing<D>(env: Env<D>, s: State<D>)
    ensures Serve(env, true, s, []) == s
  {
  }
}
