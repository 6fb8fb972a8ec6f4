/** What the client is sent in answer to each message, message by message and byte by byte. */
module PgReplies {
  import opened Basics
  import opened Decimal
  import opened Results
  import opened Fidelity
  import opened Reporting
  import opened PgWire
  import opened SqlText
  import opened ScanParams
  import opened Words
  import opened PgSession
  import opened PgRuns
  import SqlLexer

  // ---------- rows ----------

  /** The format code for column `i`: text without codes, one code for all columns, or one each. */
  predicate CodeFor(formats: seq<int>, i: nat, f: int) {
    && (|formats| == 0 ==> f == 0)
    && (|formats| == 1 ==> f == formats[0])
    && (|formats| > 1 ==> if i < |formats| then f == formats[i] else f == 0)
  }

  /** A row's message: every field reads back as its value, in the format asked for. */
  predicate RowSent(codec: Codec, cols: seq<Column>, formats: seq<int>, row: seq<Value>, m: Backend) {
    && m.DataRow? && |m.values| == |row|
    && forall i :: 0 <= i < |row| && i < |cols| && FitsType(TypeOf(cols[i].typ), row[i]) ==>
         FieldSent(codec, cols[i], formats, i, row[i], m.values[i])
  }

  predicate FieldSent(codec: Codec, c: Column, formats: seq<int>, i: nat, v: Value, field: Option<string>) {
    Reads(codec, TypeOf(c.typ), v, |formats| > 0 && CodeFor(formats, i, 1), field)
  }

  /** The description names the columns and gives each the code its fields are sent in. */
  predicate Describes(cols: seq<Column>, formats: seq<int>, fields: seq<FieldDescription>) {
    && |fields| == |cols|
    && forall i :: 0 <= i < |cols| ==>
         fields[i].name == cols[i].name && fields[i].oid == Oid(TypeOf(cols[i].typ)) && CodeFor(formats, i, fields[i].format)
  }

  lemma FieldsDescribe(res: QueryResult, formats: seq<int>)
    ensures Describes(res.cols, formats, Fields(res, formats))
  {
    hide TypeOf, Oid;
  }

  lemma RowIsSent(codec: Codec, res: QueryResult, formats: seq<int>, k: nat)
    requires k < |res.rows|
    ensures RowSent(codec, res.cols, formats, res.rows[k], DataRows(codec, res, formats)[k])
  {
    hide TypeOf, Oid, EncodeValue, Reads, FitsType;
    var row := res.rows[k];
    var values := RowValues(codec, res, row, formats);
    forall i | 0 <= i < |row| && i < |res.cols| && FitsType(TypeOf(res.cols[i].typ), row[i])
      ensures FieldSent(codec, res.cols[i], formats, i, row[i], values[i])
    {
      FieldReads(codec, TypeOf(res.cols[i].typ), row[i], ResolveFormat(formats, i));
    }
  }

  // ---------- a successful reply ----------

  /** From position `at` on: the rows, the report's lines, and the tag. */
  ghost predicate Answered(codec: Codec, sql: string, formats: seq<int>, res: QueryResult, at: nat, ms: seq<Backend>) {
    var n, w := |res.rows|, |set p | p in Adds(PgRules(codec), res)|;
    && |ms| == at + n + w + 1
    && (forall k :: 0 <= k < n ==> RowSent(codec, res.cols, formats, res.rows[k], ms[at + k]))
    && Noticed(codec, res, at + n, ms)
    && ms[at + n + w] == CommandComplete(CommandTag(sql, n))
  }

  /** One notice per distinct note of the report, in its order, from position `at` on. */
  ghost predicate Noticed(codec: Codec, res: QueryResult, at: nat, ms: seq<Backend>) {
    NotesKeyed(Adds(PgRules(codec), res));
    var notes := Listing(NotesOf(Adds(PgRules(codec), res)));
    && |notes| == |set p | p in Adds(PgRules(codec), res)|
    && at + |notes| <= |ms|
    && forall k :: 0 <= k < |notes| ==> ms[at + k] == Notice("spoofdb: " + Line(notes[k]))
  }

  lemma NoticesAreLines(codec: Codec, res: QueryResult)
    ensures Noticed(codec, res, 0, Notices(codec, res))
    ensures |Notices(codec, res)| == |set p | p in Adds(PgRules(codec), res)|
  {
    hide NotesOf, AddsUpTo, Line, Listing;
    NoticesAreNotices(codec, res);
    NotesKeyed(Adds(PgRules(codec), res));
  }

  lemma NoticedLater(codec: Codec, res: QueryResult, before: seq<Backend>, ms: seq<Backend>, after: seq<Backend>)
    requires Noticed(codec, res, 0, ms)
    ensures Noticed(codec, res, |before|, before + ms + after)
  {
    hide NotesOf, AddsUpTo, Line, Listing;
    NotesKeyed(Adds(PgRules(codec), res));
    var all := before + ms + after;
    assert forall k :: 0 <= k < |ms| ==> all[|before| + k] == ms[k];
  }

  /** The success part of either path, after `header` and before `after`. */
  lemma PartsAnswer(codec: Codec, sql: string, formats: seq<int>, res: QueryResult, header: seq<Backend>)
    ensures var ms := header + (DataRows(codec, res, formats) + Notices(codec, res) + [CommandComplete(CommandTag(sql, |res.rows|))]);
            Answered(codec, sql, formats, res, |header|, ms)
  {
    hide Notices, CommandTag, AddsUpTo, RowSent, Noticed, RowValues;
    var rows, notices, tag := DataRows(codec, res, formats), Notices(codec, res), CommandComplete(CommandTag(sql, |res.rows|));
    var ms := header + (rows + notices + [tag]);
    NoticesAreLines(codec, res);
    NoticedLater(codec, res, header + rows, notices, [tag]);
    assert (header + rows) + notices + [tag] == ms;
    forall k | 0 <= k < |res.rows| ensures RowSent(codec, res.cols, formats, res.rows[k], ms[|header| + k]) {
      RowIsSent(codec, res, formats, k);
      assert ms[|header| + k] == rows[k];
    }
  }

  // ---------- the memo ----------

  /** A text that is not remembered runs on the engine, and is then remembered with what came of it. */
  lemma RunRemembers<D>(env: Env<D>, s: State<D>, run: EngineRun)
    ensures var (o, t) := RunText(env, true, s, run);
            if s.lastRes.Some? && s.lastSQL == run.text then
              t == s && o == if s.lastErr.None? then Rows(s.lastRes.value) else RowsThenError(s.lastRes.value, s.lastErr.value)
            else
              && (o, t.db) == env.eval(s.db, run.text) && t.runs == s.runs + [run] && t.lastSQL == run.text
              && match o
                 case Rows(res) => t.lastRes == Some(res) && t.lastErr == None
                 case RowsThenError(res, err) => t.lastRes == Some(res) && t.lastErr == Some(err)
                 case Failed(err) => t.lastRes == None && t.lastErr == Some(err)
  {
  }

  // ---------- Execute ----------

  /** What an unfailed session gets for a text: the remembered result, or the engine's answer. */
  function Answer<D>(env: Env<D>, memo: bool, s: State<D>, text: string): Outcome {
    if memo && s.lastRes.Some? && s.lastSQL == text then Rows(s.lastRes.value) else env.eval(s.db, text).0
  }

  /** Execute sends one error, or the rows, a notice per approximation, and the tag with their number. */
  lemma ExecuteReplies<D>(env: Env<D>, memo: bool, s: State<D>, portal: string)
    requires !s.failed && ErrorsStop(s)
    ensures var p, ms := Lookup(s.portals, portal, NO_PORTAL), Output(env, memo, s, Execute(portal));
            match Answer(env, memo, s, Substitute(p.sql, p.params))
            case Rows(res) => Answered(env.codec, p.sql, p.formats, res, 0, ms)
            case RowsThenError(_, err) => ms == [ErrorResponse(err)]
            case Failed(err) => ms == [ErrorResponse(err)]
  {
    hide Rewrite, Notices, CommandTag, DataRows, Answered;
    var p := Lookup(s.portals, portal, NO_PORTAL);
    var o := Answer(env, memo, s, Substitute(p.sql, p.params));
    assert Output(env, memo, s, Execute(portal)) == ExecuteReply(env.codec, p, o);
    if o.Rows? {
      PartsAnswer(env.codec, p.sql, p.formats, o.res, []);
      var ms := ExecuteReply(env.codec, p, o);
      assert [] + ms == ms;
    }
  }

  // ---------- Describe ----------

  /** Describe of a statement announces its largest placeholder index; of a portal, nothing. Then it
      sends NoData unless the text begins with a row-returning word; for one that does, the error of its
      NULL probe, or NoData for a result without columns, or the result's description. */
  lemma DescribeReplies<D>(env: Env<D>, memo: bool, s: State<D>, kind: char, name: string)
    requires !s.failed && ErrorsStop(s)
    ensures var p := if kind == 'S' then Portal(Lookup(s.stmts, name, ""), [], []) else Lookup(s.portals, name, NO_PORTAL);
            var ms := Output(env, memo, s, Describe(kind, name));
            var count := if kind == 'S' then 1 else 0;
            && |ms| == count + 1
            && (kind == 'S' ==> ms[0] == ParameterDescription(SqlLexer.LargestParam(SqlLexer.Lex(p.sql))))
            && var shape := ms[count];
               if !BeginsWithAny(p.sql, ROW_WORDS) then shape == NoData
               else
                 match Answer(env, memo, s, Substitute(p.sql, []))
                 case Rows(res) =>
                   if |res.cols| == 0 then shape == NoData
                   else shape.RowDescription? && Describes(res.cols, p.formats, shape.fields)
                 case RowsThenError(_, err) => shape == ErrorResponse(err)
                 case Failed(err) => shape == ErrorResponse(err)
  {
    hide Rewrite, ReturnsRows, BeginsWithAny, MaxIndex, Fields, Describes;
    var raw := DescribedText(s, kind, name);
    KeywordTests(raw);
    SqlLexer.AnnouncedCountIsLargest(raw);
    var o := Answer(env, memo, s, Substitute(raw, []));
    assert o == RunText(env, memo, Emit(s, DescribePrefix(kind, raw)), EngineRun(raw, Substitute(raw, []), ByDescribe)).0;
    if o.Rows? { FieldsDescribe(o.res, DescribedFormats(s, kind, name)); }
  }

  // ---------- Query ----------

  /** A simple query: nothing but EmptyQueryResponse for a blank text; one error; or the description and
      the rows of a result with columns, in text format, then notices and tag. ReadyForQuery ends it. */
  lemma QueryReplies<D>(env: Env<D>, memo: bool, s: State<D>, sql: string)
    ensures var ms, ready := Output(env, memo, s, Query(sql)), Ready(TxByte(Step(env, memo, s, Query(sql))));
            if forall i :: 0 <= i < |sql| ==> !Ink(sql[i]) then ms == [EmptyQuery, ready]
            else
              match env.eval(s.db, sql).0
              case Rows(res) =>
                && |ms| > 0 && ms[|ms| - 1] == ready
                && var body := ms[..|ms| - 1];
                   if |res.cols| > 0 then
                     && |body| > 0 && body[0].RowDescription? && Describes(res.cols, [], body[0].fields)
                     && Answered(env.codec, sql, [], res, 1, body)
                   else
                     && Noticed(env.codec, res, 0, body)
                     && |body| == |set p | p in Adds(PgRules(env.codec), res)| + 1
                     && body[|body| - 1] == CommandComplete(CommandTag(sql, |res.rows|))
              case RowsThenError(_, err) => ms == [ErrorResponse(err), ready]
              case Failed(err) => ms == [ErrorResponse(err), ready]
  {
    hide Blank, Notices, CommandTag, DataRows, Answered, Fields, Step, AddsUpTo, Noticed;
    BlankIff(sql);
    var o := env.eval(s.db, sql).0;
    if !Blank(sql) && o.Rows? {
      var res, ready := o.res, Ready(TxByte(Step(env, memo, s, Query(sql))));
      var body := QueryReply(env.codec, sql, o);
      assert (body + [ready])[..|body|] == body;
      var tag := CommandComplete(CommandTag(sql, |res.rows|));
      if |res.cols| > 0 {
        var header := [RowDescription(Fields(res, []))];
        FieldsDescribe(res, []);
        PartsAnswer(env.codec, sql, [], res, header);
        var rows, notices := DataRows(env.codec, res, []), Notices(env.codec, res);
        assert header + (rows + notices + [tag]) == header + rows + notices + [tag];
      } else {
        NoticesAreLines(env.codec, res);
        NoticedLater(env.codec, res, [], Notices(env.codec, res), [tag]);
        assert body == [] + Notices(env.codec, res) + [tag];
      }
    }
  }

  // ---------- no silent loss ----------

  /** A cell of the result whose binary field decodes to another integer. */
  predicate LosesCell(codec: Codec, res: QueryResult, ci: nat, j: nat) {
    && ci < |res.cols| && j < |res.rows| && ci < |res.rows[j]|
    && LossyCell(codec, TypeOf(res.cols[ci].typ), res.rows[j][ci])
  }

  /** The notice for the lossy cells under a column name. */
  function LossNotice(codec: Codec, res: QueryResult, name: string): Backend {
    var lost := CountCells(res, name, Lossy(codec), |res.cols|);
    Notice("spoofdb: column " + QuoteColumn(name) + ": " + ("value exceeds int64 and " + "is sent as 0")
           + if lost > 1 then " (x" + Format(lost) + ")" else "")
  }

  lemma LossLine(name: string, lost: nat)
    ensures "spoofdb: " + Line(Note(name, EXCEEDS, lost)) ==
            "spoofdb: column " + QuoteColumn(name) + ": " + ("value exceeds int64 and " + "is sent as 0")
            + if lost > 1 then " (x" + Format(lost) + ")" else ""
  {
    hide QuoteColumn, Format;
    var rest := QuoteColumn(name) + ": " + EXCEEDS + if lost > 1 then " (x" + Format(lost) + ")" else "";
    assert "spoofdb: " + ("column " + rest) == "spoofdb: column " + rest;
  }

  /** If a binary field of a result would decode to another integer, the reply holds a notice that names
      its column and counts such cells. */
  lemma LossIsNoticed(codec: Codec, res: QueryResult, ci: nat, j: nat, at: nat, ms: seq<Backend>)
    requires WellTyped(res) && LosesCell(codec, res, ci, j) && Noticed(codec, res, at, ms)
    ensures LossNotice(codec, res, res.cols[ci].name) in ms
  {
    hide NotesOf, AddsUpTo, CountCells, TypeOf, LossyCell, Listing, Line, WellTyped, Key;
    var name, adds := res.cols[ci].name, Adds(PgRules(codec), res);
    NotesKeyed(adds);
    CellIsCounted(res, ci, j, Lossy(codec), |res.cols|);
    ReportCountsBinaryLosses(codec, res, name);
    var notes := NotesOf(adds);
    var n := Note(name, EXCEEDS, CountCells(res, name, Lossy(codec), |res.cols|));
    assert Holds(notes, n);
    assert n in Listing(notes);
    var k :| 0 <= k < |Listing(notes)| && Listing(notes)[k] == n;
    LossLine(name, n.count);
    assert ms[at + k] == LossNotice(codec, res, name);
  }

  /** On the simple and on the extended path. */
  lemma LossIsTold<D>(env: Env<D>, memo: bool, s: State<D>, sql: string, portal: string, res: QueryResult, ci: nat, j: nat)
    requires WellTyped(res) && LosesCell(env.codec, res, ci, j)
    ensures (exists i :: 0 <= i < |sql| && Ink(sql[i])) && env.eval(s.db, sql).0 == Rows(res) ==>
              LossNotice(env.codec, res, res.cols[ci].name) in Output(env, memo, s, Query(sql))
    ensures var p := Lookup(s.portals, portal, NO_PORTAL);
            !s.failed && ErrorsStop(s) && Answer(env, memo, s, Substitute(p.sql, p.params)) == Rows(res) ==>
              LossNotice(env.codec, res, res.cols[ci].name) in Output(env, memo, s, Execute(portal))
  {
    hide Output, Step, Rewrite, WellTyped, LosesCell, Noticed, LossNotice, AddsUpTo, Answer, CommandTag, RowSent, Describes;
    if (exists i :: 0 <= i < |sql| && Ink(sql[i])) && env.eval(s.db, sql).0 == Rows(res) {
      QueryReplies(env, memo, s, sql);
      var ms := Output(env, memo, s, Query(sql));
      var body := ms[..|ms| - 1];
      LossIsNoticed(env.codec, res, ci, j, if |res.cols| > 0 then 1 + |res.rows| else 0, body);
    }
    var p := Lookup(s.portals, portal, NO_PORTAL);
    if !s.failed && ErrorsStop(s) && Answer(env, memo, s, Substitute(p.sql, p.params)) == Rows(res) {
      ExecuteReplies(env, memo, s, portal);
      LossIsNoticed(env.codec, res, ci, j, |res.rows|, Output(env, memo, s, Execute(portal)));
    }
  }
}
