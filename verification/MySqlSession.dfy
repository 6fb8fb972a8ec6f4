/** The MySQL connection of internal/mysql/handler.go: statements, and the warnings kept between them. */
module MySqlSession {
  import opened Basics
  import Decimal
  import opened Results
  import opened Fidelity
  import opened Reporting
  import opened MySqlRewrite

  // ---------- reading the statement ----------

  function WordsOf(s: string): seq<string>
    decreases |s|
  {
    var t := TrimLeft(s, IsSpace);
    TrimLeftShrinks(s);
    if t == [] then []
    else
      var w := Until(t, IsSpace);
      UntilPrefix(t);
      if w == [] then [] else [w] + WordsOf(t[|w|..])
  }

  lemma {:induction false} TrimLeftShrinks(s: string)
    ensures |TrimLeft(s, IsSpace)| <= |s|
  {
    if s != [] && IsSpace(s[0]) { TrimLeftShrinks(s[1..]); }
  }

  lemma {:induction false} UntilPrefix(s: string)
    ensures |Until(s, IsSpace)| <= |s|
  {
    if s != [] && !IsSpace(s[0]) { UntilPrefix(s[1..]); }
  }

  function Spaced(words: seq<string>): string {
    if words == [] then []
    else if |words| == 1 then words[0]
    else words[0] + " " + Spaced(words[1..])
  }

  predicate IsShowWarnings(q: string) {
    var u := Upper(Spaced(WordsOf(q)));
    var v := if u != [] && u[|u| - 1] == ';' then u[..|u| - 1] else u;
    v == "SHOW WARNINGS" || "SHOW WARNINGS " <= v
  }

  predicate EndsWord(c: char) {
    c == ' ' || c == '\t' || c == '\r' || c == '\n'
  }

  function FirstWord(q: string): string {
    Upper(Until(q, EndsWord))
  }

  predicate IsSessionNoop(word: string) {
    word in {"SET", "USE", "BEGIN", "START", "COMMIT", "ROLLBACK"}
  }

  // ---------- values and notes ----------

  function Coerce(codec: Codec, v: Value): Value {
    match v
    case Bool(b) => Int64(if b then 1 else 0)
    case Big(_) => Value.Text(Sprint(codec, v))
    case Other(_) => Value.Text(Sprint(codec, v))
    case _ => v
  }

  /** NULL stays NULL, and no integer is lost, however wide and however represented. */
  lemma CoerceKeepsIntegers(codec: Codec, v: Value)
    ensures Coerce(codec, v).Null? <==> v.Null?
    ensures IntegerOf(v).Some? ==> IntegerOf(Coerce(codec, v)) == IntegerOf(v)
  {
    hide Decimal.Parse, TrimSpace, Decimal.Format;
    if v.Big? {
      TrimFormat(v.n);
      Decimal.ParseFormat(v.n);
    }
  }

  function CoerceRows(codec: Codec, rows: seq<seq<Value>>): seq<seq<Value>> {
    seq(|rows|, j requires 0 <= j < |rows| => CoerceRow(codec, rows[j]))
  }

  function CoerceRow(codec: Codec, row: seq<Value>): seq<Value> {
    seq(|row|, i requires 0 <= i < |row| => Coerce(codec, row[i]))
  }

  function TypeNote(t: DuckType): Option<string> {
    match t
    case Boolean => Some("BOOLEAN shown as integer 0/1")
    case Decimal => Some("DECIMAL" + AS_TEXT)
    case HugeInt => Some("HUGEINT" + AS_TEXT)
    case UHugeInt => Some("UHUGEINT" + AS_TEXT)
    case _ => None
  }

  const RULES := Rules(t => TypeNote(t), (t, v) => None)

  method MySqlReport(res: QueryResult) returns (r: Report)
    ensures fresh(r) && r.Valid() && r.notes == NotesOf(Adds(RULES, res))
  {
    r := BuildReport(RULES, res);
  }

  /** The lines a statement that returned `res` leaves to SHOW WARNINGS. */
  ghost function Recorded(res: QueryResult): seq<string> {
    NotesKeyed(Adds(RULES, res));
    WarningsOf(NotesOf(Adds(RULES, res)))
  }

  lemma NoLines(res: QueryResult)
    requires NotesOf(Adds(RULES, res)) == map[]
    ensures Recorded(res) == []
  {
    hide AddsUpTo, NotesOf;
    NotesKeyed(Adds(RULES, res));
    ListingSize(NotesOf(Adds(RULES, res)));
    assert |Listing(NotesOf(Adds(RULES, res)))| == 0;
  }

  // ---------- one statement ----------

  datatype Reply =
    | Affected(count: nat)
    | ResultSet(names: seq<string>, values: seq<seq<Value>>, binary: bool, warnings: nat)
    | Refused(err: string)

  /** What running a statement came to: the engine's outcome, and whether the reply could be built. */
  datatype Run = Run(text: string, outcome: Outcome, built: bool)

  datatype State<D> = State(db: D, warnings: seq<string>, runs: seq<Run>)

  /** `build` is the library that encodes a result set: an error, or none. */
  datatype Env<!D> = Env(
    eval: (D, string) -> (Outcome, D),
    build: (seq<string>, seq<seq<Value>>, bool) -> Option<string>,
    codec: Codec)

  function ColumnNames(res: QueryResult): seq<string> {
    seq(|res.cols|, i requires 0 <= i < |res.cols| => res.cols[i].name)
  }

  const WARNING_NAMES := ["Level", "Code", "Message"]

  function WarningRows(lines: seq<string>): seq<seq<Value>> {
    seq(|lines|, k requires 0 <= k < |lines| => [Value.Text("Warning"), Int64(1105), Value.Text("spoofdb: " + lines[k])])
  }

  function ShowWarnings<D>(env: Env<D>, s: State<D>): Reply {
    var rows := WarningRows(s.warnings);
    match env.build(WARNING_NAMES, rows, false)
    case Some(e) => Refused(e)
    case None => ResultSet(WARNING_NAMES, rows, false, 0)
  }

  /** The reply to a result, and the warnings it leaves. */
  ghost function Answer<D>(env: Env<D>, res: QueryResult, binary: bool): (Reply, seq<string>) {
    if res.cols == [] then (Affected(|res.rows|), [])
    else
      var names, values := ColumnNames(res), CoerceRows(env.codec, res.rows);
      match env.build(names, values, binary)
      case Some(e) => (Refused(e), [])
      case None => (ResultSet(names, values, binary, |Recorded(res)| % 0x1_0000), Recorded(res))
  }

  ghost function Exec<D>(env: Env<D>, s: State<D>, query: string, binary: bool): (Reply, State<D>) {
    var text := Requote(query, false);
    var q := TrimSpace(text);
    if q == "" then (Affected(0), s)
    else if IsShowWarnings(q) then (ShowWarnings(env, s), s)
    else
      var (o, db) := env.eval(s.db, text);
      if !o.Rows? then
        var runs := s.runs + [Run(text, o, false)];
        (if IsSessionNoop(FirstWord(q)) then Affected(0) else Refused(o.err), s.(db := db, runs := runs))
      else
        var (reply, warnings) := Answer(env, o.res, binary);
        (reply, State(db, warnings, s.runs + [Run(text, o, !reply.Refused?)]))
  }

  datatype Command = Query(query: string) | StmtExecute(query: string, args: seq<Arg>)

  ghost function Step<D>(env: Env<D>, s: State<D>, c: Command): (Reply, State<D>) {
    match c
    case Query(query) => Exec(env, s, query, false)
    case StmtExecute(query, args) => Exec(env, s, Inline(query, Outside, args), true)
  }

  // ---------- the class ----------

  class Handler<D> {
    const env: Env<D>
    var db: D
    var warnings: seq<string>
    ghost var runs: seq<Run>

    ghost function Abs(): State<D>
      reads this
    {
      State(db, warnings, runs)
    }

    constructor (env: Env<D>, db: D)
      ensures this.env == env && Abs() == State(db, [], [])
    {
      this.env, this.db := env, db;
      warnings, runs := [], [];
    }

    method Show() returns (reply: Reply)
      ensures reply == ShowWarnings(env, Abs())
    {
      var rows := [];
      for k := 0 to |warnings|
        invariant rows == WarningRows(warnings)[..k]
      {
        rows := rows + [[Value.Text("Warning"), Int64(1105), Value.Text("spoofdb: " + warnings[k])]];
      }
      assert rows == WarningRows(warnings);
      var failure := env.build(WARNING_NAMES, rows, false);
      return if failure.Some? then Refused(failure.value) else ResultSet(WARNING_NAMES, rows, false, 0);
    }

    method Reset(res: QueryResult, binary: bool) returns (reply: Reply)
      modifies this`warnings
      ensures (reply, warnings) == Answer(env, res, binary)
    {
      hide AddsUpTo, NotesOf, WarningsOf;
      warnings := [];
      if |res.cols| == 0 {
        return Affected(|res.rows|);
      }
      var names, values := [], [];
      for i := 0 to |res.cols|
        invariant names == ColumnNames(res)[..i]
      {
        names := names + [res.cols[i].name];
      }
      for j := 0 to |res.rows|
        invariant values == CoerceRows(env.codec, res.rows)[..j]
      {
        values := values + [CoerceRow(env.codec, res.rows[j])];
      }
      assert names == ColumnNames(res) && values == CoerceRows(env.codec, res.rows);
      var failure := env.build(names, values, binary);
      if failure.Some? {
        return Refused(failure.value);
      }
      reply := ResultSet(names, values, binary, 0);
      var rep := MySqlReport(res);
      var lines := rep.Warnings();
      if !rep.Empty() {
        warnings := lines;
        reply := ResultSet(names, values, binary, |lines| % 0x1_0000);
      } else {
        NoLines(res);
      }
    }

    method Execute(query: string, binary: bool) returns (reply: Reply)
      modifies this
      ensures (reply, Abs()) == Exec(env, old(Abs()), query, binary)
    {
      hide Requote, IsShowWarnings, FirstWord, TrimSpace, Answer, ShowWarnings;
      var text := BackticksToQuotes(query);
      var q := TrimSpace(text);
      if q == "" {
        return Affected(0);
      }
      if IsShowWarnings(q) {
        reply := Show();
        return;
      }
      var (o, next) := env.eval(db, text);
      db := next;
      if !o.Rows? {
        runs := runs + [Run(text, o, false)];
        return if IsSessionNoop(FirstWord(q)) then Affected(0) else Refused(o.err);
      }
      reply := Reset(o.res, binary);
      runs := runs + [Run(text, o, !reply.Refused?)];
    }

    method Handle(c: Command) returns (reply: Reply)
      modifies this
      ensures (reply, Abs()) == Step(env, old(Abs()), c)
    {
      hide Exec, Inline;
      match c
      case Query(query) => reply := Execute(query, false);
      case StmtExecute(query, args) =>
        var text := SubstituteArgs(query, args);
        reply := Execute(text, true);
    }
  }

  // ---------- whose warnings are shown ----------

  ghost function Serve<D>(env: Env<D>, s: State<D>, cs: seq<Command>): State<D>
    decreases |cs|
  {
    if cs == [] then s else Serve(env, Step(env, s, cs[0]).1, cs[1..])
  }

  /** The warnings kept are those of the last statement the engine did not refuse: none if its reply
      has no columns or could not be built, and no refused statement, no blank one and no
      SHOW WARNINGS since has changed them. */
  ghost predicate KeptFrom(warnings: seq<string>, runs: seq<Run>) {
    if exists k :: 0 <= k < |runs| && runs[k].outcome.Rows? then
      exists k :: 0 <= k < |runs| && runs[k].outcome.Rows?
        && (forall j :: k < j < |runs| ==> !runs[j].outcome.Rows?)
        && warnings == if runs[k].built then Recorded(runs[k].outcome.res) else []
    else warnings == []
  }

  lemma NothingRecorded(res: QueryResult)
    requires res.cols == []
    ensures Recorded(res) == []
  {
  }

  lemma ExecKeeps<D>(env: Env<D>, s: State<D>, query: string, binary: bool)
    requires KeptFrom(s.warnings, s.runs)
    ensures var t := Exec(env, s, query, binary).1;
            KeptFrom(t.warnings, t.runs)
  {
    hide Requote, IsShowWarnings, FirstWord, TrimSpace, Recorded, ShowWarnings;
    var t := Exec(env, s, query, binary).1;
    if t.runs != s.runs {
      var run := t.runs[|s.runs|];
      assert t.runs == s.runs + [run];
      if run.outcome.Rows? {
        if run.outcome.res.cols == [] { NothingRecorded(run.outcome.res); }
        assert t.warnings == if run.built then Recorded(run.outcome.res) else [];
      } else if k :| 0 <= k < |s.runs| && s.runs[k].outcome.Rows?
                     && (forall j :: k < j < |s.runs| ==> !s.runs[j].outcome.Rows?)
                     && s.warnings == if s.runs[k].built then Recorded(s.runs[k].outcome.res) else [] {
        assert t.runs[k] == s.runs[k];
      }
    }
  }

  /** Over every run of a connection. */
  lemma {:induction false} WarningsAreTheLastResults<D>(env: Env<D>, s: State<D>, cs: seq<Command>)
    requires KeptFrom(s.warnings, s.runs)
    ensures var t := Serve(env, s, cs);
            KeptFrom(t.warnings, t.runs)
    decreases |cs|
  {
    hide Exec, Inline, KeptFrom;
    if cs != [] {
      if cs[0].Query? {
        ExecKeeps(env, s, cs[0].query, false);
      } else {
        ExecKeeps(env, s, Inline(cs[0].query, Outside, cs[0].args), true);
      }
      WarningsAreTheLastResults(env, Step(env, s, cs[0]).1, cs[1..]);
    }
  }

  /** A statement `isShowWarnings` takes. */
  predicate AsksWarnings(query: string) {
    var q := TrimSpace(Requote(query, false));
    q != "" && IsShowWarnings(q)
  }

  lemma ShowWarningsKeeps<D>(env: Env<D>, s: State<D>, query: string, binary: bool)
    requires AsksWarnings(query)
    ensures Exec(env, s, query, binary) == (ShowWarnings(env, s), s)
  {
  }

  /** After every run of a connection, SHOW WARNINGS shows the lines of the last statement the engine did
      not refuse -- or the library's error -- and changes nothing, so asking twice answers twice. */
  lemma ShowWarningsShowsLast<D>(env: Env<D>, db: D, cs: seq<Command>, query: string, binary: bool)
    requires AsksWarnings(query)
    ensures var s := Serve(env, State(db, [], []), cs);
            var (reply, t) := Exec(env, s, query, binary);
            && t == s
            && exists lines :: KeptFrom(lines, s.runs) &&
                 reply == match env.build(WARNING_NAMES, WarningRows(lines), false)
                          case None => ResultSet(WARNING_NAMES, WarningRows(lines), false, 0)
                          case Some(e) => Refused(e)
  {
    hide Exec, AsksWarnings, KeptFrom;
    var start := State(db, [], []);
    NothingKept();
    WarningsAreTheLastResults(env, start, cs);
    ShowWarningsKeeps(env, Serve(env, start, cs), query, binary);
  }

  lemma NothingKept()
    ensures KeptFrom([], [])
  {
  }
}
