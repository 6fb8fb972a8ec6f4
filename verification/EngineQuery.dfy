/** Running one text on DuckDB and buffering the result (internal/engine/duckdb.go, runOn). */
module EngineQuery {
  import opened Basics
  import opened Results
  import opened Words

  // ---------- classifying errors ----------

  /** `strings.Contains`. */
  predicate Contains(s: string, sub: string)
    decreases |s|
  {
    (|sub| <= |s| && s[..|sub|] == sub) || (s != [] && Contains(s[1..], sub))
  }

  datatype ErrorClass = AppError | MissingRelation | DialectGap

  const NOT_EXIST := "does not exist"
  const TABLE := "table with name"
  const VIEW := "view with name"
  const NAME := "with name"
  const COLUMN := "column"
  const GAP := "not implemented error"
  const KNOB := "unrecognized " + ("configuration " + "parameter") // in pieces, for the proofs about its bytes

  function Classify(message: string): ErrorClass {
    ClassOf(Lower(message), false)
  }

  /** The class of a lower-case message; `column` says that it is known to mention a column. */
  function ClassOf(m: string, column: bool): ErrorClass {
    if Contains(m, NOT_EXIST)
       && (Contains(m, TABLE) || Contains(m, VIEW) || (Contains(m, NAME) && !column && !Contains(m, COLUMN)))
    then MissingRelation
    else if Contains(m, GAP) then DialectGap
    else if Contains(m, KNOB) then DialectGap
    else AppError
  }

  lemma {:induction false} ContainsBefore(s: string, after: string, sub: string)
    requires Contains(s, sub)
    ensures Contains(s + after, sub)
    decreases |s|
  {
    if |sub| <= |s| && s[..|sub|] == sub {
      assert (s + after)[..|sub|] == sub;
    } else {
      ContainsBefore(s[1..], after, sub);
      assert (s + after)[1..] == s[1..] + after;
    }
  }

  lemma {:induction false} ContainsAfter(before: string, s: string, sub: string)
    requires Contains(s, sub)
    ensures Contains(before + s, sub)
    decreases |before|
  {
    if before == [] {
      assert before + s == s;
    } else {
      ContainsAfter(before[1..], s, sub);
      assert (before + s)[1..] == before[1..] + s;
    }
  }

  // ---------- what a refused text is answered with ----------

  /** The message has the phrase in it somewhere, in any letter case. */
  ghost predicate Says(message: string, phrase: string) {
    exists i: nat :: SaysAt(message, phrase, i)
  }

  predicate SaysAt(message: string, phrase: string, i: nat) {
    i + |phrase| <= |message| && SameLetters(message[i..i + |phrase|], phrase)
  }

  predicate Small(phrase: string) {
    Lower(phrase) == phrase
  }

  lemma {:induction false} ContainsSays(message: string, phrase: string)
    requires Small(phrase)
    ensures Contains(Lower(message), phrase) <==> Says(message, phrase)
    decreases |message|
  {
    hide Lower;
    if |phrase| <= |message| {
      LowerPrefix(message, |phrase|);
      SameLettersIff(message[..|phrase|], phrase);
      assert message[..|phrase|] == message[0..0 + |phrase|];
    }
    assert SaysAt(message, phrase, 0) <==> |phrase| <= |message| && Lower(message)[..|phrase|] == phrase;
    if message != [] && !SaysAt(message, phrase, 0) {
      var rest := message[1..];
      LowerTail(message);
      ContainsSays(rest, phrase);
      if Says(message, phrase) {
        var i: nat :| SaysAt(message, phrase, i);
        assert rest[i - 1..i - 1 + |phrase|] == message[i..i + |phrase|];
        assert SaysAt(rest, phrase, i - 1);
      }
      if Says(rest, phrase) {
        var i: nat :| SaysAt(rest, phrase, i);
        assert rest[i..i + |phrase|] == message[i + 1..i + 1 + |phrase|];
        assert SaysAt(message, phrase, i + 1);
      }
    }
  }

  lemma LowerPrefix(s: string, n: nat)
    requires n <= |s|
    ensures |Lower(s)| == |s| && Lower(s)[..n] == Lower(s[..n])
  {
  }

  lemma LowerTail(s: string)
    requires s != []
    ensures Lower(s)[1..] == Lower(s[1..]) && |Lower(s)| == |s|
  {
  }

  lemma SmallNames()
    ensures Small(TABLE) && Small(VIEW) && Small(NAME)
  {
  }

  lemma SmallPhrases()
    ensures Small(NOT_EXIST) && Small(COLUMN) && Small(GAP)
  {
  }

  lemma SmallKnob()
    ensures Small(KNOB)
  {
    assert Lower("unrecognized ") == "unrecognized ";
    assert Lower("configuration ") == "configuration ";
    assert Lower("parameter") == "parameter";
    assert Lower(KNOB) == Lower("unrecognized ") + (Lower("configuration ") + Lower("parameter"));
  }

  /** The message says that a table, view or other named relation does not exist. */
  ghost predicate TellsMissing(message: string) {
    Says(message, "does not exist") &&
    (Says(message, "table with name") || Says(message, "view with name")
     || (Says(message, "with name") && !Says(message, "column")))
  }

  /** The message says that DuckDB has no such feature or setting. */
  ghost predicate TellsGap(message: string) {
    Says(message, "not implemented error") || Says(message, "unrecognized configuration parameter")
  }

  lemma ClassTold(message: string)
    ensures Classify(message) == if TellsMissing(message) then MissingRelation
                                 else if TellsGap(message) then DialectGap
                                 else AppError
  {
    hide Contains, Lower, Says, Small;
    SmallNames();
    SmallPhrases();
    SmallKnob();
    ContainsSays(message, NOT_EXIST);
    ContainsSays(message, TABLE);
    ContainsSays(message, VIEW);
    ContainsSays(message, NAME);
    ContainsSays(message, COLUMN);
    ContainsSays(message, GAP);
    ContainsSays(message, KNOB);
    KnobWhole();
  }

  lemma KnobWhole()
    ensures KNOB == "unrecognized configuration parameter"
  {
  }

  /** In stub mode a text is served empty exactly if its error tells of a missing relation or of a gap;
      otherwise, and always without stub mode, the error surfaces. */
  lemma RefusalTold(stub: bool, err: string)
    ensures Refusal(stub, err) ==
            if stub && (TellsMissing(err) || TellsGap(err)) then Rows(QueryResult([], [])) else Failed(err)
  {
    hide Classify, TellsMissing, TellsGap;
    ClassTold(err);
  }

  /** DuckDB's catalog error in any letter case -- `Table with name users does not exist!` -- for every
      relation name and all that stands around it. */
  lemma MissingTableServed(before: string, kind: string, relation: string, missing: string, after: string)
    requires SameLetters(kind, "table with name") || SameLetters(kind, "view with name")
    requires SameLetters(missing, "does not exist")
    ensures var err := before + kind + relation + missing + after;
            Refusal(true, err) == Rows(QueryResult([], [])) && Refusal(false, err) == Failed(err)
  {
    hide Refusal, TellsGap, Says, SameLetters;
    var err := before + kind + relation + missing + after;
    SaysPart(before + kind + relation, missing, after, "does not exist");
    assert before + kind + (relation + missing + after) == err;
    if SameLetters(kind, "table with name") {
      SaysPart(before, kind, relation + missing + after, "table with name");
    } else {
      SaysPart(before, kind, relation + missing + after, "view with name");
    }
    RefusalTold(true, err);
    RefusalTold(false, err);
  }

  lemma SaysPart(before: string, part: string, after: string, phrase: string)
    requires SameLetters(part, phrase)
    ensures Says(before + part + after, phrase)
  {
    assert (before + part + after)[|before|..|before| + |phrase|] == part;
    assert SaysAt(before + part + after, phrase, |before|);
  }

  /** An error about a column, without the wording of a table, a view or a gap, surfaces in both modes. */
  lemma ColumnErrorSurfaces(stub: bool, err: string)
    requires Says(err, "column") && !Says(err, "table with name") && !Says(err, "view with name") && !TellsGap(err)
    ensures Refusal(stub, err) == Failed(err)
  {
    hide Says, Refusal, TellsGap;
    RefusalTold(stub, err);
  }

  // ---------- messages that quote the query ----------

  lemma NotPrefix(s: string, sub: string, i: nat)
    requires i < |s| && i < |sub| && s[i] != sub[i]
    ensures !(|sub| <= |s| && s[..|sub|] == sub)
  {
    if |sub| <= |s| {
      assert s[..|sub|][i] == s[i];
    }
  }

  /** No phrase crosses a byte it does not hold. */
  lemma {:induction false} ContainsAcross(a: string, c: char, b: string, sub: string)
    requires c !in sub && sub != ""
    ensures Contains(a + [c] + b, sub) <==> Contains(a, sub) || Contains(b, sub)
    decreases |a|
  {
    var s := a + [c] + b;
    if |a| < |sub| { NotPrefix(s, sub, |a|); }
    if a == [] {
      assert s[1..] == b;
    } else {
      ContainsAcross(a[1..], c, b, sub);
      assert s[1..] == a[1..] + [c] + b;
      assert |sub| <= |a| ==> s[..|sub|] == a[..|sub|];
    }
  }

  predicate IsPhrase(p: string) {
    p == NOT_EXIST || p == TABLE || p == VIEW || p == NAME || p == GAP || p == KNOB
  }

  /** The text holds no phrase that `classifyErr` looks for; it may mention a column. */
  ghost predicate Neutral(s: string) {
    forall p: string :: IsPhrase(p) ==> !Contains(Lower(s), p)
  }

  predicate MentionsColumn(s: string) {
    Contains(Lower(s), COLUMN)
  }

  predicate Unbroken(p: string) {
    p != "" && '\n' !in p && ':' !in p
  }

  lemma ShortPhrases()
    ensures Unbroken(TABLE) && Unbroken(VIEW) && Unbroken(NAME) && Unbroken(COLUMN)
  {
  }

  lemma LongPhrases()
    ensures Unbroken(NOT_EXIST) && Unbroken(GAP)
  {
  }

  lemma UnbrokenConcat(a: string, b: string)
    requires Unbroken(a) && Unbroken(b)
    ensures Unbroken(a + b)
  {
  }

  lemma KnobPhrase()
    ensures Unbroken(KNOB)
  {
    UnbrokenConcat("configuration ", "parameter");
    UnbrokenConcat("unrecognized ", "configuration " + "parameter");
  }

  lemma Separators()
    ensures forall p :: IsPhrase(p) || p == COLUMN ==> Unbroken(p)
  {
    hide Unbroken;
    ShortPhrases();
    LongPhrases();
    KnobPhrase();
  }

  /** DuckDB's messages quote the query, between a colon or a line break before it and a line break
      after it. If what stands around the quoted text holds none of the phrases, the class of the message
      is that of the quoted text, read knowing whether the rest mentions a column: whose error it is
      then depends on the bytes of the query. */
  lemma QuotedTextDecides(head: string, c: char, quoted: string, tail: string)
    requires c == ':' || c == '\n'
    requires Neutral(head) && Neutral(tail)
    ensures Classify(head + [c] + quoted + ['\n'] + tail)
         == ClassOf(Lower(quoted), MentionsColumn(head) || MentionsColumn(tail))
  {
    hide Contains;
    Separators();
    var h, q, t := Lower(head), Lower(quoted), Lower(tail);
    assert Lower(head + [c] + quoted + ['\n'] + tail) == h + [c] + q + ['\n'] + t;
    forall p | IsPhrase(p) || p == COLUMN
      ensures Contains(h + [c] + q + ['\n'] + t, p) <==> Contains(h, p) || Contains(q, p) || Contains(t, p)
    {
      ContainsAcross(h + [c] + q, '\n', t, p);
      ContainsAcross(h, c, q, p);
    }
  }

  /** So stub mode serves the message empty exactly if it would serve the quoted text empty as a
      message of its own: with neither head nor tail mentioning a column the condition is on the query
      alone. */
  lemma StubMasksIff(head: string, c: char, quoted: string, tail: string)
    requires c == ':' || c == '\n'
    requires Neutral(head) && Neutral(tail) && !MentionsColumn(head) && !MentionsColumn(tail)
    ensures var err := head + [c] + quoted + ['\n'] + tail;
            Refusal(true, err) == Rows(EMPTY) <==> Classify(quoted) != AppError
  {
    hide ClassOf;
    QuotedTextDecides(head, c, quoted, tail);
  }

  lemma {:induction false} Lacks(s: string, sub: string, c: char)
    requires c in sub && c !in s
    ensures !Contains(s, sub)
    decreases |s|
  {
    var i :| 0 <= i < |sub| && sub[i] == c;
    if i < |s| { NotPrefix(s, sub, i); }
    if s != [] { Lacks(s[1..], sub, c); }
  }

  /** Text without the letters d, w, m and z. */
  predicate Free(s: string) {
    forall i :: 0 <= i < |s| ==> LowerChar(s[i]) !in {'d', 'w', 'm', 'z'}
  }

  lemma FreeConcat(a: string, b: string)
    requires Free(a) && Free(b)
    ensures Free(a + b)
  {
  }

  /** It holds no phrase. */
  lemma FreeIsNeutral(s: string)
    requires Free(s)
    ensures Neutral(s) && !MentionsColumn(s)
  {
    hide Contains;
    var m := Lower(s);
    assert NOT_EXIST[0] == 'd' && TABLE[6] == 'w' && VIEW[3] == 'w' && NAME[0] == 'w' && GAP[5] == 'm';
    assert COLUMN[4] == 'm' && KNOB[9] == 'z';
    Lacks(m, NOT_EXIST, 'd');
    Lacks(m, TABLE, 'w');
    Lacks(m, VIEW, 'w');
    Lacks(m, NAME, 'w');
    Lacks(m, GAP, 'm');
    Lacks(m, KNOB, 'z');
    Lacks(m, COLUMN, 'm');
  }

  // A misspelled FROM, as the parser reports it.
  const HEAD := ("Parser Error: " + "syntax error ") + "at or near \"t\"\n\nLINE 1"
  const MISSPELLED := " SELECT '" + GAP + "' FRO t"
  const TAIL := "        ^"

  lemma HeadAndTail()
    ensures Free(HEAD) && Free(TAIL)
  {
    FreeConcat("Parser Error: ", "syntax error ");
    FreeConcat("Parser Error: " + "syntax error ", "at or near \"t\"\n\nLINE 1");
  }

  /** A syntax error that stub mode serves empty. */
  lemma MaskedSyntaxError()
    ensures Refusal(true, HEAD + [':'] + MISSPELLED + ['\n'] + TAIL) == Rows(EMPTY)
  {
    hide Contains, Classify, Neutral, MentionsColumn, Refusal, Free;
    HeadAndTail();
    FreeIsNeutral(HEAD);
    FreeIsNeutral(TAIL);
    assert Lower(GAP) == GAP && Lower(MISSPELLED) == Lower(" SELECT '") + (GAP + Lower("' FRO t"));
    WholeIsContained(GAP);
    ContainsBefore(GAP, Lower("' FRO t"), GAP);
    ContainsAfter(Lower(" SELECT '"), GAP + Lower("' FRO t"), GAP);
    StubMasksIff(HEAD, ':', MISSPELLED, TAIL);
    GapIsMasked(MISSPELLED);
  }

  /** Whatever stands around it, a message that quotes the phrase of a dialect gap is never taken for the
      application's error. */
  lemma QuotedPhraseMasks(before: string, quoted: string, after: string)
    requires Contains(Lower(quoted), GAP) || Contains(Lower(quoted), KNOB)
    ensures Classify(before + quoted + after) != AppError
  {
    hide Contains;
    assert Lower(before + quoted + after) == Lower(before) + (Lower(quoted) + Lower(after));
    var phrase := if Contains(Lower(quoted), GAP) then GAP else KNOB;
    ContainsBefore(Lower(quoted), Lower(after), phrase);
    ContainsAfter(Lower(before), Lower(quoted) + Lower(after), phrase);
  }

  lemma GapIsMasked(s: string)
    requires Contains(Lower(s), GAP)
    ensures Classify(s) != AppError
  {
  }

  lemma WholeIsContained(s: string)
    ensures Contains(s, s)
  {
    assert s[..|s|] == s;
  }

  // ---------- what the driver gives ----------

  /** A scanned value before normalization. */
  datatype Scanned = Plain(v: Value) | Bytes(b: string)

  /** One turn of the cursor: the driver's values, or a failing Scan. */
  datatype Fetch = Fetched(vals: seq<Scanned>) | ScanFails(err: string)

  /** The driver's answer: an error, or the column names (or a failure to give them), the types it
      knows, the rows, and the cursor's own error at the end. */
  datatype Answer =
    | QueryFails(err: string)
    | Cursor(names: Result<seq<string>>, types: seq<string>, rows: seq<Fetch>, ended: Option<string>)

  function Normal(x: Scanned): Value {
    match x case Plain(v) => v case Bytes(b) => Text(b)
  }

  function NormalRow(vals: seq<Scanned>): seq<Value> {
    seq(|vals|, i requires 0 <= i < |vals| => Normal(vals[i]))
  }

  /** A Scan takes as many values as there are column names. */
  predicate Taken(f: Fetch, width: nat) {
    f.Fetched? && |f.vals| == width
  }

  function ScanError(f: Fetch): string {
    if f.ScanFails? then f.err else "sql: unexpected number of destination arguments"
  }

  function Columns(names: seq<string>, types: seq<string>): seq<Column> {
    seq(|names|, i requires 0 <= i < |names| => Column(names[i], if i < |types| then types[i] else ""))
  }

  const EMPTY := QueryResult([], [])

  // ---------- the engine ----------

  datatype LogLine = LogLine(key: string, text: string)

  /** Each key has been logged exactly once. */
  ghost predicate LoggedOnce(logged: set<string>, log: seq<LogLine>) {
    && (forall i, j :: 0 <= i < j < |log| ==> log[i].key != log[j].key)
    && (forall k :: k in logged <==> exists i :: 0 <= i < |log| && log[i].key == k)
  }

  /** The outcome of a text the driver refuses. */
  function Refusal(stub: bool, err: string): Outcome {
    if stub && Classify(err) != AppError then Rows(EMPTY) else Failed(err)
  }

  /** The outcome of a cursor that was read: the rows up to the first that does not scan decide. */
  ghost predicate Buffered(a: Answer, o: Outcome)
    requires a.Cursor?
  {
    match a.names
    case Err(e) => o == Failed(e)
    case Ok(names) =>
      if n: nat :| n < |a.rows| && !Taken(a.rows[n], |names|) && forall j :: 0 <= j < n ==> Taken(a.rows[j], |names|)
      then o == Failed(ScanError(a.rows[n]))
      else
        && (forall j :: 0 <= j < |a.rows| ==> Taken(a.rows[j], |names|))
        && !o.Failed? && |o.res.cols| == |names| && |o.res.rows| == |a.rows|
        && (forall i :: 0 <= i < |names| ==>
              o.res.cols[i] == Column(names[i], if i < |a.types| then a.types[i] else ""))
        && (forall j :: 0 <= j < |a.rows| ==> |o.res.rows[j]| == |names|)
        && (forall j, i :: 0 <= j < |a.rows| && 0 <= i < |names| ==>
              o.res.rows[j][i] == match a.rows[j].vals[i] case Plain(v) => v case Bytes(b) => Text(b))
        && o == if a.ended.Some? then RowsThenError(o.res, a.ended.value) else Rows(o.res)
  }

  class Engine {
    const stub: bool
    var logged: set<string>
    ghost var log: seq<LogLine>
    /** The name a missing-relation message speaks of, by its regular expression. */
    const nameIn: string -> string

    ghost predicate Valid()
      reads this
    {
      LoggedOnce(logged, log)
    }

    /** The engine, once stub mode has been set or left off. */
    constructor (nameIn: string -> string, stub: bool)
      ensures Valid() && this.stub == stub && log == [] && this.nameIn == nameIn
    {
      logged, log := {}, [];
      this.stub := stub;
      this.nameIn := nameIn;
    }

    method LogOnce(key: string, text: string)
      requires Valid()
      modifies this`logged, this`log
      ensures Valid()
      ensures log == if key in old(logged) then old(log) else old(log) + [LogLine(key, text)]
      ensures logged == old(logged) + {key}
    {
      if key in logged {
        assert logged + {key} == logged;
        return;
      }
      logged := logged + {key};
      log := log + [LogLine(key, text)];
      assert log[|log| - 1].key == key;
      forall k | k in logged ensures exists i :: 0 <= i < |log| && log[i].key == k {
        if k != key {
          var i :| 0 <= i < |old(log)| && old(log)[i].key == k;
          assert log[i].key == k;
        }
      }
    }

    /** Failing texts: errors of the application always surface; the others are served empty in stub
        mode. A missing relation is logged in both modes. */
    method Refuse(err: string) returns (o: Outcome)
      requires Valid()
      modifies this`logged, this`log
      ensures Valid() && o == Refusal(stub, err)
      ensures TellsMissing(err) ==> "missing:" + nameIn(err) in logged
      ensures !TellsMissing(err) && TellsGap(err) && stub ==> err in logged
      ensures !TellsMissing(err) && !(TellsGap(err) && stub) ==> log == old(log) && logged == old(logged)
      ensures old(log) <= log && |log| <= |old(log)| + 1
    {
      hide Classify, LoggedOnce, TellsMissing, TellsGap;
      ClassTold(err);
      match Classify(err)
      case MissingRelation =>
        if stub {
          LogOnce("missing:" + nameIn(err), "not found, serving empty");
          return Rows(EMPTY);
        }
        LogOnce("missing:" + nameIn(err), "not found, query will error");
        return Failed(err);
      case DialectGap =>
        if stub {
          LogOnce(err, "fidelity gap, serving empty");
          return Rows(EMPTY);
        }
        return Failed(err);
      case AppError =>
        return Failed(err);
    }

    method RunOn(a: Answer) returns (o: Outcome)
      requires Valid()
      modifies this`logged, this`log
      ensures Valid()
      ensures if a.QueryFails? then o == Refusal(stub, a.err) else Buffered(a, o) && log == old(log)
      ensures a.QueryFails? && TellsMissing(a.err) ==> "missing:" + nameIn(a.err) in logged
      ensures !o.Failed? ==> Rectangular(o.res)
      ensures a.Cursor? && a.ended.Some? ==> !o.Rows?
    {
      hide LoggedOnce;
      if a.QueryFails? {
        o := Refuse(a.err);
        return;
      }
      if a.names.Err? {
        return Failed(a.names.error);
      }
      var names := a.names.value;
      var cols: seq<Column> := [];
      for i := 0 to |names|
        invariant cols == Columns(names, a.types)[..i]
      {
        cols := cols + [Column(names[i], if i < |a.types| then a.types[i] else "")];
      }
      var rows: seq<seq<Value>> := [];
      for j := 0 to |a.rows|
        invariant |rows| == j
        invariant forall k :: 0 <= k < j ==> Taken(a.rows[k], |names|) && rows[k] == NormalRow(a.rows[k].vals)
      {
        var fetch := a.rows[j];
        if fetch.ScanFails? || |fetch.vals| != |names| {
          return Failed(ScanError(fetch));
        }
        var vals := [];
        for i := 0 to |names|
          invariant vals == NormalRow(fetch.vals)[..i]
        {
          vals := vals + [Normal(fetch.vals[i])];
        }
        rows := rows + [vals];
      }
      var res := QueryResult(cols, rows);
      return if a.ended.Some? then RowsThenError(res, a.ended.value) else Rows(res);
    }
  }
}
