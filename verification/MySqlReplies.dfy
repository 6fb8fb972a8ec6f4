/** How the MySQL connection answers each command, on the bytes of the statement and the values of the
    result. */
module MySqlReplies {
  import opened Basics
  import Decimal
  import opened Results
  import opened Fidelity
  import opened Reporting
  import opened Words
  import opened MySqlRewrite
  import opened MySqlSession

  // ---------- SHOW WARNINGS ----------

  predicate NoWhite(w: string) {
    w != "" && forall i :: 0 <= i < |w| ==> !White(w[i])
  }

  lemma {:induction false} LeadingWhite(a: string, rest: string)
    requires AllWhite(a, 0, |a|)
    ensures TrimLeft(a + rest, IsSpace) == TrimLeft(rest, IsSpace)
    decreases |a|
  {
    if a == [] {
      assert a + rest == rest;
    } else {
      assert (a + rest)[1..] == a[1..] + rest;
      LeadingWhite(a[1..], rest);
    }
  }

  lemma WordsStep(s: string, t: string, w: string)
    requires TrimLeft(s, IsSpace) == t != "" && Until(t, IsSpace) == w != "" && |t| <= |s| && |w| <= |t|
    ensures WordsOf(s) == [w] + WordsOf(t[|w|..])
  {
    hide TrimLeft, Until;
  }

  /** The words of a text are its longest runs without white space. */
  lemma FirstOfWords(a: string, w: string, rest: string)
    requires AllWhite(a, 0, |a|) && NoWhite(w) && (rest == "" || White(rest[0]))
    ensures WordsOf(a + w + rest) == [w] + WordsOf(rest)
    ensures WordsOf(a) == []
  {
    hide WordsOf, Until;
    var t := w + rest;
    assert a + w + rest == a + t && a + [] == a;
    LeadingWhite(a, t);
    LeadingWhite(a, []);
    assert t[0] == w[0];
    assert TrimLeft(t, IsSpace) == t;
    assert t[..|w|] == w && t[|w|..] == rest;
    UntilIs(t, w, IsSpace);
    WordsStep(a + t, t, w);
    BlankHasNoWords(a);
  }

  lemma BlankHasNoWords(a: string)
    requires TrimLeft(a, IsSpace) == ""
    ensures WordsOf(a) == []
  {
    hide TrimLeft;
  }

  /** The statement is SHOW WARNINGS by its words: nothing after them, or one semicolon, or anything
      after white space. */
  predicate IsShow(words: seq<string>) {
    |words| >= 2 && SameLetters(words[0], "SHOW")
    && (SameLetters(words[1], "WARNINGS") || (|words| == 2 && SameLetters(words[1], "WARNINGS;")))
  }

  predicate WhiteFree(words: seq<string>) {
    forall k :: 0 <= k < |words| ==> NoWhite(words[k])
  }

  lemma {:induction false} WordsWhiteFree(s: string)
    ensures WhiteFree(WordsOf(s))
    decreases |s|
  {
    var t := TrimLeft(s, IsSpace);
    TrimLeftShrinks(s);
    if t != [] {
      var w := Until(t, IsSpace);
      UntilPrefix(t);
      UntilIs(t, w, IsSpace);
      if w != [] { WordsWhiteFree(t[|w|..]); }
    }
  }

  /** The byte where the first word ends. */
  lemma SpacedSplit(words: seq<string>)
    requires |words| >= 2
    ensures var u := Spaced(words);
            && |u| > |words[0]| && u[..|words[0]|] == words[0] && u[|words[0]|] == ' '
            && u[|words[0]| + 1..] == Spaced(words[1..])
  {
    var rest := Spaced(words[1..]);
    assert Spaced(words) == words[0] + " " + rest;
  }

  lemma ShowIsTold(q: string)
    ensures IsShowWarnings(q) <==> IsShow(WordsOf(q))
  {
    hide WordsOf, Spaced;
    var words := WordsOf(q);
    WordsWhiteFree(q);
    ShowByWords(words);
  }

  /** `isShowWarnings` on the words joined by single blanks. */
  predicate ShowText(joined: string) {
    var u := Upper(joined);
    var v := if u != [] && u[|u| - 1] == ';' then u[..|u| - 1] else u;
    v == "SHOW WARNINGS" || "SHOW WARNINGS " <= v
  }

  lemma ShowByWords(words: seq<string>)
    requires WhiteFree(words)
    ensures ShowText(Spaced(words)) <==> IsShow(words)
  {
    hide Upper;
    var u := Spaced(words);
    if |words| <= 1 {
      OneWordNoBlank(words);
      if ShowText(u) { ShowTextHead(u); }
    } else {
      SpacedSplit(words);
      var w, rest := words[0], Spaced(words[1..]);
      assert u == w + " " + rest;
      ShowSplit(w, rest);
      if |words| == 2 {
        OneWordNoBlank(words[1..]);
        RestIsWord(words[1]);
      } else {
        SpacedSplit(words[1..]);
        RestIsMore(words[1], Spaced(words[2..]), rest);
      }
    }
  }

  lemma OneWordNoBlank(words: seq<string>)
    requires |words| <= 1 && WhiteFree(words)
    ensures Spaced(words) == (if words == [] then "" else words[0]) && ' ' !in Spaced(words)
  {
  }

  lemma ShowTextHead(u: string)
    requires ShowText(u)
    ensures |u| >= 13 && SameLetters(u[..13], "SHOW WARNINGS") && u[4] == ' '
    ensures forall i :: 0 <= i < 4 ==> u[i] != ' '
  {
    assert Upper(u)[..13] == "SHOW WARNINGS";
    forall i | 0 <= i < 13 ensures SameLetter(u[i], "SHOW WARNINGS"[i]) {
      assert Upper(u)[i] == "SHOW WARNINGS"[i];
    }
    assert SameLetter(u[4], ' ');
  }

  lemma WordEndsBy(w: string, u: string, k: nat)
    requires w <= u && NoWhite(w) && k < |u| && u[k] == ' '
    ensures |w| <= k
  {
    assert forall i :: 0 <= i < |w| ==> u[i] == w[i];
  }

  /** After SHOW and a blank: what may follow. */
  predicate WarningsText(rest: string) {
    && |rest| >= 8 && SameLetters(rest[..8], "WARNINGS")
    && (|rest| == 8 || rest[8] == ' ' || (|rest| == 9 && rest[8] == ';'))
  }

  lemma ShowSplit(w: string, rest: string)
    requires NoWhite(w)
    ensures ShowText(w + " " + rest) <==> SameLetters(w, "SHOW") && WarningsText(rest)
  {
    var u := w + " " + rest;
    if ShowText(u) {
      ShowTextHead(u);
      assert u[|w|] == ' ';
      WordEndsBy(w, u, 4);
      assert |w| == 4;
      assert w == u[..13][..4];
      assert rest[..8] == u[..13][5..];
      ShowTail(u, rest);
    }
    if SameLetters(w, "SHOW") && WarningsText(rest) {
      ShowBuilt(w, rest);
    }
  }

  lemma ShowTail(u: string, rest: string)
    requires |u| >= 13 && u[5..] == rest && ShowText(u) && |rest| >= 8
    ensures |rest| == 8 || rest[8] == ' ' || (|rest| == 9 && rest[8] == ';')
  {
    var up := Upper(u);
    if |rest| > 8 {
      assert up[13] == UpperChar(rest[8]);
    }
  }

  lemma ShowBuilt(w: string, rest: string)
    requires SameLetters(w, "SHOW") && WarningsText(rest)
    ensures ShowText(w + " " + rest)
  {
    var u := w + " " + rest;
    var up := Upper(u);
    forall i | 0 <= i < 13 ensures up[i] == "SHOW WARNINGS"[i] {
      if i < 4 {
        assert u[i] == w[i];
      } else if i > 4 {
        assert u[i] == rest[..8][i - 5];
      }
    }
    assert up[..13] == "SHOW WARNINGS";
    if |rest| > 8 {
      assert up[13] == UpperChar(rest[8]);
      if rest[8] == ' ' { assert up[..14] == "SHOW WARNINGS "; }
    }
  }

  lemma RestIsWord(w: string)
    requires NoWhite(w)
    ensures WarningsText(w) <==> SameLetters(w, "WARNINGS") || SameLetters(w, "WARNINGS;")
  {
    if |w| >= 8 { assert w[..8] + w[8..] == w; }
  }

  lemma RestIsMore(w: string, more: string, rest: string)
    requires NoWhite(w) && rest == w + " " + more
    ensures WarningsText(rest) <==> SameLetters(w, "WARNINGS")
  {
    assert rest[|w|] == ' ';
    if WarningsText(rest) {
      assert forall i :: 0 <= i < 8 ==> SameLetter(rest[..8][i], "WARNINGS"[i]) && rest[i] != ' ';
      assert rest[8] == ' ';
      WordEndsBy(w, rest, 8);
      assert rest[..8] == w;
    }
    if SameLetters(w, "WARNINGS") {
      assert rest[..8] == w;
    }
  }

  // ---------- refused statements ----------

  /** The text the engine gets. */
  function Sent(c: Command): string {
    match c
    case Query(query) => Requote(query, false)
    case StmtExecute(query, args) => Requote(Inline(query, Outside, args), false)
  }

  const SESSION_WORDS := ["SET", "USE", "BEGIN", "START", "COMMIT", "ROLLBACK"]

  /** The text is one of the session keywords, alone or before a blank, a tab or a line break. */
  predicate IsSessionText(q: string) {
    exists k :: 0 <= k < |SESSION_WORDS| && LeadsWith(q, SESSION_WORDS[k], EndsWord)
  }

  lemma TrimsOnce(s: string, i: nat, t: string, j: nat, u: string)
    requires Trims(s, i, t) && Trims(s, j, u)
    ensures t == u
  {
    assert t != "" ==> t[0] == s[i] && t[|t| - 1] == s[i + |t| - 1];
    assert u != "" ==> u[0] == s[j] && u[|u| - 1] == s[j + |u| - 1];
  }

  lemma TrimsToSpace(s: string, i: nat, t: string)
    requires Trims(s, i, t)
    ensures t == TrimSpace(s)
  {
    hide TrimSpace;
    var j := TrimSpaceParts(s);
    TrimsOnce(s, i, t, j, TrimSpace(s));
  }

  lemma SessionWords(word: string)
    ensures IsSessionNoop(word) <==> word in SESSION_WORDS
  {
  }

  lemma SessionWordIs(q: string)
    ensures IsSessionNoop(FirstWord(q)) <==> IsSessionText(q)
  {
    hide Until, Upper;
    forall k | 0 <= k < |SESSION_WORDS|
      ensures FirstWord(q) == SESSION_WORDS[k] <==> LeadsWith(q, SESSION_WORDS[k], EndsWord)
    {
      LeadingWord(q, SESSION_WORDS[k], EndsWord);
    }
    SessionWords(FirstWord(q));
    assert FirstWord(q) in SESSION_WORDS <==> exists k :: 0 <= k < |SESSION_WORDS| && FirstWord(q) == SESSION_WORDS[k];
  }

  /** Every statement that the engine refuses, unless it is blank or SHOW WARNINGS, is answered with zero
      rows affected if its trimmed text is one of the session keywords, and with the engine's error
      otherwise; the warnings stay. */
  lemma RefusedReply<D>(env: Env<D>, s: State<D>, c: Command, i: nat, q: string)
    requires Trims(Sent(c), i, q) && q != "" && !IsShow(WordsOf(q)) && !env.eval(s.db, Sent(c)).0.Rows?
    ensures var (reply, t) := Step(env, s, c);
            && reply == (if IsSessionText(q) then Affected(0) else Refused(env.eval(s.db, Sent(c)).0.err))
            && t.warnings == s.warnings && t.db == env.eval(s.db, Sent(c)).1
  {
    hide Requote, Inline, TrimSpace, FirstWord, IsSessionNoop, IsSessionText, IsShow, IsShowWarnings, WordsOf;
    TrimsToSpace(Sent(c), i, q);
    ShowIsTold(q);
    SessionWordIs(q);
  }

  /** A blank text is answered with zero rows affected and reaches nothing. */
  lemma BlankReply<D>(env: Env<D>, s: State<D>, c: Command, i: nat)
    requires Trims(Sent(c), i, "")
    ensures Step(env, s, c) == (Affected(0), s)
  {
    hide Requote, Inline, TrimSpace, FirstWord, IsShowWarnings;
    TrimsToSpace(Sent(c), i, "");
  }

  /** One warning of code 1105 per kept line. */
  predicate ListsWarnings(lines: seq<string>, rows: seq<seq<Value>>) {
    && |rows| == |lines|
    && forall k :: 0 <= k < |lines| ==>
         rows[k] == [Value.Text("Warning"), Int64(1105), Value.Text("spoofdb: " + lines[k])]
  }

  /** SHOW WARNINGS reads the kept lines back, in the text encoding, and reaches nothing. */
  lemma ShowReply<D>(env: Env<D>, s: State<D>, c: Command, i: nat, q: string, rows: seq<seq<Value>>)
    requires Trims(Sent(c), i, q) && IsShow(WordsOf(q)) && ListsWarnings(s.warnings, rows)
    ensures var names := ["Level", "Code", "Message"];
            Step(env, s, c) ==
            (match env.build(names, rows, false)
             case Some(e) => Refused(e)
             case None => ResultSet(names, rows, false, 0),
             s)
  {
    assert rows == WarningRows(s.warnings);
    hide Requote, Inline, TrimSpace, FirstWord, IsShow, IsShowWarnings, ShowWarnings;
    TrimsToSpace(Sent(c), i, q);
    ShowIsTold(q);
    EmptyHasNoWords();
    assert q != "" by { ShowHasWords(q); }
  }

  lemma EmptyHasNoWords()
    ensures WordsOf("") == []
  {
    assert TrimLeft("", IsSpace) == "";
  }

  lemma ShowHasWords(q: string)
    requires IsShow(WordsOf(q))
    ensures q != ""
  {
    hide WordsOf;
    EmptyHasNoWords();
  }

  // ---------- accepted statements ----------

  /** The value go-mysql is given for a value of the result. */
  predicate Shows(v: Value, w: Value) {
    match v
    case Bool(b) => w == Int64(if b then 1 else 0)
    case Big(n) => w == Value.Text(Decimal.Format(n))
    case Other(text) => w == Value.Text(text)
    case _ => w == v
  }

  predicate ShowsRows(rows: seq<seq<Value>>, values: seq<seq<Value>>) {
    && |values| == |rows|
    && (forall j :: 0 <= j < |rows| ==> |values[j]| == |rows[j]|)
    && (forall j, i :: 0 <= j < |rows| && 0 <= i < |rows[j]| ==> Shows(rows[j][i], values[j][i]))
  }

  predicate NamesColumns(cols: seq<Column>, names: seq<string>) {
    |names| == |cols| && forall i :: 0 <= i < |cols| ==> names[i] == cols[i].name
  }

  lemma ShownRows(codec: Codec, rows: seq<seq<Value>>, values: seq<seq<Value>>)
    requires ShowsRows(rows, values)
    ensures CoerceRows(codec, rows) == values
  {
    var coerced := CoerceRows(codec, rows);
    forall j | 0 <= j < |rows| ensures coerced[j] == values[j] {
      assert coerced[j] == CoerceRow(codec, rows[j]);
      forall i | 0 <= i < |rows[j]| ensures CoerceRow(codec, rows[j])[i] == values[j][i] {
        assert Shows(rows[j][i], values[j][i]);
      }
    }
  }

  lemma RecordedSize(res: QueryResult)
    ensures |Recorded(res)| == |set p | p in Adds(RULES, res)|
  {
    hide NotesOf, AddsUpTo, Listing;
    MySqlReasonsClean();
    AddsClean(RULES, res, |res.cols|);
    ReportIsFaithful(Adds(RULES, res));
  }

  lemma MySqlReasonsClean()
    ensures CleanRules(RULES)
  {
    forall t | TypeNote(t).Some? ensures NulFree(TypeNote(t).value) {
    }
  }

  /** A statement the engine accepts: the number of rows if the result has no columns; otherwise its
      columns and values, in the binary encoding exactly for a prepared execution, with the number of
      distinct approximations, which SHOW WARNINGS will list; or the library's error. */
  lemma AcceptedReply<D>(env: Env<D>, s: State<D>, c: Command, i: nat, q: string,
                         names: seq<string>, values: seq<seq<Value>>)
    requires Trims(Sent(c), i, q) && q != "" && !IsShow(WordsOf(q)) && env.eval(s.db, Sent(c)).0.Rows?
    requires var res := env.eval(s.db, Sent(c)).0.res; NamesColumns(res.cols, names) && ShowsRows(res.rows, values)
    ensures var res := env.eval(s.db, Sent(c)).0.res;
            var count := |set p | p in Adds(RULES, res)|;
            var (reply, t) := Step(env, s, c);
            && t.db == env.eval(s.db, Sent(c)).1
            && if res.cols == [] then reply == Affected(|res.rows|) && t.warnings == []
               else
                 match env.build(names, values, c.StmtExecute?)
                 case Some(e) => reply == Refused(e) && t.warnings == []
                 case None =>
                   reply == ResultSet(names, values, c.StmtExecute?, count % 0x1_0000) && |t.warnings| == count
  {
    hide Requote, Inline, TrimSpace, FirstWord, IsShow, IsShowWarnings, WordsOf, Recorded, AddsUpTo, CoerceRows;
    TrimsToSpace(Sent(c), i, q);
    ShowIsTold(q);
    var res := env.eval(s.db, Sent(c)).0.res;
    ShownRows(env.codec, res.rows, values);
    assert ColumnNames(res) == names;
    RecordedSize(res);
  }

  /** A type is noted exactly if its values are given another form: booleans, decimals and the two
      128-bit integers. */
  lemma NotedTypes(t: DuckType)
    ensures TypeNote(t) ==
            if t == Boolean then Some("BOOLEAN shown as integer 0/1")
            else if t == Decimal then Some("DECIMAL shown as text")
            else if t == HugeInt then Some("HUGEINT shown as text")
            else if t == UHugeInt then Some("UHUGEINT shown as text")
            else None
  {
    assert "DECIMAL" + AS_TEXT == "DECIMAL shown as text";
    assert "HUGEINT" + AS_TEXT == "HUGEINT shown as text";
    assert "UHUGEINT" + AS_TEXT == "UHUGEINT shown as text";
  }
}
