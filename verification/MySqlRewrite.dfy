/** The MySQL rewriters of internal/mysql/handler.go: `?` arguments inlined as literals, then backtick
    identifiers turned into double-quoted ones. */
module MySqlRewrite {
  import opened Basics
  import opened Decimal

  /** Some text without a quote or a dollar sign: what FormatFloat and a formatted time produce. */
  type Unquoted = s: string | s != "" && NoQuotes(s) && '$' !in s witness "0"

  predicate IsQuote(c: char) {
    c == '\'' || c == '"' || c == '`'
  }

  predicate NoQuotes(s: string) {
    forall i :: 0 <= i < |s| ==> !IsQuote(s[i])
  }

  /** An argument of a prepared statement, by the case of `quoteArg` that takes it. `Text` stands for
      a string, a byte slice, and any other value as fmt.Sprint prints it. */
  datatype Arg =
    | Null
    | Int(n: int)
    | Float(text: Unquoted)
    | Bool(b: bool)
    | Time(text: Unquoted)
    | Text(s: string)

  function QuoteArg(a: Arg): string {
    match a
    case Null => "NULL"
    case Int(n) => Format(n)
    case Float(t) => t
    case Bool(b) => if b then "1" else "0"
    case Time(t) => ['\''] + t + ['\'']
    case Text(s) => Literal(s)
  }

  // ---------- substituteArgs ----------

  /** `Escaped(q)`: inside a `q` literal, just after a backslash. */
  datatype Mode = Outside | Inside(q: char) | Escaped(q: char)

  function Next(m: Mode, c: char): Mode {
    match m
    case Outside => if IsQuote(c) then Inside(c) else Outside
    case Inside(q) => if c == '\\' then Escaped(q) else if c == q then Outside else m
    case Escaped(q) => Inside(q)
  }

  /** `s`, read from mode `m`, with each `?` met outside literals replaced by the next argument. */
  function Inline(s: string, m: Mode, args: seq<Arg>): string {
    if s == [] then []
    else if m.Outside? && s[0] == '?' && args != [] then
      QuoteArg(args[0]) + Inline(s[1..], Outside, args[1..])
    else [s[0]] + Inline(s[1..], Next(m, s[0]), args)
  }

  lemma Append(a: string, b: string, c: string)
    ensures a + (b + c) == (a + b) + c
  {
  }

  lemma InlineByte(s: string, i: nat, m: Mode, args: seq<Arg>, out: string)
    requires i < |s| && !(m.Outside? && s[i] == '?' && args != [])
    ensures out + Inline(s[i..], m, args) == (out + [s[i]]) + Inline(s[i + 1..], Next(m, s[i]), args)
  {
    assert s[i..][1..] == s[i + 1..];
    Append(out, [s[i]], Inline(s[i + 1..], Next(m, s[i]), args));
  }

  lemma InlineArg(s: string, i: nat, args: seq<Arg>, out: string)
    requires i < |s| && s[i] == '?' && args != []
    ensures out + Inline(s[i..], Outside, args) == (out + QuoteArg(args[0])) + Inline(s[i + 1..], Outside, args[1..])
  {
    assert s[i..][1..] == s[i + 1..];
    Append(out, QuoteArg(args[0]), Inline(s[i + 1..], Outside, args[1..]));
  }

  lemma {:induction false} InlineNone(s: string, m: Mode)
    ensures Inline(s, m, []) == s
  {
    if s != [] { InlineNone(s[1..], Next(m, s[0])); }
  }

  method SubstituteArgs(query: string, args: seq<Arg>) returns (out: string)
    ensures out == Inline(query, Outside, args)
  {
    if |args| == 0 {
      InlineNone(query, Outside);
      return query;
    }
    hide Inline, QuoteArg;
    out := [];
    var ai := 0;
    var quote := Outside;
    var i := 0;
    assert query[0..] == query && args[0..] == args;
    while i < |query|
      invariant 0 <= i <= |query| && 0 <= ai <= |args|
      invariant quote.Outside? || (quote.Inside? && IsQuote(quote.q))
      invariant Inline(query, Outside, args) == out + Inline(query[i..], quote, args[ai..])
    {
      var c := query[i];
      if quote.Inside? {
        InlineByte(query, i, quote, args[ai..], out);
        out := out + [c];
        if c == '\\' && i + 1 < |query| { // the escaped byte is copied as it is
          i := i + 1;
          InlineByte(query, i, Escaped(quote.q), args[ai..], out);
          out := out + [query[i]];
        } else if c == '\\' {
          LastByte(query, i, quote, Next(quote, c), args[ai..]);
        } else if c == quote.q {
          quote := Outside;
        }
      } else if IsQuote(c) {
        InlineByte(query, i, quote, args[ai..], out);
        quote := Inside(c);
        out := out + [c];
      } else if c == '?' && ai < |args| {
        InlineArg(query, i, args[ai..], out);
        assert args[ai..][1..] == args[ai + 1..];
        out := out + QuoteArg(args[ai]);
        ai := ai + 1;
      } else {
        InlineByte(query, i, quote, args[ai..], out);
        out := out + [c];
      }
      i := i + 1;
    }
    Finished(query, quote, args[ai..], out);
  }

  /** After the last byte the mode no longer matters. */
  lemma LastByte(s: string, i: nat, m: Mode, m1: Mode, args: seq<Arg>)
    requires i + 1 == |s|
    ensures Inline(s[i + 1..], m, args) == Inline(s[i + 1..], m1, args)
  {
  }

  lemma Finished(s: string, m: Mode, args: seq<Arg>, out: string)
    ensures out + Inline(s[|s|..], m, args) == out
  {
  }

  // ---------- backticksToQuotes ----------

  function RequoteByte(c: char, inStr: bool): char {
    if c == '`' && !inStr then '"' else c
  }

  function Toggle(inStr: bool, c: char): bool {
    if c == '\'' then !inStr else inStr
  }

  function Requote(s: string, inStr: bool): string {
    if s == [] then []
    else [RequoteByte(s[0], inStr)] + Requote(s[1..], Toggle(inStr, s[0]))
  }

  lemma RequoteAt(s: string, i: nat, inStr: bool, out: string)
    requires i < |s|
    ensures out + Requote(s[i..], inStr) ==
            (out + [RequoteByte(s[i], inStr)]) + Requote(s[i + 1..], Toggle(inStr, s[i]))
  {
    assert s[i..][1..] == s[i + 1..];
    Append(out, [RequoteByte(s[i], inStr)], Requote(s[i + 1..], Toggle(inStr, s[i])));
  }

  lemma {:induction false} RequoteWithoutBackticks(s: string, inStr: bool)
    requires '`' !in s
    ensures Requote(s, inStr) == s
  {
    if s != [] { RequoteWithoutBackticks(s[1..], Toggle(inStr, s[0])); }
  }

  method BackticksToQuotes(q: string) returns (out: string)
    ensures out == Requote(q, false)
  {
    if '`' !in q {
      RequoteWithoutBackticks(q, false);
      return q;
    }
    hide Requote;
    out := [];
    var inStr := false;
    var i := 0;
    assert q[0..] == q;
    while i < |q|
      invariant 0 <= i <= |q|
      invariant Requote(q, false) == out + Requote(q[i..], inStr)
    {
      var c := q[i];
      RequoteAt(q, i, inStr, out);
      if c == '\'' {
        inStr := !inStr;
        out := out + [c];
      } else if c == '`' && !inStr {
        out := out + ['"'];
      } else {
        out := out + [c];
      }
      i := i + 1;
    }
    RequoteNothing(q, inStr, out);
  }

  lemma RequoteNothing(s: string, inStr: bool, out: string)
    ensures out + Requote(s[|s|..], inStr) == out
  {
  }

  /** The rewrite changes no length, touches only backticks, and a second rewrite changes nothing. */
  lemma {:induction false} RequoteStable(s: string, inStr: bool)
    ensures |Requote(s, inStr)| == |s|
    ensures forall i :: 0 <= i < |s| && s[i] != '`' ==> Requote(s, inStr)[i] == s[i]
    ensures Requote(Requote(s, inStr), inStr) == Requote(s, inStr)
  {
    if s != [] {
      var rest := Requote(s[1..], Toggle(inStr, s[0]));
      RequoteStable(s[1..], Toggle(inStr, s[0]));
      assert Requote(s, inStr)[1..] == rest;
      forall i | 0 <= i < |s| && s[i] != '`' ensures Requote(s, inStr)[i] == s[i] {
        if i > 0 { assert s[1..][i - 1] == s[i] && rest[i - 1] == Requote(s, inStr)[i]; }
      }
    }
  }

  // ---------- what an inlined argument does to the backtick rewrite ----------

  /** Read from outside a string, an argument's text comes through the backtick rewrite unchanged, and
      the text after it is again read from outside: backticks, `?` and quotes in values survive. */
  lemma ArgSurvivesRequote(a: Arg, rest: string)
    ensures Requote(QuoteArg(a) + rest, false) == QuoteArg(a) + Requote(rest, false)
  {
    match a
    case Null => NoQuotesRequote("NULL", rest, false);
    case Int(n) =>
      FormatNoQuotes(n);
      NoQuotesRequote(Format(n), rest, false);
    case Float(t) => NoQuotesRequote(t, rest, false);
    case Bool(b) => NoQuotesRequote(if b then "1" else "0", rest, false);
    case Time(t) =>
      NoQuotesRequote(t, ['\''] + rest, true);
      QuotedRequote(t, rest);
    case Text(s) =>
      DoubledRequote(s, ['\''] + rest);
      QuotedRequote(Double(s, '\''), rest);
  }

  lemma RequoteCons(c: char, t: string, inStr: bool)
    ensures Requote([c] + t, inStr) == [RequoteByte(c, inStr)] + Requote(t, Toggle(inStr, c))
  {
    assert ([c] + t)[1..] == t;
  }

  lemma QuotedRequote(body: string, rest: string)
    requires Requote(body + (['\''] + rest), true) == body + Requote(['\''] + rest, true)
    ensures Requote(['\''] + body + ['\''] + rest, false) == ['\''] + body + ['\''] + Requote(rest, false)
  {
    hide Requote;
    RequoteCons('\'', body + (['\''] + rest), false);
    RequoteCons('\'', rest, true);
    assert ['\''] + body + ['\''] + rest == ['\''] + (body + (['\''] + rest));
  }

  lemma {:induction false} NoQuotesRequote(t: string, rest: string, inStr: bool)
    requires NoQuotes(t)
    ensures Requote(t + rest, inStr) == t + Requote(rest, inStr)
  {
    if t == [] {
      assert t + rest == rest;
    } else {
      NoQuotesRequote(t[1..], rest, inStr);
      assert (t + rest)[1..] == t[1..] + rest;
    }
  }

  lemma {:induction false} DoubledRequote(v: string, rest: string)
    ensures Requote(Double(v, '\'') + rest, true) == Double(v, '\'') + Requote(rest, true)
  {
    hide Requote;
    if v == [] {
      assert Double(v, '\'') + rest == rest;
      assert Double(v, '\'') + Requote(rest, true) == Requote(rest, true);
    } else {
      var d := Double(v[1..], '\'');
      DoubledRequote(v[1..], rest);
      RequoteCons(v[0], d + rest, true);
      if v[0] == '\'' {
        RequoteCons('\'', d + rest, false);
        RequoteCons('\'', ['\''] + (d + rest), true);
        assert Double(v, '\'') + rest == ['\''] + (['\''] + (d + rest));
        assert ['\''] + (['\''] + (d + Requote(rest, true))) == Double(v, '\'') + Requote(rest, true);
      } else {
        Append([v[0]], d, rest);
        Append([v[0]], d, Requote(rest, true));
      }
    }
  }

  lemma {:induction false} DigitsNoQuotes(n: nat)
    ensures NoQuotes(Digits(n))
  {
    if n >= 10 { DigitsNoQuotes(n / 10); }
  }

  lemma FormatNoQuotes(n: int)
    ensures NoQuotes(Format(n))
  {
    DigitsNoQuotes(if n < 0 then -n else n);
  }

  // ---------- when inlining and the backtick rewrite commute ----------

  /** One scan of the query, with three machines side by side: `m` reads it as the argument scanner
      does, `u` as the backtick rewrite does, and `v` reads the rewritten query as the argument
      scanner would. At every `?` the two argument scanners must agree whether it is a placeholder,
      and at a placeholder the backtick rewrite must not believe itself inside a string. */
  predicate Aligned(s: string, m: Mode, v: Mode, u: bool) {
    s == [] ||
    (&& (s[0] == '?' ==> (m.Outside? <==> v.Outside?) && (m.Outside? ==> !u))
     && Aligned(s[1..], Next(m, s[0]), Next(v, RequoteByte(s[0], u)), Toggle(u, s[0])))
  }

  lemma InlineCons(c: char, t: string, m: Mode, args: seq<Arg>)
    ensures Inline([c] + t, m, args) ==
            if m.Outside? && c == '?' && args != [] then QuoteArg(args[0]) + Inline(t, Outside, args[1..])
            else [c] + Inline(t, Next(m, c), args)
  {
    assert ([c] + t)[1..] == t;
  }

  lemma {:induction false} AlignedCommutes(s: string, m: Mode, v: Mode, u: bool, args: seq<Arg>)
    requires Aligned(s, m, v, u)
    ensures Requote(Inline(s, m, args), u) == Inline(Requote(s, u), v, args)
  {
    hide QuoteArg, Inline, Requote;
    if s == [] {
      Empties(m, v, u, args);
    } else {
      var c, t := s[0], s[1..];
      var c', u' := RequoteByte(c, u), Toggle(u, c);
      assert s == [c] + t;
      InlineCons(c, t, m, args);
      RequoteCons(c, t, u);
      InlineCons(c', Requote(t, u'), v, args);
      if m.Outside? && c == '?' && args != [] {
        AlignedCommutes(t, Outside, Outside, u, args[1..]);
        ArgSurvivesRequote(args[0], Inline(t, Outside, args[1..]));
      } else {
        AlignedCommutes(t, Next(m, c), Next(v, c'), u', args);
        RequoteCons(c, Inline(t, Next(m, c), args), u);
      }
    }
  }

  lemma Empties(m: Mode, v: Mode, u: bool, args: seq<Arg>)
    ensures Inline([], m, args) == [] && Requote([], u) == [] && Inline([], v, args) == []
  {
  }

  /** An argument whose text the backtick rewrite changes when it reads it from inside a string. */
  const TICK: Arg := Text("`")

  lemma TickText(rest: string, u: bool)
    ensures QuoteArg(TICK) == ['\'', '`', '\'']
    ensures Requote(QuoteArg(TICK) + rest, u) == ['\'', if u then '"' else '`', '\''] + Requote(rest, u)
  {
    assert Double("`", '\'') == "`" by { assert "`"[1..] == ""; }
    hide Requote;
    RequoteCons('\'', ['`'] + (['\''] + rest), u);
    RequoteCons('`', ['\''] + rest, !u);
    RequoteCons('\'', rest, !u);
    assert QuoteArg(TICK) + rest == ['\''] + (['`'] + (['\''] + rest));
  }

  predicate AllTicks(args: seq<Arg>) {
    forall i :: 0 <= i < |args| ==> args[i] == TICK
  }

  lemma {:induction false} MisalignedDiffers(s: string, m: Mode, v: Mode, u: bool, args: seq<Arg>)
    requires !Aligned(s, m, v, u) && AllTicks(args) && |args| >= |s|
    ensures Requote(Inline(s, m, args), u) != Inline(Requote(s, u), v, args)
  {
    hide QuoteArg, Inline, Requote;
    var c, t := s[0], s[1..];
    var c', u' := RequoteByte(c, u), Toggle(u, c);
    assert s == [c] + t;
    InlineCons(c, t, m, args);
    RequoteCons(c, t, u);
    InlineCons(c', Requote(t, u'), v, args);
    var left, right := Requote(Inline(s, m, args), u), Inline(Requote(s, u), v, args);
    TickText(Inline(t, Outside, args[1..]), u);
    if c == '?' && m.Outside? && v.Outside? {
      if u {
        assert left[1] == '"' && right[1] == '`';
      } else {
        MisalignedDiffers(t, Outside, Outside, u, args[1..]);
        assert left[3..] == Requote(Inline(t, Outside, args[1..]), u);
        assert right[3..] == Inline(Requote(t, u), Outside, args[1..]);
      }
    } else if c == '?' && m.Outside? {
      assert left[0] == '\'' && right[0] == '?';
    } else {
      RequoteCons(c, Inline(t, Next(m, c), args), u);
      if c == '?' && v.Outside? {
        assert left[0] == '?' && right[0] == '\'';
      } else {
        MisalignedDiffers(t, Next(m, c), Next(v, c'), u', args);
        assert left[1..] == Requote(Inline(t, Next(m, c), args), u');
        assert right[1..] == Inline(Requote(t, u'), Next(v, c'), args);
      }
    }
  }

  ghost predicate Commutes(query: string, args: seq<Arg>) {
    Requote(Inline(query, Outside, args), false) == Inline(Requote(query, false), Outside, args)
  }

  /** Inlining the arguments and then rewriting backticks is the same as rewriting the query's own
      backticks first, for every argument list, exactly for the aligned queries. */
  lemma InliningCommutes(query: string)
    ensures Aligned(query, Outside, Outside, false) <==> forall args :: Commutes(query, args)
  {
    if Aligned(query, Outside, Outside, false) {
      forall args ensures Commutes(query, args) {
        AlignedCommutes(query, Outside, Outside, false, args);
      }
    } else {
      var ticks := seq(|query|, _ => TICK);
      MisalignedDiffers(query, Outside, Outside, false, ticks);
      assert !Commutes(query, ticks);
    }
  }

  /** Ordinary quoting: no backslash inside a literal, no other quote byte inside a "..." or `...`
      identifier. */
  predicate PlainQuoting(s: string, m: Mode) {
    s == [] ||
    (&& (m.Inside? ==> s[0] != '\\')
     && (m.Inside? && m.q != '\'' && s[0] != m.q ==> !IsQuote(s[0]))
     && PlainQuoting(s[1..], Next(m, s[0])))
  }

  lemma {:induction false} PlainQuotingAligns(s: string, m: Mode, v: Mode, u: bool)
    requires PlainQuoting(s, m) && !m.Escaped?
    requires m.Outside? ==> v == Outside && !u
    requires m == Inside('\'') ==> v == m && u
    requires m.Inside? && m.q != '\'' ==> IsQuote(m.q) && v == Inside('"') && !u
    ensures Aligned(s, m, v, u)
  {
    if s != [] {
      PlainQuotingAligns(s[1..], Next(m, s[0]), Next(v, RequoteByte(s[0], u)), Toggle(u, s[0]));
    }
  }

  /** So for an ordinarily quoted query the engine gets the query's own rewrite with the arguments'
      literals inlined as they are, whatever bytes the arguments hold. */
  lemma PlainQueriesCommute(query: string, args: seq<Arg>)
    requires PlainQuoting(query, Outside)
    ensures Commutes(query, args)
  {
    PlainQuotingAligns(query, Outside, Outside, false);
    AlignedCommutes(query, Outside, Outside, false, args);
  }

  /** HandleStmtExecute up to the engine: the text that is run. */
  method StatementText(query: string, args: seq<Arg>) returns (sql: string)
    ensures sql == Requote(Inline(query, Outside, args), false)
    ensures PlainQuoting(query, Outside) ==> sql == Inline(Requote(query, false), Outside, args)
  {
    var text := SubstituteArgs(query, args);
    sql := BackticksToQuotes(text);
    if PlainQuoting(query, Outside) { PlainQueriesCommute(query, args); }
  }

  // ---------- the placeholder count a prepare reports ----------

  /** strings.Count(query, "?"). */
  function Count(s: string): nat {
    if s == [] then 0 else (if s[0] == '?' then 1 else 0) + Count(s[1..])
  }

  /** The `?` that inlining can replace. */
  function Placeholders(s: string, m: Mode): nat {
    if s == [] then 0
    else (if s[0] == '?' && m.Outside? then 1 else 0) + Placeholders(s[1..], Next(m, s[0]))
  }

  /** A `?` sits inside a literal. */
  predicate LiteralMark(s: string, m: Mode) {
    s != [] && ((s[0] == '?' && !m.Outside?) || LiteralMark(s[1..], Next(m, s[0])))
  }

  /** The reported count never falls short of the placeholders, and exceeds them exactly when some
      `?` is inside a literal; the surplus arguments are then ignored. */
  lemma {:induction false} ReportedCountSuffices(s: string, m: Mode, args: seq<Arg>)
    ensures Count(s) >= Placeholders(s, m)
    ensures Count(s) == Placeholders(s, m) <==> !LiteralMark(s, m)
    ensures |args| >= Placeholders(s, m) ==> Inline(s, m, args) == Inline(s, m, args[..Placeholders(s, m)])
  {
    if s != [] {
      var n := Placeholders(s, m);
      if s[0] == '?' && m.Outside? && args != [] {
        ReportedCountSuffices(s[1..], Outside, args[1..]);
        if |args| >= n {
          assert args[..n][1..] == args[1..][..n - 1];
        }
      } else {
        ReportedCountSuffices(s[1..], Next(m, s[0]), args);
      }
    }
  }
}
