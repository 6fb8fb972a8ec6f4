/** The text a MySQL statement becomes, read back by the SQL lexer. */
module MySqlLexical {
  import opened Basics
  import opened Decimal
  import opened MySqlRewrite
  import opened SqlLexer
  import ScanParams

  // ---------- the backtick rewrite, byte by byte ----------

  function QuotesIn(s: string): nat {
    if s == [] then 0 else (if s[0] == '\'' then 1 else 0) + QuotesIn(s[1..])
  }

  /** A byte changes exactly when it is a backtick with an even number of single quotes before it, and
      then to a double quote. */
  lemma {:induction false} RequoteByPosition(s: string, inStr: bool, i: nat)
    requires i < |s|
    ensures |Requote(s, inStr)| == |s|
    ensures var outside := (QuotesIn(s[..i]) + if inStr then 1 else 0) % 2 == 0;
            Requote(s, inStr)[i] == if s[i] == '`' && outside then '"' else s[i]
  {
    RequoteStable(s, inStr);
    if i > 0 {
      RequoteByPosition(s[1..], Toggle(inStr, s[0]), i - 1);
      assert s[..i][1..] == s[1..][..i - 1];
    }
  }

  // ---------- texts both machines read alike ----------

  /** No backtick outside literals, no backslash inside them. */
  predicate Readable(s: string, m: Mode) {
    s == [] ||
    (&& !m.Escaped?
     && (m.Outside? ==> s[0] != '`')
     && (m.Inside? ==> s[0] != '\\')
     && Readable(s[1..], Next(m, s[0])))
  }

  lemma {:induction false} RequotedIsReadable(s: string, m: Mode, v: Mode, u: bool)
    requires PlainQuoting(s, m) && !m.Escaped?
    requires m.Outside? ==> v == Outside && !u
    requires m == Inside('\'') ==> v == m && u
    requires m.Inside? && m.q != '\'' ==> MySqlRewrite.IsQuote(m.q) && v == Inside('"') && !u
    ensures Readable(Requote(s, u), v)
  {
    if s != [] {
      RequotedIsReadable(s[1..], Next(m, s[0]), Next(v, RequoteByte(s[0], u)), Toggle(u, s[0]));
      assert Requote(s, u)[1..] == Requote(s[1..], Toggle(u, s[0]));
    }
  }

  // ---------- inlining, lexeme by lexeme ----------

  predicate IsMark(l: Lexeme) {
    l == Plain('?')
  }

  function PlainLexemes(text: string, tail: Lexemes): Lexemes {
    if text == [] then tail else Cons(Plain(text[0]), PlainLexemes(text[1..], tail))
  }

  /** An argument's lexemes: a string or a time is one literal of its own bytes. */
  function ArgLexemes(a: Arg, tail: Lexemes): Lexemes {
    match a
    case Text(s) => Cons(Quoted('\'', s), tail)
    case Time(t) => Cons(Quoted('\'', t), tail)
    case _ => PlainLexemes(QuoteArg(a), tail)
  }

  function InlineLexemes(ls: Lexemes, args: seq<Arg>): Lexemes {
    match ls
    case Nil => Nil
    case Cons(l, rest) =>
      if IsMark(l) && args != [] then ArgLexemes(args[0], InlineLexemes(rest, args[1..]))
      else Cons(l, InlineLexemes(rest, args))
  }

  lemma {:induction false} PrintPlain(text: string, tail: Lexemes)
    ensures Print(PlainLexemes(text, tail)) == text + Print(tail)
  {
    if text != [] {
      PrintPlain(text[1..], tail);
      var rest := PlainLexemes(text[1..], tail);
      assert Print(Cons(Plain(text[0]), rest)) == [text[0]] + Print(rest);
      Append([text[0]], text[1..], Print(tail));
      assert text == [text[0]] + text[1..];
    }
  }

  lemma {:induction false} DoubleNothing(s: string, q: char)
    requires q !in s
    ensures Double(s, q) == s
  {
    if s != [] { DoubleNothing(s[1..], q); }
  }

  lemma PrintArg(a: Arg, tail: Lexemes)
    ensures Print(ArgLexemes(a, tail)) == QuoteArg(a) + Print(tail)
  {
    match a
    case Text(s) =>
    case Time(t) => DoubleNothing(t, '\'');
    case _ => PrintPlain(QuoteArg(a), tail);
  }

  lemma ReadEnd(q: char)
    ensures ReadQuoted([], q) == Reading(false, [], [])
  {
  }

  lemma ReadClose(t: string, q: char)
    requires t == [] || t[0] != q
    ensures ReadQuoted([q] + t, q) == Reading(true, [], t)
  {
    assert ([q] + t)[1..] == t;
  }

  lemma ReadableCons(c: char, t: string, m: Mode)
    requires Readable([c] + t, m)
    ensures !m.Escaped? && (m.Outside? ==> c != '`') && (m.Inside? ==> c != '\\') && Readable(t, Next(m, c))
  {
    assert ([c] + t)[1..] == t;
  }

  /** What the argument scanner makes of a reading: the run copied, the rest scanned from outside. */
  function Copied(k: Reading, q: char, args: seq<Arg>): string {
    Double(k.body, q) + (if k.closed then [q] + Inline(k.rest, Outside, args) else [])
  }

  lemma CopiedPlain(c: char, k: Reading, q: char, args: seq<Arg>)
    requires c != q
    ensures [c] + Copied(k, q, args) == Copied(k.(body := [c] + k.body), q, args)
  {
    hide Double, Inline;
    DoubleCons(c, k.body, q);
    Append([c], Double(k.body, q), if k.closed then [q] + Inline(k.rest, Outside, args) else []);
  }

  lemma CopiedPair(k: Reading, q: char, args: seq<Arg>)
    ensures [q] + ([q] + Copied(k, q, args)) == Copied(k.(body := [q] + k.body), q, args)
  {
    hide Double, Inline;
    DoubleCons(q, k.body, q);
    var out := if k.closed then [q] + Inline(k.rest, Outside, args) else [];
    Append([q, q], Double(k.body, q), out);
    Append([q], [q], Double(k.body, q) + out);
    assert [q] + [q] == [q, q];
  }

  /** Inside quotes the argument scanner copies exactly the run that the lexer reads. */
  lemma {:induction false} InlineReadsQuoted(s: string, q: char, args: seq<Arg>)
    requires (q == '\'' || q == '"') && Readable(s, Inside(q))
    ensures var k := ReadQuoted(s, q);
            Inline(s, Inside(q), args) == Copied(k, q, args) && (k.closed ==> Readable(k.rest, Outside))
    decreases |s|
  {
    hide Double, Inline, ReadQuoted, Copied, Readable, QuoteArg;
    if s == [] {
      ReadEnd(q);
      Empties(Inside(q), Outside, false, args);
      CopiedNothing(q, args);
    } else {
      var c, t := s[0], s[1..];
      assert s == [c] + t;
      InlineCons(c, t, Inside(q), args);
      ReadableCons(c, t, Inside(q));
      if c != q {
        InlineReadsQuoted(t, q, args);
        ReadPlain(c, t, q);
        CopiedPlain(c, ReadQuoted(t, q), q, args);
      } else if t != [] && t[0] == q {
        var u := t[1..];
        assert t == [q] + u && s == [q, q] + u;
        InlineCons(q, u, Outside, args);
        ReadableCons(q, u, Outside);
        InlineReadsQuoted(u, q, args);
        ReadPair(u, q);
        CopiedPair(ReadQuoted(u, q), q, args);
      } else {
        ReadClose(t, q);
        CopiedEnd(t, q, args);
      }
    }
  }

  lemma CopiedNothing(q: char, args: seq<Arg>)
    ensures Copied(Reading(false, [], []), q, args) == []
  {
    DoubleEmpty(q);
  }

  lemma CopiedEnd(t: string, q: char, args: seq<Arg>)
    ensures Copied(Reading(true, [], t), q, args) == [q] + Inline(t, Outside, args)
  {
    hide Inline;
    DoubleEmpty(q);
    assert [] + ([q] + Inline(t, Outside, args)) == [q] + Inline(t, Outside, args);
  }

  lemma {:induction false} InlinePlain(t: string, rest: string, args: seq<Arg>)
    requires NoQuotes(t) && '?' !in t && Readable(t + rest, Outside)
    ensures Inline(t + rest, Outside, args) == t + Inline(rest, Outside, args) && Readable(rest, Outside)
  {
    hide Inline, QuoteArg, Readable;
    if t == [] {
      assert t + rest == rest;
    } else {
      var c, u := t[0], t[1..];
      assert t == [c] + u && t + rest == [c] + (u + rest);
      InlineCons(c, u + rest, Outside, args);
      ReadableCons(c, u + rest, Outside);
      InlinePlain(u, rest, args);
      Append([c], u, Inline(rest, Outside, args));
    }
  }

  lemma ParamText(d: string)
    requires AllDigits(d)
    ensures NoQuotes(['$'] + d) && '?' !in ['$'] + d
  {
  }

  /** On a readable text the argument scanner replaces exactly the lexer's question marks. */
  lemma {:induction false} InlineIsLexical(s: string, args: seq<Arg>)
    requires Readable(s, Outside)
    ensures Inline(s, Outside, args) == Print(InlineLexemes(Lex(s), args))
    decreases |s|
  {
    hide Double, ReadQuoted, ScanParams.ParamDigits, QuoteArg, Inline, ArgLexemes, NoQuotes;
    if s == [] {
      Empties(Outside, Outside, false, args);
    } else if s[0] == '\'' || s[0] == '"' {
      var q, t := s[0], s[1..];
      var k := ReadQuoted(t, q);
      assert s == [q] + t;
      InlineCons(q, t, Outside, args);
      InlineReadsQuoted(t, q, args);
      if k.closed {
        InlineIsLexical(k.rest, args);
        QuotedRun(q, Double(k.body, q), Inline(k.rest, Outside, args));
      } else {
        QuotedRun(q, Double(k.body, q), []);
      }
    } else if ScanParams.AtParam(s) {
      var d := ScanParams.ParamDigits(s);
      var rest := s[1 + |d|..];
      ParamDigitsRestore(s);
      assert s == (['$'] + d) + rest;
      ParamText(d);
      InlinePlain(['$'] + d, rest, args);
      InlineIsLexical(rest, args);
    } else {
      assert s == [s[0]] + s[1..];
      InlineCons(s[0], s[1..], Outside, args);
      if s[0] == '?' && args != [] {
        InlineIsLexical(s[1..], args[1..]);
        PrintArg(args[0], InlineLexemes(Lex(s[1..]), args[1..]));
      } else {
        InlineIsLexical(s[1..], args);
      }
    }
  }

  // ---------- reading the statement back ----------

  /** Beside a question mark: not a quoted run or placeholder that a literal could merge with, not a
      digit or dollar, not another question mark. */
  predicate Loose(l: Lexeme) {
    (l.Plain? && !IsDigit(l.c) && l.c != '$' && l.c != '?') || (l.Quoted? && l.q == '"')
  }

  predicate SetApart(ls: Lexemes) {
    ls.Cons? ==>
      && (IsMark(ls.head) && ls.tail.Cons? ==> Loose(ls.tail.head))
      && (ls.tail.Cons? && IsMark(ls.tail.head) ==> Loose(ls.head))
      && SetApart(ls.tail)
  }

  lemma {:induction false} PlainFits(text: string, tail: Lexemes)
    requires NoQuotes(text) && '$' !in text && WellFormed(tail)
    ensures WellFormed(PlainLexemes(text, tail))
  {
    if text != [] { PlainFits(text[1..], tail); }
  }

  lemma PlainArg(a: Arg)
    requires !a.Text? && !a.Time?
    ensures NoQuotes(QuoteArg(a)) && '$' !in QuoteArg(a)
  {
    if a.Int? {
      FormatNoQuotes(a.n);
      FormatNoDollar(a.n);
    }
  }

  lemma {:induction false} DigitsNoDollar(n: nat)
    ensures '$' !in Digits(n)
  {
    if n >= 10 { DigitsNoDollar(n / 10); }
  }

  lemma FormatNoDollar(n: int)
    ensures '$' !in Format(n)
  {
    DigitsNoDollar(if n < 0 then -n else n);
  }

  lemma ArgFits(a: Arg, tail: Lexemes)
    requires WellFormed(tail) && !StartsWithQuote(tail, '\'')
    ensures WellFormed(ArgLexemes(a, tail))
  {
    if !a.Text? && !a.Time? {
      PlainArg(a);
      PlainFits(QuoteArg(a), tail);
    }
  }

  lemma {:induction false} ApartIsWellFormed(ls: Lexemes, args: seq<Arg>)
    requires WellFormed(ls) && SetApart(ls)
    ensures WellFormed(InlineLexemes(ls, args))
  {
    if ls.Cons? {
      var replaced := IsMark(ls.head) && args != [];
      var rest := InlineLexemes(ls.tail, if replaced then args[1..] else args);
      ApartIsWellFormed(ls.tail, if replaced then args[1..] else args);
      if replaced {
        ArgFits(args[0], rest);
      }
    }
  }

  /** For every ordinarily quoted query and every argument list: the text that is run reads back as the
      query's own lexemes with each question mark outside literals turned, in turn, into its argument's
      lexemes -- exactly when those stand well together. They do when no question mark is beside
      another, a single-quoted run, a digit or a dollar sign. */
  lemma StatementIsLexical(query: string, args: seq<Arg>)
    requires PlainQuoting(query, Outside)
    ensures var own := Lex(Requote(query, false));
            var sent := Lex(Requote(Inline(query, Outside, args), false));
            && (sent == InlineLexemes(own, args) <==> WellFormed(InlineLexemes(own, args)))
            && (SetApart(own) ==> sent == InlineLexemes(own, args))
  {
    var requoted := Requote(query, false);
    PlainQueriesCommute(query, args);
    RequotedIsReadable(query, Outside, Outside, false);
    InlineIsLexical(requoted, args);
    LexBijection(requoted, Lex(requoted));
    LexBijection(Inline(requoted, Outside, args), InlineLexemes(Lex(requoted), args));
    if SetApart(Lex(requoted)) {
      ApartIsWellFormed(Lex(requoted), args);
    }
  }

  // ---------- the argument scanner, byte by byte ----------

  /** The inside of a literal: a backslash takes the next byte with it, and no other byte is the quote. */
  predicate LiteralBody(body: string, q: char) {
    body == [] ||
    if body[0] == '\\' then |body| >= 2 && LiteralBody(body[2..], q)
    else body[0] != q && LiteralBody(body[1..], q)
  }

  lemma CopyByte(c: char, rest: string, q: char, tail: string, m: Mode, x: string, args: seq<Arg>)
    requires !m.Outside? && Inline(rest + [q] + tail, Next(m, c), args) == rest + [q] + x
    ensures Inline([c] + rest + [q] + tail, m, args) == [c] + rest + [q] + x
  {
    hide Inline;
    assert [c] + rest + [q] + tail == [c] + (rest + [q] + tail);
    InlineCons(c, rest + [q] + tail, m, args);
    assert [c] + (rest + [q] + x) == [c] + rest + [q] + x;
  }

  lemma CopyLast(c: char, rest: string, m: Mode, args: seq<Arg>)
    requires !m.Outside? && Inline(rest, Next(m, c), args) == rest
    ensures Inline([c] + rest, m, args) == [c] + rest
  {
    InlineCons(c, rest, m, args);
  }

  lemma {:induction false} LiteralInside(body: string, q: char, tail: string, args: seq<Arg>)
    requires (q == '\'' || q == '"' || q == '`') && LiteralBody(body, q)
    ensures Inline(body + [q] + tail, Inside(q), args) == body + [q] + Inline(tail, Outside, args)
    ensures Inline(body, Inside(q), args) == body
    decreases |body|
  {
    hide Inline, QuoteArg;
    var x := Inline(tail, Outside, args);
    if body == [] {
      assert body + [q] + tail == [q] + tail && body + [q] + x == [q] + x;
      InlineCons(q, tail, Inside(q), args);
      Empties(Inside(q), Outside, false, args);
    } else if body[0] == '\\' {
      var c, rest := body[1], body[2..];
      LiteralInside(rest, q, tail, args);
      CopyByte(c, rest, q, tail, Escaped(q), x, args);
      CopyByte('\\', [c] + rest, q, tail, Inside(q), x, args);
      CopyLast(c, rest, Escaped(q), args);
      CopyLast('\\', [c] + rest, Inside(q), args);
      assert body == ['\\'] + ([c] + rest);
    } else {
      var c, rest := body[0], body[1..];
      LiteralInside(rest, q, tail, args);
      CopyByte(c, rest, q, tail, Inside(q), x, args);
      CopyLast(c, rest, Inside(q), args);
      assert body == [c] + rest;
    }
  }

  /** A literal in single quotes, double quotes or backticks is copied, question marks, escaped quotes and
      all; so is one that is never closed. */
  lemma LiteralIsCopied(q: char, body: string, tail: string, args: seq<Arg>)
    requires (q == '\'' || q == '"' || q == '`') && LiteralBody(body, q)
    ensures Inline([q] + body + [q] + tail, Outside, args) == [q] + body + [q] + Inline(tail, Outside, args)
    ensures Inline([q] + body, Outside, args) == [q] + body
  {
    hide Inline, QuoteArg;
    LiteralInside(body, q, tail, args);
    assert [q] + body + [q] + tail == [q] + (body + [q] + tail);
    InlineCons(q, body + [q] + tail, Outside, args);
    InlineCons(q, body, Outside, args);
    assert [q] + (body + [q] + Inline(tail, Outside, args)) == [q] + body + [q] + Inline(tail, Outside, args);
  }

  /** Outside literals a question mark takes the next argument, while there is one; every byte that opens
      no literal is copied. */
  lemma MarkTakesArgument(c: char, tail: string, args: seq<Arg>)
    requires c != '\'' && c != '"' && c != '`'
    ensures Inline([c] + tail, Outside, args) ==
            if c == '?' && args != [] then QuoteArg(args[0]) + Inline(tail, Outside, args[1..])
            else [c] + Inline(tail, Outside, args)
  {
    InlineCons(c, tail, Outside, args);
  }

  /** An argument's text reads back as the argument: numbers as their decimal text, booleans as 1 and 0,
      NULL as the keyword, strings and times as one literal of their own bytes. */
  lemma ArgumentReadsBack(a: Arg)
    ensures a.Int? ==> Parse(QuoteArg(a)) == Some(a.n)
    ensures a.Bool? ==> Parse(QuoteArg(a)) == Some(if a.b then 1 else 0)
    ensures a.Null? ==> QuoteArg(a) == "NULL"
    ensures a.Float? ==> QuoteArg(a) == a.text
    ensures a.Text? ==> Lex(QuoteArg(a)) == Cons(Quoted('\'', a.s), Nil)
    ensures a.Time? ==> Lex(QuoteArg(a)) == Cons(Quoted('\'', a.text), Nil)
  {
    match a
    case Int(n) => ParseFormat(n);
    case Bool(b) =>
      ParseFormat(if b then 1 else 0);
      FormatIsDecimal(0, if b then 1 else 0);
    case Text(s) =>
      LexQuoted('\'', s, []);
      LexEmpty();
      assert ['\''] + Double(s, '\'') + ['\''] + [] == QuoteArg(a);
    case Time(t) =>
      DoubleNothing(t, '\'');
      LexQuoted('\'', t, []);
      LexEmpty();
      assert ['\''] + t + ['\''] + [] == QuoteArg(a);
    case _ =>
  }
}
