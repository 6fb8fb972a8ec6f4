/** The SQL lexer that reads a text back: a quoted run with doubled quotes is one lexeme. Independent
    of the byte machine of ScanParams; the two are proved to agree. */
module SqlLexer {
  import opened Basics
  import opened Decimal
  import opened ScanParams

  /** `Quoted` carries its unescaped body; `Open` is a quoted run the text ends inside of. */
  datatype Lexeme =
    | Plain(c: char)
    | Param(digits: string)
    | Quoted(q: char, body: string)
    | Open(q: char, body: string)

  datatype Lexemes = Nil | Cons(head: Lexeme, tail: Lexemes)

  datatype Reading = Reading(closed: bool, body: string, rest: string)

  /** Reads a quoted run after its opening `q`, with the doubled-quote lookahead. */
  function ReadQuoted(s: string, q: char): (r: Reading)
    ensures |r.rest| <= |s|
    ensures r.closed && r.rest != [] ==> r.rest[0] != q
    decreases |s|
  {
    if s == [] then Reading(false, [], [])
    else if s[0] != q then
      var r := ReadQuoted(s[1..], q);
      r.(body := [s[0]] + r.body)
    else if |s| > 1 && s[1] == q then
      var r := ReadQuoted(s[2..], q);
      r.(body := [q] + r.body)
    else Reading(true, [], s[1..])
  }

  function Lex(s: string): Lexemes
    decreases |s|
  {
    if s == [] then Nil
    else if IsQuote(s[0]) then
      var r := ReadQuoted(s[1..], s[0]);
      if r.closed then Cons(Quoted(s[0], r.body), Lex(r.rest)) else Cons(Open(s[0], r.body), Nil)
    else if AtParam(s) then
      var d := ParamDigits(s);
      Cons(Param(d), Lex(s[1 + |d|..]))
    else Cons(Plain(s[0]), Lex(s[1..]))
  }

  function PrintOne(l: Lexeme): string {
    match l
    case Plain(c) => [c]
    case Param(d) => ['$'] + d
    case Quoted(q, body) => [q] + Double(body, q) + [q]
    case Open(q, body) => [q] + Double(body, q)
  }

  function Print(ls: Lexemes): string {
    match ls
    case Nil => []
    case Cons(l, rest) => PrintOne(l) + Print(rest)
  }

  // ---------- lexing and printing are inverse ----------

  predicate StartsWithQuote(ls: Lexemes, q: char) {
    ls.Cons? && (ls.head.Quoted? || ls.head.Open?) && ls.head.q == q
  }

  predicate StartsWithDigit(ls: Lexemes) {
    ls.Cons? && ls.head.Plain? && IsDigit(ls.head.c)
  }

  predicate StartsWithIndex(ls: Lexemes) {
    ls.Cons? && ls.head.Plain? && '1' <= ls.head.c <= '9'
  }

  /** Lexeme `l` can stand before `rest`. */
  predicate Fits(l: Lexeme, rest: Lexemes) {
    match l
    case Plain(c) => !IsQuote(c) && (c == '$' ==> !StartsWithIndex(rest))
    case Param(d) => d != [] && d[0] != '0' && AllDigits(d) && !StartsWithDigit(rest)
    case Quoted(q, _) => IsQuote(q) && !StartsWithQuote(rest, q)
    case Open(q, _) => IsQuote(q) && rest == Nil
  }

  /** The lexeme lists that are some text's lexemes. */
  predicate WellFormed(ls: Lexemes) {
    ls.Cons? ==> Fits(ls.head, ls.tail) && WellFormed(ls.tail)
  }

  lemma DoubleCons(c: char, t: string, q: char)
    ensures Double([c] + t, q) == (if c == q then [q, q] else [c]) + Double(t, q)
  {
    assert ([c] + t)[1..] == t;
  }

  lemma ReadPlain(c: char, t: string, q: char)
    requires c != q
    ensures var r := ReadQuoted(t, q); ReadQuoted([c] + t, q) == r.(body := [c] + r.body)
  {
    assert ([c] + t)[1..] == t;
  }

  lemma ReadPair(t: string, q: char)
    ensures var r := ReadQuoted(t, q); ReadQuoted([q, q] + t, q) == r.(body := [q] + r.body)
  {
    assert ([q, q] + t)[2..] == t;
  }

  /** What a reading leaves unread, with its closing quote. */
  function Unread(r: Reading, q: char): string {
    if r.closed then [q] + r.rest else []
  }

  lemma DoubleEmpty(q: char)
    ensures Double([], q) == []
  {
  }

  /** Reading a doubled body reads it whole: up to a closing quote, or to the end of the text. */
  lemma {:induction false} ReadDoubled(body: string, q: char, closed: bool, rest: string)
    requires closed && rest != [] ==> rest[0] != q
    ensures var r := Reading(closed, body, if closed then rest else []);
            ReadQuoted(Double(body, q) + Unread(r, q), q) == r
    decreases |body|
  {
    hide Double;
    var end := Unread(Reading(closed, body, rest), q);
    if body == [] {
      DoubleEmpty(q);
      assert [] + end == end;
      assert closed ==> end[1..] == rest;
    } else {
      hide ReadQuoted;
      var c, t := body[0], body[1..];
      ReadDoubled(t, q, closed, rest);
      assert body == [c] + t;
      DoubleCons(c, t, q);
      if c == q {
        ReadPair(Double(t, q) + end, q);
        Append([q, q], Double(t, q), end);
      } else {
        ReadPlain(c, Double(t, q) + end, q);
        Append([c], Double(t, q), end);
      }
    }
  }

  lemma {:induction false} ReadRestores(s: string, q: char)
    ensures var r := ReadQuoted(s, q); s == Double(r.body, q) + Unread(r, q)
    decreases |s|
  {
    if s == [] {
    } else if s[0] != q {
      var r := ReadQuoted(s[1..], q);
      ReadRestores(s[1..], q);
      DoubleCons(s[0], r.body, q);
      Append([s[0]], Double(r.body, q), Unread(r, q));
      assert s == [s[0]] + s[1..];
    } else if |s| > 1 && s[1] == q {
      var r := ReadQuoted(s[2..], q);
      ReadRestores(s[2..], q);
      DoubleCons(q, r.body, q);
      Append([q, q], Double(r.body, q), Unread(r, q));
      assert s == [q, q] + s[2..];
    } else {
      assert s == [q] + s[1..];
    }
  }

  function FirstByte(l: Lexeme): char {
    match l
    case Plain(c) => c
    case Param(_) => '$'
    case Quoted(q, _) => q
    case Open(q, _) => q
  }

  lemma PrintHead(ls: Lexemes)
    requires ls.Cons?
    ensures Print(ls) != [] && Print(ls)[0] == FirstByte(ls.head)
  {
  }

  lemma LexQuoted(q: char, body: string, tail: string)
    requires IsQuote(q) && (tail != [] ==> tail[0] != q)
    ensures Lex([q] + Double(body, q) + [q] + tail) == Cons(Quoted(q, body), Lex(tail))
  {
    var s := [q] + Double(body, q) + [q] + tail;
    assert s[1..] == Double(body, q) + ([q] + tail);
    ReadDoubled(body, q, true, tail);
  }

  lemma LexOpen(q: char, body: string)
    requires IsQuote(q)
    ensures Lex([q] + Double(body, q)) == Cons(Open(q, body), Nil)
  {
    assert ([q] + Double(body, q))[1..] == Double(body, q) + [];
    ReadDoubled(body, q, false, []);
  }

  lemma LexParam(d: string, tail: string)
    requires d != [] && d[0] != '0' && AllDigits(d) && (tail != [] ==> !IsDigit(tail[0]))
    ensures Lex(['$'] + d + tail) == Cons(Param(d), Lex(tail))
  {
    ParamHead(d, tail);
  }

  lemma LexPlain(c: char, tail: string)
    requires !IsQuote(c) && !AtParam([c] + tail)
    ensures Lex([c] + tail) == Cons(Plain(c), Lex(tail))
  {
    assert ([c] + tail)[1..] == tail;
  }

  lemma {:induction false} LexPrint(ls: Lexemes)
    requires WellFormed(ls)
    ensures Lex(Print(ls)) == ls
  {
    match ls
    case Nil =>
    case Cons(l, rest) =>
      LexPrint(rest);
      if rest.Cons? { PrintHead(rest); }
      match l
      case Plain(c) => LexPlain(c, Print(rest));
      case Param(d) => LexParam(d, Print(rest));
      case Quoted(q, body) => LexQuoted(q, body, Print(rest));
      case Open(q, body) =>
        LexOpen(q, body);
        assert Print(ls) == PrintOne(l);
  }

  lemma ParamDigitsRestore(s: string)
    requires AtParam(s)
    ensures var d := ParamDigits(s);
            && s == ['$'] + d + s[1 + |d|..]
            && (1 + |d| < |s| ==> !IsDigit(s[1 + |d|]))
  {
  }

  lemma {:induction false} PrintLex(s: string)
    ensures Print(Lex(s)) == s && WellFormed(Lex(s))
    decreases |s|
  {
    hide Double, ReadQuoted, ParamDigits;
    if s == [] {
    } else if IsQuote(s[0]) {
      var q := s[0];
      var r := ReadQuoted(s[1..], q);
      ReadRestores(s[1..], q);
      assert s == [q] + s[1..];
      if r.closed {
        PrintLex(r.rest);
        assert s == ([q] + Double(r.body, q) + [q]) + r.rest;
        if Lex(r.rest).Cons? { PrintHead(Lex(r.rest)); }
      } else {
        assert s == [q] + Double(r.body, q);
      }
    } else if AtParam(s) {
      var d := ParamDigits(s);
      var rest := s[1 + |d|..];
      PrintLex(rest);
      ParamDigitsRestore(s);
      if Lex(rest).Cons? { PrintHead(Lex(rest)); }
    } else {
      PrintLex(s[1..]);
      assert s == [s[0]] + s[1..];
      if Lex(s[1..]).Cons? { PrintHead(Lex(s[1..])); }
    }
  }

  /** Texts and well-formed lexeme lists are in bijection. */
  lemma LexBijection(s: string, ls: Lexemes)
    ensures Lex(s) == ls <==> (WellFormed(ls) && Print(ls) == s)
  {
    PrintLex(s);
    if WellFormed(ls) { LexPrint(ls); }
  }

  // ---------- the byte machine agrees with the lexer ----------

  function ReplaceOne(l: Lexeme, r: nat -> string): string {
    if l.Param? && AllDigits(l.digits) then r(ParamIndex(l.digits)) else PrintOne(l)
  }

  function PrintWith(ls: Lexemes, r: nat -> string): string {
    match ls
    case Nil => []
    case Cons(l, rest) => ReplaceOne(l, r) + PrintWith(rest, r)
  }

  /** Inside quotes the toggle machine copies exactly the run that the lookahead reads: between the
      two halves of a doubled quote it is outside, but at a quote byte, never at a placeholder. */
  lemma {:induction false} ToggleReadsQuoted(s: string, q: char, r: nat -> string)
    requires IsQuote(q)
    ensures var k := ReadQuoted(s, q);
            Rewrite(s, Inside(q), r) ==
            Double(k.body, q) + (if k.closed then [q] + Rewrite(k.rest, Outside, r) else [])
    decreases |s|
  {
    hide Rewrite, Double;
    if s == [] {
      RewriteEmpty(Inside(q), r);
      DoubleEmpty(q);
    } else {
      ByteRewrite(s, Inside(q), r);
      if s[0] != q {
        var k := ReadQuoted(s[1..], q);
        ToggleReadsQuoted(s[1..], q, r);
        DoubleCons(s[0], k.body, q);
        Append([s[0]], Double(k.body, q), if k.closed then [q] + Rewrite(k.rest, Outside, r) else []);
      } else if |s| > 1 && s[1] == q {
        var k := ReadQuoted(s[2..], q);
        ToggleReadsQuoted(s[2..], q, r);
        DoubleCons(q, k.body, q);
        assert s[1..][1..] == s[2..];
        ByteRewrite(s[1..], Outside, r);
        var out := Rewrite(s[2..], Inside(q), r);
        assert [q] + ([q] + out) == [q, q] + out;
        Append([q, q], Double(k.body, q), if k.closed then [q] + Rewrite(k.rest, Outside, r) else []);
      } else {
        DoubleEmpty(q);
        assert [] + ([q] + Rewrite(s[1..], Outside, r)) == [q] + Rewrite(s[1..], Outside, r);
      }
    }
  }

  lemma RewriteEmpty(m: Mode, r: nat -> string)
    ensures Rewrite([], m, r) == []
  {
  }

  lemma QuotedRun(q: char, x: string, out: string)
    ensures [q] + (x + ([q] + out)) == ([q] + x + [q]) + out
    ensures [q] + (x + []) == [q] + x
  {
  }

  /** The scanner replaces exactly the lexer's placeholders and copies every other lexeme. */
  lemma {:induction false} RewriteIsLexical(s: string, r: nat -> string)
    ensures Rewrite(s, Outside, r) == PrintWith(Lex(s), r)
    decreases |s|
  {
    hide Rewrite, Double, ReadQuoted, ParamDigits;
    if s == [] {
      RewriteEmpty(Outside, r);
    } else if IsQuote(s[0]) {
      var q := s[0];
      var k := ReadQuoted(s[1..], q);
      ByteRewrite(s, Outside, r);
      ToggleReadsQuoted(s[1..], q, r);
      if k.closed {
        RewriteIsLexical(k.rest, r);
        var out := Rewrite(k.rest, Outside, r);
        QuotedRun(q, Double(k.body, q), out);
      } else {
        QuotedRun(q, Double(k.body, q), []);
      }
    } else if AtParam(s) {
      var d := ParamDigits(s);
      var rest := s[1 + |d|..];
      ParamDigitsRestore(s);
      ParamRewrite(d, rest, r);
      RewriteIsLexical(rest, r);
    } else {
      ByteRewrite(s, Outside, r);
      RewriteIsLexical(s[1..], r);
    }
  }

  // ---------- the announced count ----------

  /** The largest index among the placeholders, 0 if there are none. */
  function LargestParam(ls: Lexemes): nat {
    match ls
    case Nil => 0
    case Cons(l, rest) =>
      if l.Param? && AllDigits(l.digits) then Max(ParamIndex(l.digits), LargestParam(rest)) else LargestParam(rest)
  }

  lemma IndexByte(s: string, m: Mode)
    requires s != [] && !(m.Outside? && AtParam(s))
    ensures MaxIndex(s, m) == MaxIndex(s[1..], Next(m, s[0]))
  {
  }

  lemma {:induction false} ToggleSkipsQuoted(s: string, q: char)
    requires IsQuote(q)
    ensures var k := ReadQuoted(s, q); MaxIndex(s, Inside(q)) == if k.closed then MaxIndex(k.rest, Outside) else 0
    decreases |s|
  {
    hide ParamDigits, ParamIndex;
    if s != [] {
      if s[0] != q {
        ToggleSkipsQuoted(s[1..], q);
      } else if |s| > 1 && s[1] == q {
        assert s[1..][1..] == s[2..];
        IndexByte(s[1..], Outside);
        ToggleSkipsQuoted(s[2..], q);
      }
    }
  }

  /** The count `maxParamIndex` announces is the largest index among the lexer's placeholders. */
  lemma {:induction false} AnnouncedCountIsLargest(s: string)
    ensures MaxIndex(s, Outside) == LargestParam(Lex(s))
    decreases |s|
  {
    hide ReadQuoted, ParamIndex;
    if s != [] {
      if IsQuote(s[0]) {
        ToggleSkipsQuoted(s[1..], s[0]);
        var k := ReadQuoted(s[1..], s[0]);
        if k.closed { AnnouncedCountIsLargest(k.rest); }
      } else if AtParam(s) {
        ParamDigitsRestore(s);
        AnnouncedCountIsLargest(s[1 + |ParamDigits(s)|..]);
      } else {
        IndexByte(s, Outside);
        AnnouncedCountIsLargest(s[1..]);
      }
    }
  }

  /** Every placeholder gets a bound value. */
  predicate EveryBound(ls: Lexemes, ps: Params) {
    ls.Cons? ==> (ls.head.Param? ==> HasValue(ls.head, ps)) && EveryBound(ls.tail, ps)
  }

  lemma {:induction false} LargestBinds(ls: Lexemes, ps: Params)
    requires WellFormed(ls) && forall i :: 0 <= i < |ps| ==> ps[i].Some?
    ensures EveryBound(ls, ps) <==> LargestParam(ls) <= |ps|
  {
    hide ParamIndex;
    if ls.Cons? {
      LargestBinds(ls.tail, ps);
      if ls.head.Param? { IndexPositive(ls.head.digits); }
    }
  }

  lemma IndexPositive(d: string)
    requires d != [] && d[0] != '0' && AllDigits(d)
    ensures ParamIndex(d) >= 1
  {
    LeadingDigitPositive(d);
  }

  /** Non-NULL parameters bind every placeholder exactly if there are at least as many as announced. */
  lemma AnnouncedCountBinds(sql: string, ps: Params)
    requires forall i :: 0 <= i < |ps| ==> ps[i].Some?
    ensures EveryBound(Lex(sql), ps) <==> MaxIndex(sql, Outside) <= |ps|
  {
    PrintLex(sql);
    AnnouncedCountIsLargest(sql);
    LargestBinds(Lex(sql), ps);
  }

  // ---------- what substitution does to the lexemes ----------

  /** Each placeholder turned into one literal holding its value, or into NULL. */
  function SubstLexemes(ls: Lexemes, ps: Params): Lexemes {
    match ls
    case Nil => Nil
    case Cons(l, rest) =>
      var out := SubstLexemes(rest, ps);
      if !l.Param? || !AllDigits(l.digits) then Cons(l, out)
      else if HasValue(l, ps) then Cons(Quoted('\'', ps[ParamIndex(l.digits) - 1].value), out)
      else Cons(Plain('N'), Cons(Plain('U'), Cons(Plain('L'), Cons(Plain('L'), out))))
  }

  predicate HasValue(l: Lexeme, ps: Params) {
    l.Param? && AllDigits(l.digits) && Bound(ps, ParamIndex(l.digits))
  }

  predicate EndsInQuote(l: Lexeme, ps: Params) {
    (l.Quoted? && l.q == '\'') || HasValue(l, ps)
  }

  predicate StartsInQuote(l: Lexeme, ps: Params) {
    (l.Open? && l.q == '\'') || EndsInQuote(l, ps)
  }

  /** No placeholder that has a value stands directly beside a single-quoted run or another such
      placeholder. (Two runs are never neighbours in a text: they would be one run.) */
  predicate Apart(ls: Lexemes, ps: Params) {
    ls.Cons? ==>
      && (ls.tail.Cons? ==> !(EndsInQuote(ls.head, ps) && StartsInQuote(ls.tail.head, ps)))
      && Apart(ls.tail, ps)
  }

  lemma PrintNull(out: Lexemes)
    ensures Print(Cons(Plain('N'), Cons(Plain('U'), Cons(Plain('L'), Cons(Plain('L'), out))))) == "NULL" + Print(out)
  {
    var l1 := Cons(Plain('L'), out);
    var l2 := Cons(Plain('L'), l1);
    var l3 := Cons(Plain('U'), l2);
    assert Print(l1) == ['L'] + Print(out);
    assert Print(l2) == ['L'] + Print(l1);
    assert Print(l3) == ['U'] + Print(l2);
    assert Print(Cons(Plain('N'), l3)) == ['N'] + Print(l3);
  }

  lemma {:induction false} PrintSubst(ls: Lexemes, ps: Params)
    ensures Print(SubstLexemes(ls, ps)) == PrintWith(ls, Replacer(ps))
  {
    if ls.Cons? {
      PrintSubst(ls.tail, ps);
      PrintNull(SubstLexemes(ls.tail, ps));
    }
  }

  lemma NullFits(out: Lexemes)
    ensures WellFormed(Cons(Plain('N'), Cons(Plain('U'), Cons(Plain('L'), Cons(Plain('L'), out))))) <==> WellFormed(out)
  {
    var l1 := Cons(Plain('L'), out);
    var l2 := Cons(Plain('L'), l1);
    assert WellFormed(l1) <==> WellFormed(out);
    assert WellFormed(l2) <==> WellFormed(l1);
    assert WellFormed(Cons(Plain('U'), l2)) <==> WellFormed(l2);
  }

  lemma {:induction false} SubstWellFormed(ls: Lexemes, ps: Params)
    requires WellFormed(ls)
    ensures WellFormed(SubstLexemes(ls, ps)) <==> Apart(ls, ps)
  {
    if ls.Cons? {
      SubstWellFormed(ls.tail, ps);
      NullFits(SubstLexemes(ls.tail, ps));
    }
  }

  /** Reading the substituted text back gives the source's lexemes with every placeholder turned into
      one literal that unescapes to its value (or into NULL) -- exactly when no such literal lands
      beside a single quote. */
  lemma SubstitutionIsLexical(sql: string, ps: Params)
    ensures Lex(Substitute(sql, ps)) == SubstLexemes(Lex(sql), ps) <==> Apart(Lex(sql), ps)
  {
    PrintLex(sql);
    RewriteIsLexical(sql, Replacer(ps));
    PrintSubst(Lex(sql), ps);
    SubstWellFormed(Lex(sql), ps);
    LexBijection(Substitute(sql, ps), SubstLexemes(Lex(sql), ps));
  }

  lemma {:induction false} DoubleConcat(a: string, b: string, q: char)
    ensures Double(a + b, q) == Double(a, q) + Double(b, q)
  {
    hide Double;
    if a == [] {
      DoubleEmpty(q);
      assert a + b == b && [] + Double(b, q) == Double(b, q);
    } else {
      var c, t := a[0], a[1..];
      assert a == [c] + t && a + b == [c] + (t + b);
      DoubleConcat(t, b, q);
      DoubleCons(c, t, q);
      DoubleCons(c, t + b, q);
      Append(if c == q then [q, q] else [c], Double(t, q), Double(b, q));
    }
  }

  /** Two adjacent literals read back as one value, the two joined by a quote. */
  lemma LiteralsMerge(a: string, b: string)
    ensures Lex(Literal(a) + Literal(b)) == Cons(Quoted('\'', a + (['\''] + b)), Nil)
  {
    hide Double, Lex;
    var q := '\'';
    DoubleConcat(a, [q] + b, q);
    DoubleCons(q, b, q);
    LexQuoted(q, a + ([q] + b), []);
    var x, y := Double(a, q), Double(b, q);
    assert ([q] + x + [q]) + ([q] + y + [q]) == [q] + (x + ([q, q] + y)) + [q] + [];
    LexEmpty();
  }

  lemma LexEmpty()
    ensures Lex([]) == Nil
  {
  }

  lemma OneDigit(d: char)
    requires '1' <= d <= '9'
    ensures AllDigits([d]) && ParamIndex([d]) == d as int - '0' as int
  {
    assert [d][..|[d]| - 1] == [];
    assert Value([]) == 0 && Value([d]) == d as int - '0' as int;
  }

  /** So `$1$2`, for every two values, does not send two values. */
  lemma AdjacentPlaceholdersMerge(a: string, b: string)
    ensures Lex(Substitute("$1$2", [Some(a), Some(b)])) == Cons(Quoted('\'', a + (['\''] + b)), Nil)
  {
    hide Double, Lex, Rewrite, Value;
    var ps: Params := [Some(a), Some(b)];
    var r := Replacer(ps);
    OneDigit('1');
    OneDigit('2');
    ParamRewrite(['2'], [], r);
    RewriteEmpty(Outside, r);
    assert ['$'] + ['2'] + [] == ['$', '2'];
    ParamRewrite(['1'], ['$', '2'], r);
    assert ['$'] + ['1'] + ['$', '2'] == "$1$2";
    assert Literal(a) + (Literal(b) + []) == Literal(a) + Literal(b);
    LiteralsMerge(a, b);
  }
}
