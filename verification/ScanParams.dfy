/** Postgres `$N` placeholders: the scanner loop of internal/pg/handler.go, the byte machine it
    refines, and the SQL lexer its output is read back with. */
module ScanParams {
  import opened Basics
  import opened Decimal

  // ---------- the byte machine: a quote byte toggles, nothing looks ahead ----------

  datatype Mode = Outside | Inside(q: char)

  predicate IsQuote(c: char) {
    c == '\'' || c == '"'
  }

  function Next(m: Mode, c: char): Mode {
    match m
    case Outside => if IsQuote(c) then Inside(c) else Outside
    case Inside(q) => if c == q then Outside else m
  }

  /** `s` starts with `$` and a digit 1-9. */
  predicate AtParam(s: string) {
    |s| >= 2 && s[0] == '$' && '1' <= s[1] <= '9'
  }

  function DigitRun(s: string): (n: nat)
    ensures n <= |s| && AllDigits(s[..n])
    ensures n < |s| ==> !IsDigit(s[n])
  {
    if s == [] || !IsDigit(s[0]) then 0
    else
      var n := 1 + DigitRun(s[1..]);
      assert forall i :: 0 < i < n ==> s[i] == s[1..][i - 1];
      n
  }

  function ParamDigits(s: string): (d: string)
    requires AtParam(s)
    ensures |d| >= 1 && 1 + |d| <= |s| && AllDigits(d) && d[0] == s[1]
  {
    s[1..][..DigitRun(s[1..])]
  }

  /** strconv.Atoi with its error ignored: a run of digits too large for int64 gives the largest int64. */
  function ParamIndex(digits: string): nat
    requires AllDigits(digits)
  {
    Clamp64(Value(digits))
  }

  /** `s`, read from mode `m`, with each placeholder met outside quotes replaced by `r(N)`. */
  function Rewrite(s: string, m: Mode, r: nat -> string): string
    decreases |s|
  {
    if s == [] then []
    else if m.Outside? && AtParam(s) then
      var d := ParamDigits(s);
      r(ParamIndex(d)) + Rewrite(s[1 + |d|..], Outside, r)
    else [s[0]] + Rewrite(s[1..], Next(m, s[0]), r)
  }

  /** The highest placeholder index met outside quotes, 0 if none. */
  function MaxIndex(s: string, m: Mode): nat
    decreases |s|
  {
    if s == [] then 0
    else if m.Outside? && AtParam(s) then
      var d := ParamDigits(s);
      var rest := MaxIndex(s[1 + |d|..], Outside);
      if ParamIndex(d) > rest then ParamIndex(d) else rest
    else MaxIndex(s[1..], Next(m, s[0]))
  }

  // ---------- the source's loop ----------

  /** What the loop has established when `rest` is still to be read, in mode `m`. */
  ghost predicate Progress(sql: string, rest: string, m: Mode, replace: Option<nat -> string>, out: string, maxIdx: nat) {
    && MaxIndex(sql, Outside) == Max(maxIdx, MaxIndex(rest, m))
    && match replace
       case None => sql == out + rest
       case Some(r) => Rewrite(sql, Outside, r) == out + Rewrite(rest, m, r)
  }

  lemma ByteStep(sql: string, c: char, tail: string, m: Mode, replace: Option<nat -> string>, out: string, maxIdx: nat)
    requires !(m.Outside? && AtParam([c] + tail))
    requires Progress(sql, [c] + tail, m, replace, out, maxIdx)
    ensures Progress(sql, tail, Next(m, c), replace, out + [c], maxIdx)
  {
    var rest := [c] + tail;
    assert rest[1..] == tail;
    if replace.Some? {
      ByteRewrite(rest, m, replace.value);
      Append(out, [c], Rewrite(tail, Next(m, c), replace.value));
    } else {
      Append(out, [c], tail);
    }
  }

  lemma ByteRewrite(s: string, m: Mode, r: nat -> string)
    requires s != [] && !(m.Outside? && AtParam(s))
    ensures Rewrite(s, m, r) == [s[0]] + Rewrite(s[1..], Next(m, s[0]), r)
  {
  }

  lemma Append(a: string, b: string, c: string)
    ensures a + (b + c) == (a + b) + c
  {
  }

  lemma {:induction false} DigitRunIs(s: string, n: nat)
    requires n <= |s| && AllDigits(s[..n]) && (n < |s| ==> !IsDigit(s[n]))
    ensures DigitRun(s) == n
  {
    if n > 0 {
      assert IsDigit(s[..n][0]);
      assert s[1..][..n - 1] == s[..n][1..];
      DigitRunIs(s[1..], n - 1);
    }
  }

  /** A placeholder at the front: its digits are the longest run. */
  lemma ParamHead(d: string, tail: string)
    requires d != [] && d[0] != '0' && AllDigits(d) && (tail != [] ==> !IsDigit(tail[0]))
    ensures var s := ['$'] + d + tail; AtParam(s) && ParamDigits(s) == d && s[1 + |d|..] == tail
  {
    var s := ['$'] + d + tail;
    assert s[1..] == d + tail;
    assert (d + tail)[..|d|] == d;
    DigitRunIs(d + tail, |d|);
  }

  lemma ParamRewrite(d: string, tail: string, r: nat -> string)
    requires d != [] && d[0] != '0' && AllDigits(d) && (tail != [] ==> !IsDigit(tail[0]))
    ensures var s := ['$'] + d + tail;
            && Rewrite(s, Outside, r) == r(ParamIndex(d)) + Rewrite(tail, Outside, r)
            && MaxIndex(s, Outside) == Max(ParamIndex(d), MaxIndex(tail, Outside))
  {
    ParamHead(d, tail);
  }

  lemma ParamStep(sql: string, d: string, tail: string, replace: Option<nat -> string>, out: string, maxIdx: nat)
    requires d != [] && d[0] != '0' && AllDigits(d) && (tail != [] ==> !IsDigit(tail[0]))
    requires Progress(sql, ['$'] + d + tail, Outside, replace, out, maxIdx)
    ensures var idx := ParamIndex(d);
            var piece := if replace.Some? then replace.value(idx) else ['$'] + d;
            Progress(sql, tail, Outside, replace, out + piece, Max(idx, maxIdx))
  {
    if replace.Some? {
      ParamRewrite(d, tail, replace.value);
      Append(out, replace.value(ParamIndex(d)), Rewrite(tail, Outside, replace.value));
    } else {
      ParamRewrite(d, tail, (n: nat) => "");
      Append(out, ['$'] + d, tail);
    }
  }

  ghost predicate Standing(sql: string, i: nat, m: Mode, replace: Option<nat -> string>, out: string, maxIdx: nat)
    requires i <= |sql|
  {
    Progress(sql, sql[i..], m, replace, out, maxIdx)
  }

  lemma ByteStepAt(sql: string, i: nat, m: Mode, replace: Option<nat -> string>, out: string, maxIdx: nat)
    requires i < |sql|
    requires m.Outside? && sql[i] == '$' && i + 1 < |sql| ==> !('1' <= sql[i + 1] <= '9')
    requires Standing(sql, i, m, replace, out, maxIdx)
    ensures Standing(sql, i + 1, Next(m, sql[i]), replace, out + [sql[i]], maxIdx)
  {
    assert sql[i..] == [sql[i]] + sql[i + 1..];
    ByteStep(sql, sql[i], sql[i + 1..], m, replace, out, maxIdx);
  }

  lemma Cut(s: string, i: nat, j: nat)
    requires i < j <= |s|
    ensures s[i..] == s[i..j] + s[j..] && s[i..j] == [s[i]] + s[i + 1..j]
  {
  }

  lemma ParamStepAt(sql: string, i: nat, j: nat, replace: Option<nat -> string>, out: string, maxIdx: nat)
    requires i + 1 < j <= |sql| && sql[i] == '$' && sql[i + 1] != '0'
    requires AllDigits(sql[i + 1..j]) && (j < |sql| ==> !IsDigit(sql[j]))
    requires Standing(sql, i, Outside, replace, out, maxIdx)
    ensures var idx := ParamIndex(sql[i + 1..j]);
            var piece := if replace.Some? then replace.value(idx) else sql[i..j];
            Standing(sql, j, Outside, replace, out + piece, Max(idx, maxIdx))
  {
    Cut(sql, i, j);
    var d, tail := sql[i + 1..j], sql[j..];
    assert d[0] == sql[i + 1];
    assert tail != [] ==> tail[0] == sql[j];
    ParamStep(sql, d, tail, replace, out, maxIdx);
  }

  lemma Start(sql: string, replace: Option<nat -> string>)
    ensures Standing(sql, 0, Outside, replace, [], 0)
  {
    assert sql[0..] == sql;
  }

  lemma End(sql: string, m: Mode, replace: Option<nat -> string>, out: string, maxIdx: nat)
    requires Standing(sql, |sql|, m, replace, out, maxIdx)
    ensures maxIdx == MaxIndex(sql, Outside)
    ensures match replace case None => out == sql case Some(r) => out == Rewrite(sql, Outside, r)
  {
    assert sql[|sql|..] == [];
  }

  method ScanParams(sql: string, replace: Option<nat -> string>) returns (out: string, maxIdx: nat)
    ensures maxIdx == MaxIndex(sql, Outside)
    ensures replace.None? ==> out == sql
    ensures replace.Some? ==> out == Rewrite(sql, Outside, replace.value)
  {
    hide Standing, Rewrite, MaxIndex;
    out, maxIdx := [], 0;
    var quote := Outside;
    var i := 0;
    Start(sql, replace);
    while i < |sql|
      invariant 0 <= i <= |sql|
      invariant quote.Inside? ==> IsQuote(quote.q)
      invariant Standing(sql, i, quote, replace, out, maxIdx)
    {
      var c := sql[i];
      if quote.Inside? {
        ByteStepAt(sql, i, quote, replace, out, maxIdx);
        out := out + [c];
        if c == quote.q {
          if i + 1 < |sql| && sql[i + 1] == quote.q { // doubled: stay inside
            ByteStepAt(sql, i + 1, Outside, replace, out, maxIdx);
            out := out + [sql[i + 1]];
            i := i + 1;
          } else {
            quote := Outside;
          }
        }
        i := i + 1;
      } else if c == '\'' || c == '"' {
        ByteStepAt(sql, i, quote, replace, out, maxIdx);
        quote := Inside(c);
        out := out + [c];
        i := i + 1;
      } else if c == '$' && i + 1 < |sql| && '1' <= sql[i + 1] <= '9' {
        var j := DigitsEnd(sql, i + 1);
        ParamStepAt(sql, i, j, replace, out, maxIdx);
        var idx := ParamIndex(sql[i + 1..j]);
        if idx > maxIdx {
          maxIdx := idx;
        }
        if replace.Some? {
          out := out + replace.value(idx);
        } else {
          out := out + sql[i..j];
        }
        i := j;
      } else {
        ByteStepAt(sql, i, quote, replace, out, maxIdx);
        out := out + [c];
        i := i + 1;
      }
    }
    End(sql, quote, replace, out, maxIdx);
  }

  /** The inner loop: the end of the digits that start at `from`. */
  method DigitsEnd(sql: string, from: nat) returns (j: nat)
    requires from < |sql| && IsDigit(sql[from])
    ensures from < j <= |sql| && AllDigits(sql[from..j]) && (j < |sql| ==> !IsDigit(sql[j]))
  {
    j := from;
    while j < |sql| && IsDigit(sql[j])
      invariant from <= j <= |sql|
      invariant forall k :: from <= k < j ==> IsDigit(sql[k])
    {
      j := j + 1;
    }
  }

  function Max(a: nat, b: nat): nat {
    if a > b then a else b
  }

  // ---------- substituteParams and maxParamIndex ----------

  type Params = seq<Option<string>>

  predicate Bound(ps: Params, idx: nat) {
    1 <= idx <= |ps| && ps[idx - 1].Some?
  }

  function ParamText(ps: Params, idx: nat): string {
    if Bound(ps, idx) then Literal(ps[idx - 1].value) else "NULL"
  }

  function Replacer(ps: Params): nat -> string {
    (idx: nat) => ParamText(ps, idx)
  }

  function Substitute(sql: string, ps: Params): string {
    Rewrite(sql, Outside, Replacer(ps))
  }

  method MaxParamIndex(sql: string) returns (n: nat)
    ensures n == MaxIndex(sql, Outside)
  {
    var _, k := ScanParams(sql, None);
    n := k;
  }

  method SubstituteParams(sql: string, ps: Params) returns (out: string)
    ensures out == Substitute(sql, ps)
  {
    var text, _ := ScanParams(sql, Some(Replacer(ps)));
    out := text;
  }

  // ---------- no placeholder is left ----------

  /** Inside a literal the machine meets no placeholder, and it is outside again at the closing quote,
      whatever follows. */
  lemma {:induction false} LiteralBodyHidesParams(v: string, rest: string)
    ensures MaxIndex(Double(v, '\'') + ['\''] + rest, Inside('\'')) == MaxIndex(rest, Outside)
    decreases |v|
  {
    var s := Double(v, '\'') + ['\''] + rest;
    if v == [] {
      assert s[1..] == rest;
    } else {
      LiteralBodyHidesParams(v[1..], rest);
      var tail := Double(v[1..], '\'') + ['\''] + rest;
      if v[0] == '\'' {
        assert s[1..] == ['\''] + tail;
        assert s[1..][1..] == tail;
      } else {
        assert s[1..] == tail;
      }
    }
  }

  lemma {:induction false} PlainTextHidesParams(t: string, rest: string)
    requires forall i :: 0 <= i < |t| ==> !IsQuote(t[i]) && t[i] != '$'
    ensures MaxIndex(t + rest, Outside) == MaxIndex(rest, Outside)
  {
    if t == [] {
      assert t + rest == rest;
    } else {
      PlainTextHidesParams(t[1..], rest);
      assert (t + rest)[1..] == t[1..] + rest;
    }
  }

  lemma ReplacementHidesParams(ps: Params, idx: nat, rest: string)
    ensures MaxIndex(ParamText(ps, idx) + rest, Outside) == MaxIndex(rest, Outside)
  {
    if Bound(ps, idx) {
      var v := ps[idx - 1].value;
      var s := Literal(v) + rest;
      LiteralBodyHidesParams(v, rest);
      assert s[1..] == Double(v, '\'') + ['\''] + rest;
    } else {
      PlainTextHidesParams("NULL", rest);
    }
  }

  /** What a rewritten text can start with: the byte the source starts with, or a replacement. */
  lemma RewriteHead(s: string, m: Mode, ps: Params)
    requires s != []
    ensures var out := Rewrite(s, m, Replacer(ps));
            out != [] && (out[0] == s[0] || out[0] == '\'' || out[0] == 'N')
  {
  }

  lemma {:induction false} NothingLeft(s: string, m: Mode, ps: Params)
    ensures MaxIndex(Rewrite(s, m, Replacer(ps)), m) == 0
    decreases |s|
  {
    var out := Rewrite(s, m, Replacer(ps));
    if s == [] {
    } else if m.Outside? && AtParam(s) {
      var d := ParamDigits(s);
      var rest := s[1 + |d|..];
      NothingLeft(rest, Outside, ps);
      ReplacementHidesParams(ps, ParamIndex(d), Rewrite(rest, Outside, Replacer(ps)));
    } else {
      NothingLeft(s[1..], Next(m, s[0]), ps);
      assert out[1..] == Rewrite(s[1..], Next(m, s[0]), Replacer(ps));
      if s[1..] != [] { RewriteHead(s[1..], Next(m, s[0]), ps); }
      assert !(m.Outside? && AtParam(out));
    }
  }

  /** For every text and every parameter list, the substituted text has no placeholder. */
  lemma SubstituteLeavesNoPlaceholder(sql: string, ps: Params)
    ensures MaxIndex(Substitute(sql, ps), Outside) == 0
  {
    NothingLeft(sql, Outside, ps);
  }

  lemma ParamIndexPositive(s: string)
    requires AtParam(s)
    ensures ParamIndex(ParamDigits(s)) >= 1
  {
    LeadingDigitPositive(ParamDigits(s));
  }

  lemma {:induction false} RewriteIdentity(s: string, m: Mode, r: nat -> string)
    requires MaxIndex(s, m) == 0
    ensures Rewrite(s, m, r) == s
    decreases |s|
  {
    if s != [] {
      if m.Outside? && AtParam(s) { ParamIndexPositive(s); }
      RewriteIdentity(s[1..], Next(m, s[0]), r);
    }
  }

  /** A text with no placeholder is sent as it is, whatever is bound. */
  lemma SubstituteIdentity(sql: string, ps: Params)
    requires MaxIndex(sql, Outside) == 0
    ensures Substitute(sql, ps) == sql
  {
    RewriteIdentity(sql, Outside, Replacer(ps));
  }

  /** A second substitution, with any other parameters, changes nothing. */
  lemma SubstituteIdempotent(sql: string, ps: Params, qs: Params)
    ensures Substitute(Substitute(sql, ps), qs) == Substitute(sql, ps)
  {
    SubstituteLeavesNoPlaceholder(sql, ps);
    SubstituteIdentity(Substitute(sql, ps), qs);
  }

  // ---------- the announced parameter count ----------

  lemma {:induction false} RewriteAgrees(s: string, m: Mode, r1: nat -> string, r2: nat -> string)
    requires forall i :: 1 <= i <= MaxIndex(s, m) ==> r1(i) == r2(i)
    ensures Rewrite(s, m, r1) == Rewrite(s, m, r2)
    decreases |s|
  {
    if s == [] {
    } else if m.Outside? && AtParam(s) {
      ParamIndexPositive(s);
      RewriteAgrees(s[1 + |ParamDigits(s)|..], Outside, r1, r2);
    } else {
      RewriteAgrees(s[1..], Next(m, s[0]), r1, r2);
    }
  }

  /** Only the first `MaxIndex` parameters matter. */
  lemma AnnouncedCountIsEnough(sql: string, ps: Params, qs: Params)
    requires var n := MaxIndex(sql, Outside); n <= |ps| && n <= |qs| && ps[..n] == qs[..n]
    ensures Substitute(sql, ps) == Substitute(sql, qs)
  {
    var n := MaxIndex(sql, Outside);
    forall i | 1 <= i <= n ensures Replacer(ps)(i) == Replacer(qs)(i) {
      assert ps[..n][i - 1] == ps[i - 1] && qs[..n][i - 1] == qs[i - 1];
    }
    RewriteAgrees(sql, Outside, Replacer(ps), Replacer(qs));
  }

  /** If two replacers agree below slot `n` and the one text for slot `n` is no shorter, so is the output. */
  lemma {:induction false} LongerSlot(s: string, m: Mode, r1: nat -> string, r2: nat -> string, n: nat)
    requires MaxIndex(s, m) <= n && |r1(n)| <= |r2(n)|
    requires forall i :: 1 <= i < n ==> r1(i) == r2(i)
    ensures |Rewrite(s, m, r1)| <= |Rewrite(s, m, r2)|
    ensures n > 0 && MaxIndex(s, m) == n && |r1(n)| < |r2(n)| ==> |Rewrite(s, m, r1)| < |Rewrite(s, m, r2)|
    decreases |s|
  {
    if s == [] {
    } else if m.Outside? && AtParam(s) {
      ParamIndexPositive(s);
      LongerSlot(s[1 + |ParamDigits(s)|..], Outside, r1, r2, n);
    } else {
      LongerSlot(s[1..], Next(m, s[0]), r1, r2, n);
    }
  }

  lemma Unconcat(a: string, x: string, b: string, y: string)
    requires |a| == |b| && a + x == b + y
    ensures a == b && x == y
  {
    assert (a + x)[..|a|] == a && (b + y)[..|a|] == b;
    assert (a + x)[|a|..] == x && (b + y)[|a|..] == y;
  }

  lemma {:induction false} SameLengthSlot(s: string, m: Mode, r1: nat -> string, r2: nat -> string, n: nat)
    requires n > 0 && MaxIndex(s, m) == n && |r1(n)| == |r2(n)| && r1(n) != r2(n)
    requires forall i :: 1 <= i < n ==> r1(i) == r2(i)
    ensures Rewrite(s, m, r1) != Rewrite(s, m, r2)
    decreases |s|
  {
    if m.Outside? && AtParam(s) {
      ParamIndexPositive(s);
      var d := ParamDigits(s);
      var rest := s[1 + |d|..];
      var k := ParamIndex(d);
      if k < n { SameLengthSlot(rest, Outside, r1, r2, n); }
      if Rewrite(s, m, r1) == Rewrite(s, m, r2) {
        Unconcat(r1(k), Rewrite(rest, Outside, r1), r2(k), Rewrite(rest, Outside, r2));
      }
    } else {
      SameLengthSlot(s[1..], Next(m, s[0]), r1, r2, n);
      if Rewrite(s, m, r1) == Rewrite(s, m, r2) {
        Unconcat([s[0]], Rewrite(s[1..], Next(m, s[0]), r1), [s[0]], Rewrite(s[1..], Next(m, s[0]), r2));
      }
    }
  }

  lemma {:induction false} DoubleInjective(a: string, b: string, q: char)
    requires Double(a, q) == Double(b, q)
    ensures a == b
    decreases |a|
  {
    if a == [] || b == [] {
    } else {
      var x, y := Double(a, q), Double(b, q);
      assert x[0] == a[0] && y[0] == b[0];
      var k := if a[0] == q then 2 else 1;
      assert x[k..] == Double(a[1..], q) && y[k..] == Double(b[1..], q);
      DoubleInjective(a[1..], b[1..], q);
      assert a == [a[0]] + a[1..] && b == [b[0]] + b[1..];
    }
  }

  lemma ParamTextInjective(ps: Params, qs: Params, idx: nat)
    requires 1 <= idx <= |ps| && idx <= |qs| && ps[idx - 1] != qs[idx - 1]
    ensures ParamText(ps, idx) != ParamText(qs, idx)
  {
    var p, q := ParamText(ps, idx), ParamText(qs, idx);
    if Bound(ps, idx) && Bound(qs, idx) {
      var a, b := ps[idx - 1].value, qs[idx - 1].value;
      assert p[1..|p| - 1] == Double(a, '\'') && q[1..|q| - 1] == Double(b, '\'');
      if p == q { DoubleInjective(a, b, '\''); }
    } else {
      assert p[0] != q[0];
    }
  }

  /** The last announced slot is used: two different values in it (or a value and NULL) give different SQL. */
  lemma AnnouncedCountIsTight(sql: string, ps: Params, qs: Params)
    requires var n := MaxIndex(sql, Outside);
             n > 0 && n <= |ps| && n <= |qs| && ps[..n - 1] == qs[..n - 1] && ps[n - 1] != qs[n - 1]
    ensures Substitute(sql, ps) != Substitute(sql, qs)
  {
    var n := MaxIndex(sql, Outside);
    var r1, r2 := Replacer(ps), Replacer(qs);
    ParamTextInjective(ps, qs, n);
    forall i | 1 <= i < n ensures r1(i) == r2(i) {
      assert ps[..n - 1][i - 1] == ps[i - 1] && qs[..n - 1][i - 1] == qs[i - 1];
    }
    if |r1(n)| == |r2(n)| {
      SameLengthSlot(sql, Outside, r1, r2, n);
    } else if |r1(n)| < |r2(n)| {
      LongerSlot(sql, Outside, r1, r2, n);
    } else {
      LongerSlot(sql, Outside, r2, r1, n);
    }
  }

  // ---------- when binding changes nothing ----------

  /** Some placeholder of `s` has a value in `ps`. */
  predicate AnyBound(s: string, m: Mode, ps: Params)
    decreases |s|
  {
    s != [] &&
    if m.Outside? && AtParam(s) then
      Bound(ps, ParamIndex(ParamDigits(s))) || AnyBound(s[1 + |ParamDigits(s)|..], Outside, ps)
    else AnyBound(s[1..], Next(m, s[0]), ps)
  }

  lemma {:induction false} RewriteLikeNull(s: string, m: Mode, ps: Params)
    ensures Rewrite(s, m, Replacer(ps)) == Rewrite(s, m, Replacer([])) <==> !AnyBound(s, m, ps)
    decreases |s|
  {
    if s != [] {
      var out, nul := Rewrite(s, m, Replacer(ps)), Rewrite(s, m, Replacer([]));
      if m.Outside? && AtParam(s) {
        var d := ParamDigits(s);
        var k := ParamIndex(d);
        var rest := s[1 + |d|..];
        RewriteLikeNull(rest, Outside, ps);
        if Bound(ps, k) {
          assert out[0] == '\'' && nul[0] == 'N';
        } else if out == nul {
          Unconcat("NULL", Rewrite(rest, Outside, Replacer(ps)), "NULL", Rewrite(rest, Outside, Replacer([])));
        }
      } else {
        var rest := s[1..];
        RewriteLikeNull(rest, Next(m, s[0]), ps);
        if out == nul {
          Unconcat([s[0]], Rewrite(rest, Next(m, s[0]), Replacer(ps)), [s[0]], Rewrite(rest, Next(m, s[0]), Replacer([])));
        }
      }
    }
  }

  /** The executed text is the described one exactly when no placeholder has a value. */
  lemma SameTextAsProbe(sql: string, ps: Params)
    ensures Substitute(sql, ps) == Substitute(sql, []) <==> !AnyBound(sql, Outside, ps)
  {
    RewriteLikeNull(sql, Outside, ps);
  }
}
