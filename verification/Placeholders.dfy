/** Which parameter a placeholder means, told on the bytes of the statement. */
module Placeholders {
  import opened Basics
  import opened Decimal
  import opened ScanParams

  /** What a placeholder for parameter `n` is replaced by: the value between single quotes with its own
      doubled, or NULL if there is none. */
  function Inlined(ps: Params, n: nat): string {
    if 1 <= n <= |ps| && ps[n - 1].Some? then "'" + Double(ps[n - 1].value, '\'') + "'" else "NULL"
  }

  predicate NoDigitFirst(tail: string) {
    tail == "" || !('0' <= tail[0] <= '9')
  }

  lemma IndexOf(n: nat)
    requires n >= 1
    ensures var d := Format(n);
            d != "" && d[0] != '0' && AllDigits(d) && ParamIndex(d) == if n <= INT64_MAX then n else INT64_MAX
  {
    hide Value, Digits;
    DigitsValue(n);
    LeadingDigit(n);
  }

  lemma InlinedIs(ps: Params, k: nat)
    ensures Replacer(ps)(k) == Inlined(ps, k)
  {
    hide Double;
  }

  /** `$N` means parameter N, for every N: it raises the announced count to N and is replaced by value N.
      A number beyond int64 means the largest int64. */
  lemma PlaceholderMeans(n: nat, tail: string, ps: Params)
    requires n >= 1 && NoDigitFirst(tail)
    ensures var text, k := "$" + Format(n) + tail, if n <= INT64_MAX then n else INT64_MAX;
            var later := MaxIndex(tail, Outside);
            && MaxIndex(text, Outside) == (if k > later then k else later)
            && Substitute(text, ps) == Inlined(ps, k) + Substitute(tail, ps)
  {
    hide Rewrite, MaxIndex, Format, AllDigits, ParamIndex, ParamText, Inlined;
    IndexOf(n);
    InlinedIs(ps, if n <= INT64_MAX then n else INT64_MAX);
    ParamRewrite(Format(n), tail, Replacer(ps));
    assert ['$'] + Format(n) + tail == "$" + Format(n) + tail;
  }

  /** A dollar sign before anything but the digits 1 to 9 is an ordinary byte. */
  lemma DollarAlone(tail: string, ps: Params)
    requires tail == "" || !('1' <= tail[0] <= '9')
    ensures MaxIndex("$" + tail, Outside) == MaxIndex(tail, Outside)
    ensures Substitute("$" + tail, ps) == "$" + Substitute(tail, ps)
  {
    assert ("$" + tail)[1..] == tail;
  }

  /** So is every byte that is neither a dollar sign nor a quote. */
  lemma OtherByte(c: char, tail: string, ps: Params)
    requires c != '$' && c != '\'' && c != '"'
    ensures MaxIndex([c] + tail, Outside) == MaxIndex(tail, Outside)
    ensures Substitute([c] + tail, ps) == [c] + Substitute(tail, ps)
  {
    assert ([c] + tail)[1..] == tail;
  }

  lemma {:induction false} InsideCopied(body: string, q: char, tail: string, ps: Params)
    requires (q == '\'' || q == '"') && q !in body
    ensures MaxIndex(body + [q] + tail, Inside(q)) == MaxIndex(tail, Outside)
    ensures Rewrite(body + [q] + tail, Inside(q), Replacer(ps)) == body + [q] + Substitute(tail, ps)
    ensures MaxIndex(body, Inside(q)) == 0 && Rewrite(body, Inside(q), Replacer(ps)) == body
  {
    var s := body + [q] + tail;
    if body == [] {
      assert s[1..] == tail;
    } else {
      var rest := body[1..];
      assert s[1..] == rest + [q] + tail && body == [body[0]] + rest;
      InsideCopied(rest, q, tail, ps);
      Append([body[0]], rest + [q], Substitute(tail, ps));
      assert [body[0]] + (rest + [q]) == body + [q];
    }
  }

  /** What stands between two single or two double quotes is copied, dollar signs and all; so is what
      follows a quote that is never closed. */
  lemma QuotedIsCopied(q: char, body: string, tail: string, ps: Params)
    requires (q == '\'' || q == '"') && q !in body
    ensures MaxIndex([q] + body + [q] + tail, Outside) == MaxIndex(tail, Outside)
    ensures Substitute([q] + body + [q] + tail, ps) == [q] + body + [q] + Substitute(tail, ps)
    ensures MaxIndex([q] + body, Outside) == 0 && Substitute([q] + body, ps) == [q] + body
  {
    hide Rewrite, MaxIndex;
    InsideCopied(body, q, tail, ps);
    var r := Replacer(ps);
    OpenQuote(q, body + [q] + tail, r);
    OpenQuote(q, body, r);
    assert [q] + (body + [q] + tail) == [q] + body + [q] + tail;
    assert [q] + (body + [q] + Substitute(tail, ps)) == [q] + body + [q] + Substitute(tail, ps);
  }

  lemma OpenQuote(q: char, rest: string, r: nat -> string)
    requires q == '\'' || q == '"'
    ensures MaxIndex([q] + rest, Outside) == MaxIndex(rest, Inside(q))
    ensures Rewrite([q] + rest, Outside, r) == [q] + Rewrite(rest, Inside(q), r)
  {
    assert ([q] + rest)[1..] == rest;
  }
}
