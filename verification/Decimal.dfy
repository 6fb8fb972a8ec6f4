/** Decimal text of integers: strconv.FormatInt, strconv.ParseInt, strconv.Atoi, big.Int.SetString. */
module Decimal {
  import opened Basics

  predicate IsDigit(c: char) {
    '0' <= c <= '9'
  }

  predicate AllDigits(s: string) {
    forall i :: 0 <= i < |s| ==> IsDigit(s[i])
  }

  function Value(s: string): nat
    requires AllDigits(s)
  {
    if s == [] then 0
    else Value(s[..|s| - 1]) * 10 + (s[|s| - 1] as int - '0' as int)
  }

  function Digit(d: nat): char
    requires d < 10
  {
    (d + '0' as int) as char
  }

  function Digits(n: nat): string {
    if n < 10 then [Digit(n)] else Digits(n / 10) + [Digit(n % 10)]
  }

  function Format(n: int): string {
    if n < 0 then ['-'] + Digits(-n) else Digits(n)
  }

  /** An optional sign and at least one digit; no bound on the value. */
  function Parse(s: string): Option<int> {
    var t := if s != [] && (s[0] == '-' || s[0] == '+') then s[1..] else s;
    if t == [] || !AllDigits(t) then None
    else
      var v: int := Value(t);
      Some(if s[0] == '-' then -v else v)
  }

  function Clamp64(n: int): (r: int)
    ensures FitsInt64(r)
  {
    if n > INT64_MAX then INT64_MAX else if n < INT64_MIN then INT64_MIN else n
  }

  /** strconv.ParseInt(s, 10, 64) with its error ignored: 0 on bad syntax, the nearest bound on overflow. */
  function ParseInt64(s: string): (r: int)
    ensures FitsInt64(r)
  {
    match Parse(s)
    case None => 0
    case Some(n) => Clamp64(n)
  }

  lemma {:induction false} DigitsValue(n: nat)
    ensures Digits(n) != [] && AllDigits(Digits(n)) && Value(Digits(n)) == n
  {
    if n >= 10 {
      DigitsValue(n / 10);
      var s := Digits(n);
      assert s[..|s| - 1] == Digits(n / 10);
    } else {
      assert Digits(n)[..0] == [];
    }
  }

  /** Parsing undoes formatting, for every integer. */
  lemma ParseFormat(n: int)
    ensures Parse(Format(n)) == Some(n)
  {
    DigitsValue(if n < 0 then -n else n);
    if n < 0 {
      assert Format(n)[1..] == Digits(-n);
    }
  }

  lemma {:induction false} LeadingDigitPositive(s: string)
    requires AllDigits(s) && s != [] && s[0] != '0'
    ensures Value(s) >= 1
  {
    if |s| > 1 {
      LeadingDigitPositive(s[..|s| - 1]);
    }
  }

  /** Formatting is decimal notation: one digit, a digit more at the end, or a sign in front. */
  lemma FormatIsDecimal(n: nat, d: nat)
    requires d < 10
    ensures Format(d) == ["0123456789"[d]]
    ensures n > 0 ==> Format(10 * n + d) == Format(n) + ["0123456789"[d]]
    ensures n > 0 ==> Format(0 - n) == "-" + Format(n)
  {
    assert (10 * n + d) / 10 == n && (10 * n + d) % 10 == d;
  }

  lemma {:induction false} LeadingDigit(n: nat)
    requires n > 0
    ensures Digits(n)[0] != '0'
  {
    if n >= 10 { LeadingDigit(n / 10); }
  }

  /** The forms Atoi and SetString take: a sign or none, and the digits of the magnitude; anything with
      another byte in it, or without a digit, is no number. */
  lemma ParseForms(s: string, n: nat)
    ensures Parse(Format(n)) == Parse("+" + Format(n)) == Some(n)
    ensures Parse("-" + Format(n)) == Some(0 - n)
    ensures Parse("") == Parse("-") == Parse("+") == None
    ensures (exists i :: 0 < i < |s| && !IsDigit(s[i])) ==> Parse(s) == None
  {
    DigitsValue(n);
    assert ("+" + Format(n))[1..] == Format(n) && ("-" + Format(n))[1..] == Format(n);
    if i :| 0 < i < |s| && !IsDigit(s[i]) {
      assert s[1..][i - 1] == s[i];
    }
  }
}
