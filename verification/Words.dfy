/** Words at the head of a statement, told byte by byte: what the keyword tests of the protocols come to. */
module Words {
  import opened Basics
  import opened Decimal
  import opened Results
  import opened SqlText

  // ---------- letters and white space, independently of Upper and TrimSpace ----------

  /** Equal but for the case of an ASCII letter. */
  predicate SameLetter(c: char, d: char) {
    c == d
    || ('a' <= c <= 'z' && d as int == c as int - 32)
    || ('A' <= c <= 'Z' && d as int == c as int + 32)
  }

  predicate SameLetters(a: string, b: string) {
    |a| == |b| && forall i :: 0 <= i < |a| ==> SameLetter(a[i], b[i])
  }

  predicate White(c: char) {
    c == ' ' || 9 <= c as int <= 13
  }

  /** The bytes from `i` up to `j` are white. */
  predicate AllWhite(s: string, i: nat, j: nat)
    requires j <= |s|
  {
    forall k :: i <= k < j ==> White(s[k])
  }

  predicate Capital(w: string) {
    w != "" && forall i :: 0 <= i < |w| ==> 'A' <= w[i] <= 'Z'
  }

  lemma SameLettersIff(a: string, b: string)
    ensures Upper(a) == Upper(b) <==> SameLetters(a, b)
    ensures Lower(a) == Lower(b) <==> SameLetters(a, b)
  {
    if Upper(a) == Upper(b) {
      forall i | 0 <= i < |a| ensures SameLetter(a[i], b[i]) { assert Upper(a)[i] == Upper(b)[i]; }
    }
    if Lower(a) == Lower(b) {
      forall i | 0 <= i < |a| ensures SameLetter(a[i], b[i]) { assert Lower(a)[i] == Lower(b)[i]; }
    }
  }

  lemma UpperIs(a: string, w: string)
    requires Capital(w)
    ensures Upper(a) == w <==> SameLetters(a, w)
  {
    assert Upper(w) == w;
    SameLettersIff(a, w);
  }

  lemma {:induction false} UntilIs(s: string, a: string, stop: char -> bool)
    ensures Until(s, stop) == a <==>
            |a| <= |s| && s[..|a|] == a && (forall i :: 0 <= i < |a| ==> !stop(a[i])) && (|a| == |s| || stop(s[|a|]))
    decreases |s|
  {
    if s != [] && !stop(s[0]) {
      var t := s[1..];
      if a != [] {
        UntilIs(t, a[1..], stop);
        assert a == [a[0]] + a[1..];
        if |a| <= |s| { assert s[..|a|] == [s[0]] + t[..|a| - 1]; }
      }
    }
  }

  /** The text leads with the word, in any letter case, and then ends or goes on with a stop. */
  predicate LeadsWith(s: string, w: string, stop: char -> bool) {
    |w| <= |s| && SameLetters(s[..|w|], w) && (|w| == |s| || stop(s[|w|]))
  }

  lemma LeadingWord(s: string, w: string, stop: char -> bool)
    requires Capital(w) && forall c :: stop(c) ==> !('A' <= c <= 'Z') && !('a' <= c <= 'z')
    ensures Upper(Until(s, stop)) == w <==> LeadsWith(s, w, stop)
  {
    hide Upper;
    var u := Until(s, stop);
    UntilIs(s, u, stop);
    UpperIs(u, w);
    if LeadsWith(s, w, stop) {
      UntilIs(s, s[..|w|], stop);
      UpperIs(s[..|w|], w);
    }
  }

  // ---------- trimming ----------

  /** `t` is the text between the white space at the ends of `s`. */
  predicate Trims(s: string, i: nat, t: string) {
    && i + |t| <= |s| && s[i..i + |t|] == t
    && AllWhite(s, 0, i) && AllWhite(s, i + |t|, |s|)
    && (t != "" ==> !White(t[0]) && !White(t[|t| - 1]))
  }

  lemma {:induction false} TrimLeftParts(s: string) returns (i: nat)
    ensures i <= |s| && AllWhite(s, 0, i) && TrimLeft(s, IsSpace) == s[i..] && (i < |s| ==> !White(s[i]))
  {
    i := 0;
    if s != [] && IsSpace(s[0]) {
      var j := TrimLeftParts(s[1..]);
      i := j + 1;
      forall k | 0 <= k < i ensures White(s[k]) {
        if k > 0 { assert s[k] == s[1..][k - 1]; }
      }
    }
  }

  lemma {:induction false} TrimRightParts(s: string) returns (j: nat)
    ensures j <= |s| && AllWhite(s, j, |s|) && TrimRight(s, IsSpace) == s[..j] && (j > 0 ==> !White(s[j - 1]))
  {
    j := |s|;
    if s != [] && IsSpace(s[|s| - 1]) {
      var front := s[..|s| - 1];
      j := TrimRightParts(front);
      forall k | j <= k < |s| ensures White(s[k]) {
        if k < |s| - 1 { assert s[k] == front[k]; }
      }
      assert front[..j] == s[..j];
    } else {
      assert s[..|s|] == s;
    }
  }

  lemma TrimSpaceParts(s: string) returns (i: nat)
    ensures Trims(s, i, TrimSpace(s))
  {
    hide TrimLeft, TrimRight;
    i := TrimLeftParts(s);
    var u := s[i..];
    var j := TrimRightParts(u);
    var t := TrimSpace(s);
    assert t == u[..j] == s[i..i + j];
    forall k | i + j <= k < |s| ensures White(s[k]) {
      assert s[k] == u[k - i];
    }
    assert t != "" ==> t[0] == s[i] == u[0] && t[|t| - 1] == u[j - 1];
  }

  // ---------- keywords ----------

  /** After white space the statement's first word is `w`, in any letter case: nothing but white space
      follows it, or a blank, a line break, an opening parenthesis or a semicolon does. */
  ghost predicate BeginsWith(sql: string, w: string) {
    exists i: nat :: WordAt(sql, w, i)
  }

  predicate WordAt(sql: string, w: string, i: nat) {
    && i + |w| <= |sql| && AllWhite(sql, 0, i) && SameLetters(sql[i..i + |w|], w)
    && (AllWhite(sql, i + |w|, |sql|) || sql[i + |w|] in {' ', '\t', '\r', '\n', '(', ';'})
  }

  lemma KeywordIs(sql: string, w: string)
    requires Capital(w)
    ensures FirstKeyword(sql) == w <==> BeginsWith(sql, w)
  {
    hide TrimSpace, Upper, Until;
    var t := TrimSpace(sql);
    var i := TrimSpaceParts(sql);
    LeadingWord(t, w, EndsKeyword);
    if LeadsWith(t, w, EndsKeyword) {
      assert sql[i..i + |w|] == t[..|w|];
      if |w| < |t| { assert sql[i + |w|] == t[|w|]; }
      assert WordAt(sql, w, i);
    }
    if BeginsWith(sql, w) {
      var k: nat :| WordAt(sql, w, k);
      WordIsTrimmed(sql, w, i, t, k);
    }
  }

  lemma WordIsTrimmed(sql: string, w: string, i: nat, t: string, k: nat)
    requires Capital(w) && Trims(sql, i, t) && WordAt(sql, w, k)
    ensures LeadsWith(t, w, EndsKeyword)
  {
    var n := |w|;
    assert SameLetter(sql[k..k + n][0], w[0]) && SameLetter(sql[k..k + n][n - 1], w[n - 1]);
    assert !White(sql[k]) && !White(sql[k + n - 1]);
    assert t != "" ==> t[0] == sql[i] && t[|t| - 1] == sql[i + |t| - 1];
    assert k == i;
    assert k + n <= i + |t|;
    assert t[..n] == sql[k..k + n];
    assert n < |t| ==> t[n] == sql[k + n];
  }

  /** What each protocol step reads off a statement, without `FirstKeyword`. */
  ghost predicate BeginsWithAny(sql: string, words: seq<string>) {
    exists k :: 0 <= k < |words| && BeginsWith(sql, words[k])
  }

  const ROW_WORDS := ["SELECT", "WITH", "VALUES", "SHOW", "TABLE", "EXPLAIN", "DESCRIBE", "PRAGMA", "CALL"]
  const OPENING_WORDS := ["BEGIN", "START"]
  const CLOSING_WORDS := ["COMMIT", "ROLLBACK", "END"]

  lemma KeywordAmong(sql: string, words: seq<string>)
    requires forall k :: 0 <= k < |words| ==> Capital(words[k])
    ensures FirstKeyword(sql) in words <==> BeginsWithAny(sql, words)
  {
    hide FirstKeyword, BeginsWith;
    forall k | 0 <= k < |words| ensures FirstKeyword(sql) == words[k] <==> BeginsWith(sql, words[k]) {
      KeywordIs(sql, words[k]);
    }
  }

  /** A text is in the row-returning list, opens a transaction or closes one by its first word, whatever
      the letter case and the white space around it. */
  lemma KeywordTests(sql: string)
    ensures ReturnsRows(sql) <==> BeginsWithAny(sql, ROW_WORDS)
    ensures OpensTransaction(sql) <==> BeginsWithAny(sql, OPENING_WORDS)
    ensures ClosesTransaction(sql) <==> BeginsWithAny(sql, CLOSING_WORDS)
  {
    hide FirstKeyword, BeginsWithAny;
    KeywordAmong(sql, ROW_WORDS);
    KeywordAmong(sql, OPENING_WORDS);
    KeywordAmong(sql, CLOSING_WORDS);
  }

  // ---------- blank statements ----------

  predicate Ink(c: char) {
    !White(c) && c != ';'
  }

  lemma {:induction false} TrimLeftAll(s: string, cut: char -> bool)
    ensures var r := TrimLeft(s, cut);
            && |r| <= |s| && s[|s| - |r|..] == r && (r != [] ==> !cut(r[0]))
            && forall k :: 0 <= k < |s| - |r| ==> cut(s[k])
    decreases |s|
  {
    if s != [] && cut(s[0]) {
      TrimLeftAll(s[1..], cut);
      var r := TrimLeft(s[1..], cut);
      assert s[1..][|s| - 1 - |r|..] == s[|s| - |r|..];
      forall k | 0 <= k < |s| - |r| ensures cut(s[k]) {
        if k > 0 { assert s[1..][k - 1] == s[k]; }
      }
    }
  }

  lemma {:induction false} TrimRightNothing(s: string, cut: char -> bool)
    requires s != [] && !cut(s[0])
    ensures TrimRight(s, cut) != []
    decreases |s|
  {
    if cut(s[|s| - 1]) { TrimRightNothing(s[..|s| - 1], cut); }
  }

  /** A statement is blank exactly if it has only semicolons and white space. */
  lemma BlankIff(sql: string)
    ensures Blank(sql) <==> forall i :: 0 <= i < |sql| ==> !Ink(sql[i])
  {
    hide TrimLeft, TrimRight;
    var cut := (c: char) => c == ';' || IsSpace(c);
    TrimLeftAll(sql, cut);
    var r := TrimLeft(sql, cut);
    if r != [] {
      TrimRightNothing(r, cut);
      assert Ink(sql[|sql| - |r|]);
    } else {
      TrimRightEmpty(cut);
    }
  }

  lemma TrimRightEmpty(cut: char -> bool)
    ensures TrimRight([], cut) == []
  {
  }

  // ---------- command tags ----------

  /** As `BeginsWith`, the word ending only at white space. */
  predicate TagWordAt(sql: string, w: string, i: nat) {
    && i + |w| <= |sql| && AllWhite(sql, 0, i) && SameLetters(sql[i..i + |w|], w)
    && (i + |w| == |sql| || White(sql[i + |w|]))
  }

  lemma TagWordIs(sql: string, w: string, i: nat)
    requires Capital(w) && TagWordAt(sql, w, i)
    ensures Upper(Until(TrimLeft(sql, IsSpace), IsSpace)) == w
  {
    hide TrimLeft, Upper, Until;
    var j := TrimLeftParts(sql);
    assert SameLetter(sql[i..i + |w|][0], w[0]);
    assert !White(sql[i]);
    assert j == i;
    var t := sql[i..];
    assert t[..|w|] == sql[i..i + |w|];
    assert |w| < |t| ==> t[|w|] == sql[i + |w|];
    LeadingWord(t, w, IsSpace);
  }

  /** The tag of a statement that returned or affected `n` rows, by its first word in any letter case. */
  lemma TagSays(sql: string, w: string, i: nat, n: nat)
    requires Capital(w) && TagWordAt(sql, w, i)
    ensures w in ["SELECT", "WITH", "SHOW", "TABLE", "VALUES"] ==> CommandTag(sql, n) == "SELECT " + Format(n)
    ensures w == "INSERT" ==> CommandTag(sql, n) == "INSERT 0 " + Format(n)
    ensures w in ["UPDATE", "DELETE"] ==> CommandTag(sql, n) == w + " " + Format(n)
    ensures w !in ["SELECT", "WITH", "SHOW", "TABLE", "VALUES", "INSERT", "UPDATE", "DELETE"] ==> CommandTag(sql, n) == w
  {
    hide Format, Upper, Until, TrimLeft;
    TagWordIs(sql, w, i);
  }

  // ---------- type names ----------

  /** The letter case of a type's name and its parameters do not matter. */
  lemma TypeNameForms(base: string, other: string, args: string)
    requires '(' !in base && SameLetters(base, other)
    ensures TypeOf(other) == TypeOf(base) == TypeOf(base + "(" + args)
  {
    hide TypeOfBase;
    var stop := (c: char) => c == '(';
    SameLettersIff(base, other);
    var u := Upper(base);
    assert Upper(base + "(" + args) == u + "(" + Upper(args);
    NoParenthesis(base);
    UntilIs(u, u, stop);
    UntilIs(u + "(" + Upper(args), u, stop);
  }

  lemma NoParenthesis(s: string)
    requires '(' !in s
    ensures forall i :: 0 <= i < |Upper(s)| ==> Upper(s)[i] != '('
  {
  }
}
