/** The approximation report of internal/fidelity/fidelity.go. */
module Fidelity {
  import opened Basics
  import opened Decimal

  const NUL: char := 0 as char

  datatype Note = Note(column: string, reason: string, count: nat)

  type Pair = (string, string)

  function Key(column: string, reason: string): string {
    column + [NUL] + reason
  }

  // ---------- Add, as a function of the notes ----------

  function AddNote(notes: map<string, Note>, column: string, reason: string): map<string, Note> {
    var key := Key(column, reason);
    var n := if key in notes then notes[key] else Note(column, reason, 0);
    notes[key := n.(count := n.count + 1)]
  }

  /** The notes after a sequence of Adds. */
  function NotesOf(adds: seq<Pair>): map<string, Note> {
    if adds == [] then map[]
    else
      var last := adds[|adds| - 1];
      AddNote(NotesOf(adds[..|adds| - 1]), last.0, last.1)
  }

  lemma NotesOfSnoc(adds: seq<Pair>, column: string, reason: string)
    ensures NotesOf(adds + [(column, reason)]) == AddNote(NotesOf(adds), column, reason)
  {
    assert (adds + [(column, reason)])[..|adds|] == adds;
  }

  // ---------- the key is injective while reasons hold no NUL ----------

  predicate NulFree(s: string) {
    NUL !in s
  }

  predicate Clean(adds: seq<Pair>) {
    forall i :: 0 <= i < |adds| ==> NulFree(adds[i].1)
  }

  lemma LastNul(c: string, r: string)
    requires NulFree(r)
    ensures Key(c, r)[|c|] == NUL
    ensures forall i :: |c| < i < |Key(c, r)| ==> Key(c, r)[i] != NUL
    ensures Key(c, r)[..|c|] == c && Key(c, r)[|c| + 1..] == r
  {
    forall i | |c| < i < |Key(c, r)| ensures Key(c, r)[i] != NUL {
      assert Key(c, r)[i] == r[i - |c| - 1];
    }
  }

  lemma KeyInjective(c1: string, r1: string, c2: string, r2: string)
    requires NulFree(r1) && NulFree(r2) && Key(c1, r1) == Key(c2, r2)
    ensures c1 == c2 && r1 == r2
  {
    LastNul(c1, r1);
    LastNul(c2, r2);
    assert |c1| == |c2|;
  }

  /** With a NUL in a reason two different pairs can share a key, so the NUL-freeness is needed. */
  lemma KeyCollision(c: string, r: string, t: string)
    ensures Key(c + [NUL] + r, t) == Key(c, r + [NUL] + t)
  {
  }

  // ---------- the report is the multiset of its Adds ----------

  /** `notes` holds exactly the pairs of `adds`, each with its multiplicity, under its own key. */
  ghost predicate Faithful(notes: map<string, Note>, adds: seq<Pair>) {
    && (forall k :: k in notes ==>
          && k == Key(notes[k].column, notes[k].reason)
          && notes[k].count == multiset(adds)[(notes[k].column, notes[k].reason)] > 0)
    && (forall p :: p in adds ==>
          && Key(p.0, p.1) in notes
          && notes[Key(p.0, p.1)].column == p.0 && notes[Key(p.0, p.1)].reason == p.1)
  }

  lemma {:induction false} NotesFaithful(adds: seq<Pair>)
    requires Clean(adds)
    ensures Faithful(NotesOf(adds), adds)
  {
    if adds != [] {
      var before, last := adds[..|adds| - 1], adds[|adds| - 1];
      NotesFaithful(before);
      assert adds == before + [last];
      assert multiset(adds) == multiset(before) + multiset{last};
      var notes, key := NotesOf(before), Key(last.0, last.1);
      forall p | p in before && Key(p.0, p.1) == key ensures p == last {
        KeyInjective(p.0, p.1, last.0, last.1);
      }
      if key in notes {
        var n := notes[key];
        assert (n.column, n.reason) in multiset(before);
        assert (n.column, n.reason) in before;
        assert (n.column, n.reason) == last;
      } else {
        assert last !in before;
        assert last !in multiset(before);
      }
      forall k | k in notes && k != key
        ensures (notes[k].column, notes[k].reason) != last
      {
      }
    }
  }

  /** One note per pair: its count is the number of Adds of that pair. */
  lemma CountIsMultiplicity(adds: seq<Pair>, column: string, reason: string)
    requires Clean(adds) && NulFree(reason)
    ensures var notes, key := NotesOf(adds), Key(column, reason);
            && (key in notes <==> (column, reason) in adds)
            && (key in notes ==> notes[key] == Note(column, reason, multiset(adds)[(column, reason)]))
  {
    NotesFaithful(adds);
    var notes, key := NotesOf(adds), Key(column, reason);
    if key in notes {
      var n := notes[key];
      assert (n.column, n.reason) in multiset(adds);
      assert (n.column, n.reason) in adds;
      KeyInjective(n.column, n.reason, column, reason);
    }
  }

  /** The order of the Adds does not matter. */
  lemma PermutationInvariant(a: seq<Pair>, b: seq<Pair>)
    requires Clean(a) && multiset(a) == multiset(b)
    ensures NotesOf(a) == NotesOf(b)
  {
    SameElements(a, b);
    assert Clean(b) by {
      forall i | 0 <= i < |b| ensures NulFree(b[i].1) {
        assert b[i] in b;
        assert b[i] in a;
      }
    }
    NotesFaithful(a);
    NotesFaithful(b);
    NotesIncluded(a, b);
    NotesIncluded(b, a);
  }

  lemma SameElements(a: seq<Pair>, b: seq<Pair>)
    requires multiset(a) == multiset(b)
    ensures forall p :: p in a <==> p in b
  {
    forall p ensures p in a <==> p in b {
      assert p in a <==> p in multiset(a);
      assert p in b <==> p in multiset(b);
    }
  }

  lemma NotesIncluded(a: seq<Pair>, b: seq<Pair>)
    requires multiset(a) == multiset(b)
    requires Faithful(NotesOf(a), a) && Faithful(NotesOf(b), b)
    ensures forall k :: k in NotesOf(a) ==> k in NotesOf(b) && NotesOf(a)[k] == NotesOf(b)[k]
  {
    var x, y := NotesOf(a), NotesOf(b);
    forall k | k in x ensures k in y && x[k] == y[k] {
      var p := (x[k].column, x[k].reason);
      assert p in multiset(b);
      assert p in b;
    }
  }

  // ---------- the sorted listing ----------

  predicate Before(a: Note, b: Note) {
    Less(a.column, b.column) || (a.column == b.column && Less(a.reason, b.reason))
  }

  lemma BeforeTotal(a: Note, b: Note)
    ensures Before(a, b) || Before(b, a) || (a.column == b.column && a.reason == b.reason)
  {
    LessTotal(a.column, b.column);
    LessTotal(a.reason, b.reason);
  }

  lemma BeforeAsymmetric(a: Note, b: Note)
    requires Before(a, b)
    ensures !Before(b, a) && a != b
  {
    if Less(a.column, b.column) {
      LessAsymmetric(a.column, b.column);
    } else {
      LessAsymmetric(a.reason, b.reason);
      if Less(b.column, a.column) { LessAsymmetric(b.column, a.column); }
    }
  }

  lemma BeforeTransitive(a: Note, b: Note, c: Note)
    requires Before(a, b) && Before(b, c)
    ensures Before(a, c)
  {
    if Less(a.column, b.column) && Less(b.column, c.column) {
      LessTransitive(a.column, b.column, c.column);
    } else if a.column == b.column && b.column == c.column {
      LessTransitive(a.reason, b.reason, c.reason);
    }
  }

  predicate Ordered(s: seq<Note>) {
    forall i, j :: 0 <= i < j < |s| ==> Before(s[i], s[j])
  }

  /** Every key names its note. */
  predicate Keyed(notes: map<string, Note>) {
    forall k :: k in notes ==> k == Key(notes[k].column, notes[k].reason)
  }

  predicate Holds(notes: map<string, Note>, n: Note) {
    var key := Key(n.column, n.reason);
    key in notes && notes[key] == n
  }

  /** `s` lists the notes, each once, in the order of their pairs. */
  ghost predicate Lists(s: seq<Note>, notes: map<string, Note>) {
    Ordered(s) && forall n :: n in s <==> Holds(notes, n)
  }

  function InsertNote(n: Note, s: seq<Note>): (r: seq<Note>) {
    if s == [] || Before(n, s[0]) then [n] + s else [s[0]] + InsertNote(n, s[1..])
  }

  lemma {:induction false} InsertNoteContents(n: Note, s: seq<Note>)
    ensures forall x :: x in InsertNote(n, s) <==> x == n || x in s
  {
    if s != [] && !Before(n, s[0]) {
      InsertNoteContents(n, s[1..]);
      assert s == [s[0]] + s[1..];
    }
  }

  lemma {:induction false} InsertNoteOrdered(n: Note, s: seq<Note>)
    requires Ordered(s)
    requires forall i :: 0 <= i < |s| ==> s[i].column != n.column || s[i].reason != n.reason
    ensures Ordered(InsertNote(n, s))
  {
    if s != [] {
      if Before(n, s[0]) {
        forall i | 0 <= i < |s| ensures Before(n, s[i]) {
          if i > 0 { BeforeTransitive(n, s[0], s[i]); }
        }
      } else {
        BeforeTotal(n, s[0]);
        InsertNoteOrdered(n, s[1..]);
        InsertNoteContents(n, s[1..]);
        var rest := InsertNote(n, s[1..]);
        forall j | 0 <= j < |rest| ensures Before(s[0], rest[j]) {
          assert rest[j] in rest;
        }
      }
    }
  }

  lemma EmptyOrInhabited(s: seq<Note>)
    ensures s == [] || exists n :: n in s
  {
    if s != [] { assert s[0] in s; }
  }

  lemma {:induction false} OrderedUnique(a: seq<Note>, b: seq<Note>)
    requires Ordered(a) && Ordered(b) && forall x :: x in a <==> x in b
    ensures a == b
  {
    if a == [] {
      EmptyOrInhabited(b);
    } else {
      assert a[0] in b && b[0] in a;
      HeadLeast(a, b[0]);
      HeadLeast(b, a[0]);
      forall x ensures x in a[1..] <==> x in b[1..] {
        OrderedTail(a, x);
        OrderedTail(b, x);
      }
      OrderedUnique(a[1..], b[1..]);
      assert a == [a[0]] + a[1..] && b == [b[0]] + b[1..];
    }
  }

  lemma HeadLeast(a: seq<Note>, x: Note)
    requires Ordered(a) && x in a
    ensures a[0] == x || (Before(a[0], x) && !Before(x, a[0]))
  {
    if a[0] != x { BeforeAsymmetric(a[0], x); }
  }

  lemma OrderedTail(a: seq<Note>, x: Note)
    requires Ordered(a) && a != []
    ensures x in a[1..] <==> x in a && x != a[0]
  {
    if x in a[1..] {
      BeforeAsymmetric(a[0], x);
    }
    assert a == [a[0]] + a[1..];
  }

  /** Map iteration order is immaterial: two listings of the same notes are equal. */
  lemma ListingUnique(a: seq<Note>, b: seq<Note>, notes: map<string, Note>)
    requires Lists(a, notes) && Lists(b, notes)
    ensures a == b
  {
    OrderedUnique(a, b);
  }

  ghost function Listing(notes: map<string, Note>): (s: seq<Note>)
    requires Keyed(notes)
    ensures Lists(s, notes)
    decreases |notes|
  {
    if |notes| == 0 then
      assert notes == map[];
      []
    else
      var k :| k in notes;
      var rest := notes - {k};
      var tail := Listing(rest);
      ListStep(notes, k, tail);
      InsertNote(notes[k], tail)
  }

  lemma ListStep(notes: map<string, Note>, k: string, tail: seq<Note>)
    requires Keyed(notes) && k in notes && Lists(tail, notes - {k})
    ensures Lists(InsertNote(notes[k], tail), notes)
  {
    var rest, s := notes - {k}, InsertNote(notes[k], tail);
    forall i | 0 <= i < |tail| ensures tail[i].column != notes[k].column || tail[i].reason != notes[k].reason {
      assert tail[i] in tail;
      assert Holds(rest, tail[i]);
    }
    InsertNoteOrdered(notes[k], tail);
    InsertNoteContents(notes[k], tail);
    forall n ensures n in s <==> Holds(notes, n) {
      assert n in tail <==> Holds(rest, n);
    }
  }

  // ---------- the warning lines ----------

  /** fmt's %q; bytes beyond ASCII are taken to be printable text. */
  function QuoteColumn(s: string): string {
    ['"'] + EscapeColumn(s) + ['"']
  }

  function EscapeColumn(s: string): string {
    if s == [] then [] else EscapeByte(s[0]) + EscapeColumn(s[1..])
  }

  function EscapeByte(c: char): string {
    if c == '"' || c == '\\' then ['\\', c]
    else if c == '\n' then "\\n"
    else if c == '\r' then "\\r"
    else if c == '\t' then "\\t"
    else if c == 7 as char then "\\a"
    else if c == 8 as char then "\\b"
    else if c == 11 as char then "\\v"
    else if c == 12 as char then "\\f"
    else if c < ' ' || c == 127 as char then "\\x" + [HexDigit(c as int / 16), HexDigit(c as int % 16)]
    else [c]
  }

  function HexDigit(d: int): char
    requires 0 <= d < 16
  {
    "0123456789abcdef"[d]
  }

  function HexValue(c: char): int {
    if '0' <= c <= '9' then c as int - '0' as int else c as int - 'a' as int + 10
  }

  /** Reads an escaped text back. */
  function Unescape(s: string): string {
    if s == [] then []
    else if s[0] != '\\' || |s| == 1 then [s[0]] + Unescape(s[1..])
    else if s[1] == 'x' && |s| >= 4 && 0 <= 16 * HexValue(s[2]) + HexValue(s[3]) < 256 then
      [(16 * HexValue(s[2]) + HexValue(s[3])) as char] + Unescape(s[4..])
    else [Unescaped(s[1])] + Unescape(s[2..])
  }

  function Unescaped(c: char): char {
    match c
    case 'n' => '\n'
    case 'r' => '\r'
    case 't' => '\t'
    case 'a' => 7 as char
    case 'b' => 8 as char
    case 'v' => 11 as char
    case 'f' => 12 as char
    case _ => c
  }

  lemma HexRoundTrip(d: int)
    requires 0 <= d < 16
    ensures HexValue(HexDigit(d)) == d && HexDigit(d) != '\\'
  {
  }

  lemma UnescapeByte(c: char, rest: string)
    ensures Unescape(EscapeByte(c) + rest) == [c] + Unescape(rest)
  {
    hide HexValue, HexDigit;
    var s := EscapeByte(c) + rest;
    if |EscapeByte(c)| == 4 {
      HexRoundTrip(c as int / 16);
      HexRoundTrip(c as int % 16);
      assert s[4..] == rest;
    } else if |EscapeByte(c)| == 2 {
      assert s[2..] == rest;
    } else {
      assert s[1..] == rest;
    }
  }

  /** The quoted column name reads back as the name: no two names look alike in a report. */
  lemma {:induction false} QuotedNameReadsBack(s: string)
    ensures Unescape(EscapeColumn(s)) == s && QuoteColumn(s) == "\"" + EscapeColumn(s) + "\""
  {
    hide Unescape, EscapeByte;
    if s == [] {
      UnescapeNothing();
    } else {
      QuotedNameReadsBack(s[1..]);
      UnescapeByte(s[0], EscapeColumn(s[1..]));
    }
  }

  lemma UnescapeNothing()
    ensures Unescape([]) == []
  {
  }

  function Line(n: Note): string {
    "column " + QuoteColumn(n.column) + ": " + n.reason +
    if n.count > 1 then " (x" + Format(n.count) + ")" else ""
  }

  function Lines(s: seq<Note>): (r: seq<string>)
    ensures |r| == |s|
  {
    seq(|s|, i requires 0 <= i < |s| => Line(s[i]))
  }

  ghost function WarningsOf(notes: map<string, Note>): (r: seq<string>)
    requires Keyed(notes)
  {
    Lines(Listing(notes))
  }

  // ---------- the class ----------

  class Report {
    var notes: map<string, Note>

    predicate Valid()
      reads this
    {
      Keyed(notes)
    }

    constructor ()
      ensures Valid() && notes == map[]
    {
      notes := map[];
    }

    method Add(column: string, reason: string)
      requires Valid()
      modifies this
      ensures Valid() && notes == AddNote(old(notes), column, reason)
    {
      var key := Key(column, reason);
      if key !in notes {
        notes := notes[key := Note(column, reason, 0)];
      }
      notes := notes[key := notes[key].(count := notes[key].count + 1)];
    }

    predicate Empty()
      reads this
    {
      notes == map[]
    }

    /** Collects the notes in whatever order the map yields them, and sorts them. */
    method Sorted() returns (out: seq<Note>)
      requires Valid()
      ensures Lists(out, notes) && out == Listing(notes)
    {
      out := [];
      var left := notes.Keys;
      while left != {}
        invariant left <= notes.Keys
        invariant Lists(out, notes - left)
        decreases |left|
      {
        var k :| k in left;
        ghost var part := notes - (left - {k});
        assert part - {k} == notes - left;
        ListStep(part, k, out);
        out := InsertNote(notes[k], out);
        left := left - {k};
      }
      assert notes - left == notes;
      ListingUnique(out, Listing(notes), notes);
    }

    method Warnings() returns (out: seq<string>)
      requires Valid()
      ensures out == WarningsOf(notes)
    {
      hide Line, Listing;
      if Empty() {
        assert Listing(notes) == [] by {
          ListingUnique(Listing(notes), [], notes);
        }
        return [];
      }
      var sorted := Sorted();
      out := [];
      for i := 0 to |sorted|
        invariant out == Lines(sorted)[..i]
      {
        out := out + [Line(sorted[i])];
      }
    }
  }

  // ---------- counting what the report holds ----------

  lemma {:induction false} ListingSize(notes: map<string, Note>)
    requires Keyed(notes)
    ensures |Listing(notes)| == |notes|
    decreases |notes|
  {
    if notes == map[] {
      ListingUnique(Listing(notes), [], notes);
    } else {
      var k :| k in notes;
      var rest := notes - {k};
      ListingSize(rest);
      ListStep(notes, k, Listing(rest));
      ListingUnique(Listing(notes), InsertNote(notes[k], Listing(rest)), notes);
      InsertNoteSize(notes[k], Listing(rest));
      assert rest.Keys == notes.Keys - {k};
      assert |rest.Keys| == |notes.Keys| - 1;
    }
  }

  lemma {:induction false} InsertNoteSize(n: Note, s: seq<Note>)
    ensures |InsertNote(n, s)| == |s| + 1
  {
    if s != [] && !Before(n, s[0]) { InsertNoteSize(n, s[1..]); }
  }

  function SumCounts(s: seq<Note>): nat {
    if s == [] then 0 else s[0].count + SumCounts(s[1..])
  }

  lemma {:induction false} SumInsert(n: Note, s: seq<Note>)
    ensures SumCounts(InsertNote(n, s)) == n.count + SumCounts(s)
  {
    if s != [] && !Before(n, s[0]) {
      SumInsert(n, s[1..]);
    }
  }

  lemma SumSplit(notes: map<string, Note>, k: string)
    requires Keyed(notes) && k in notes
    ensures Keyed(notes - {k})
    ensures SumCounts(Listing(notes)) == notes[k].count + SumCounts(Listing(notes - {k}))
  {
    var rest := notes - {k};
    ListStep(notes, k, Listing(rest));
    ListingUnique(Listing(notes), InsertNote(notes[k], Listing(rest)), notes);
    SumInsert(notes[k], Listing(rest));
  }

  lemma {:induction false} NotesKeyed(adds: seq<Pair>)
    ensures Keyed(NotesOf(adds))
  {
    if adds != [] { NotesKeyed(adds[..|adds| - 1]); }
  }

  /** One more Add adds one to the counts, whichever note it lands on. */
  lemma SumAddNote(notes: map<string, Note>, column: string, reason: string)
    requires Keyed(notes)
    ensures Keyed(AddNote(notes, column, reason))
    ensures SumCounts(Listing(AddNote(notes, column, reason))) == SumCounts(Listing(notes)) + 1
  {
    hide SumCounts, Listing;
    var key, more := Key(column, reason), AddNote(notes, column, reason);
    assert Keyed(more);
    SumSplit(more, key);
    assert more - {key} == notes - {key};
    if key in notes {
      SumSplit(notes, key);
    } else {
      assert notes - {key} == notes;
    }
  }

  lemma {:induction false} SumIsLength(adds: seq<Pair>)
    ensures Keyed(NotesOf(adds)) && SumCounts(Listing(NotesOf(adds))) == |adds|
  {
    hide SumCounts, Listing;
    if adds == [] {
      SumEmpty();
    } else {
      SumIsLength(adds[..|adds| - 1]);
      SumAddNote(NotesOf(adds[..|adds| - 1]), adds[|adds| - 1].0, adds[|adds| - 1].1);
    }
  }

  lemma SumEmpty()
    ensures SumCounts(Listing(map[])) == 0
  {
    ListingUnique(Listing(map[]), [], map[]);
  }

  lemma BeforeDiffers(a: Note, b: Note)
    requires Before(a, b)
    ensures (a.column, a.reason) != (b.column, b.reason)
  {
    if Less(a.column, b.column) {
      LessAsymmetric(a.column, b.column);
    } else {
      LessAsymmetric(a.reason, b.reason);
    }
  }

  function Pairs(s: seq<Note>): set<Pair> {
    set n | n in s :: (n.column, n.reason)
  }

  lemma {:induction false} OrderedDistinct(s: seq<Note>)
    requires Ordered(s)
    ensures |Pairs(s)| == |s|
  {
    if s != [] {
      var head, rest := (s[0].column, s[0].reason), s[1..];
      OrderedDistinct(rest);
      forall n | n in rest ensures (n.column, n.reason) != head {
        BeforeDiffers(s[0], n);
      }
      assert s == [s[0]] + rest;
      assert Pairs(s) == Pairs(rest) + {head};
    }
  }

  lemma ListedPairs(adds: seq<Pair>, p: Pair)
    requires Clean(adds) && Keyed(NotesOf(adds))
    ensures p in Pairs(Listing(NotesOf(adds))) <==> p in adds
  {
    NotesFaithful(adds);
    var notes, s := NotesOf(adds), Listing(NotesOf(adds));
    if p in adds {
      assert Holds(notes, notes[Key(p.0, p.1)]);
    }
    if p in Pairs(s) {
      var n :| n in s && p == (n.column, n.reason);
      assert Holds(notes, n);
      assert p in multiset(adds);
    }
  }

  // ---------- the main result ----------

  /** After any Adds whose reasons hold no NUL: the listing is in pair order, holds each distinct pair
      once, gives as many lines, and its counts add up to the number of Adds. */
  lemma ReportIsFaithful(adds: seq<Pair>)
    requires Clean(adds)
    ensures Keyed(NotesOf(adds))
    ensures var s := Listing(NotesOf(adds));
            && Ordered(s)
            && Pairs(s) == (set p | p in adds)
            && |WarningsOf(NotesOf(adds))| == |set p | p in adds|
            && SumCounts(s) == |adds|
  {
    hide SumCounts, NotesOf;
    SumIsLength(adds);
    var s := Listing(NotesOf(adds));
    forall p ensures p in Pairs(s) <==> p in adds {
      ListedPairs(adds, p);
    }
    OrderedDistinct(s);
    assert Pairs(s) == (set p | p in adds);
  }

  /** The lines stand in the byte order of their column names, and of their reasons under one name. */
  lemma LinesInByteOrder(adds: seq<Pair>, i: nat, j: nat)
    requires Clean(adds) && Keyed(NotesOf(adds)) && i < j < |Listing(NotesOf(adds))|
    ensures var a, b := Listing(NotesOf(adds))[i], Listing(NotesOf(adds))[j];
            ByteBefore(a.column, b.column) || (a.column == b.column && ByteBefore(a.reason, b.reason))
  {
    hide NotesOf;
    var a, b := Listing(NotesOf(adds))[i], Listing(NotesOf(adds))[j];
    assert Before(a, b);
    LessIsByteOrder(a.column, b.column);
    LessIsByteOrder(a.reason, b.reason);
  }
}
