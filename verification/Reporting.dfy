/** The shape the protocols' loss reports share: a loop over the columns that may note the column's
    type, and inside it a loop over the rows that may note a value. Each protocol supplies its rules. */
module Reporting {
  import opened Basics
  import opened Results
  import opened Fidelity

  datatype Rules = Rules(typeNote: DuckType -> Option<string>, valueNote: (DuckType, Value) -> Option<string>)

  /** No reason of the rules holds a NUL byte. */
  ghost predicate CleanRules(rules: Rules) {
    && (forall t :: rules.typeNote(t).Some? ==> NulFree(rules.typeNote(t).value))
    && (forall t, v :: rules.valueNote(t, v).Some? ==> NulFree(rules.valueNote(t, v).value))
  }

  // ---------- the Adds, in order ----------

  function NoteAdd(name: string, note: Option<string>): seq<Pair> {
    match note
    case None => []
    case Some(reason) => [(name, reason)]
  }

  /** The note, if any, of row `row` in column `ci`; a row too short for the column earns none. */
  function CellNote(rules: Rules, t: DuckType, row: seq<Value>, ci: nat): Option<string> {
    if ci < |row| then rules.valueNote(t, row[ci]) else None
  }

  function RowAdds(rules: Rules, name: string, t: DuckType, ci: nat, rows: seq<seq<Value>>): seq<Pair> {
    if rows == [] then []
    else RowAdds(rules, name, t, ci, rows[..|rows| - 1]) + NoteAdd(name, CellNote(rules, t, rows[|rows| - 1], ci))
  }

  function ColumnAdds(rules: Rules, c: Column, ci: nat, rows: seq<seq<Value>>): seq<Pair> {
    NoteAdd(c.name, rules.typeNote(TypeOf(c.typ))) + RowAdds(rules, c.name, TypeOf(c.typ), ci, rows)
  }

  /** The Adds of the first `n` columns. */
  function AddsUpTo(rules: Rules, res: QueryResult, n: nat): seq<Pair>
    requires n <= |res.cols|
  {
    if n == 0 then [] else AddsUpTo(rules, res, n - 1) + ColumnAdds(rules, res.cols[n - 1], n - 1, res.rows)
  }

  function Adds(rules: Rules, res: QueryResult): seq<Pair> {
    AddsUpTo(rules, res, |res.cols|)
  }

  // ---------- the loops ----------

  method AddNoteIfAny(r: Report, name: string, note: Option<string>, ghost before: seq<Pair>)
    requires r.Valid() && r.notes == NotesOf(before)
    modifies r
    ensures r.Valid() && r.notes == NotesOf(before + NoteAdd(name, note))
  {
    if note.Some? {
      NotesOfSnoc(before, name, note.value);
      r.Add(name, note.value);
    } else {
      assert before + [] == before;
    }
  }

  method AddRows(rules: Rules, r: Report, name: string, t: DuckType, ci: nat, rows: seq<seq<Value>>, ghost before: seq<Pair>)
    requires r.Valid() && r.notes == NotesOf(before)
    modifies r
    ensures r.Valid() && r.notes == NotesOf(before + RowAdds(rules, name, t, ci, rows))
  {
    hide NotesOf, NoteAdd, CellNote;
    assert before + RowAdds(rules, name, t, ci, rows[..0]) == before;
    for j := 0 to |rows|
      invariant r.Valid() && r.notes == NotesOf(before + RowAdds(rules, name, t, ci, rows[..j]))
    {
      ghost var done := RowAdds(rules, name, t, ci, rows[..j]);
      assert rows[..j + 1][..j] == rows[..j];
      var note := CellNote(rules, t, rows[j], ci);
      AddNoteIfAny(r, name, note, before + done);
      assert (before + done) + NoteAdd(name, note) == before + (done + NoteAdd(name, note));
    }
    assert rows[..|rows|] == rows;
  }

  method BuildReport(rules: Rules, res: QueryResult) returns (r: Report)
    ensures fresh(r) && r.Valid() && r.notes == NotesOf(Adds(rules, res))
  {
    hide NotesOf, TypeOf, NoteAdd;
    r := new Report();
    NotesOfNothing();
    for ci := 0 to |res.cols|
      invariant fresh(r) && r.Valid() && r.notes == NotesOf(AddsUpTo(rules, res, ci))
    {
      var c, t := res.cols[ci], TypeOf(res.cols[ci].typ);
      ghost var before := AddsUpTo(rules, res, ci);
      ghost var typed := before + NoteAdd(c.name, rules.typeNote(t));
      AddNoteIfAny(r, c.name, rules.typeNote(t), before);
      AddRows(rules, r, c.name, t, ci, res.rows, typed);
      assert typed + RowAdds(rules, c.name, t, ci, res.rows) == before + ColumnAdds(rules, c, ci, res.rows);
    }
  }

  lemma NotesOfNothing()
    ensures NotesOf([]) == map[]
  {
  }

  // ---------- counting columns and cells ----------

  /** The columns called `name`, among the first `n`, whose type satisfies `p`. */
  function CountColumns(res: QueryResult, name: string, p: DuckType -> bool, n: nat): nat
    requires n <= |res.cols|
  {
    if n == 0 then 0
    else
      var c := res.cols[n - 1];
      CountColumns(res, name, p, n - 1) + if c.name == name && p(TypeOf(c.typ)) then 1 else 0
  }

  function CountInColumn(t: DuckType, ci: nat, rows: seq<seq<Value>>, p: (DuckType, Value) -> bool): nat {
    if rows == [] then 0
    else
      var row := rows[|rows| - 1];
      CountInColumn(t, ci, rows[..|rows| - 1], p) + if ci < |row| && p(t, row[ci]) then 1 else 0
  }

  /** The cells, in the columns called `name` among the first `n`, that satisfy `p`. */
  function CountCells(res: QueryResult, name: string, p: (DuckType, Value) -> bool, n: nat): nat
    requires n <= |res.cols|
  {
    if n == 0 then 0
    else
      var c := res.cols[n - 1];
      CountCells(res, name, p, n - 1) +
      if c.name == name then CountInColumn(TypeOf(c.typ), n - 1, res.rows, p) else 0
  }

  function NotesType(rules: Rules, reason: string): DuckType -> bool {
    t => rules.typeNote(t) == Some(reason)
  }

  function NotesValue(rules: Rules, reason: string): (DuckType, Value) -> bool {
    (t, v) => rules.valueNote(t, v) == Some(reason)
  }

  lemma NoteAddCount(name: string, note: Option<string>, p: Pair)
    ensures multiset(NoteAdd(name, note))[p] == if note == Some(p.1) && name == p.0 then 1 else 0
  {
  }

  lemma {:induction false} RowAddsCount(rules: Rules, name: string, t: DuckType, ci: nat, rows: seq<seq<Value>>, p: Pair)
    ensures multiset(RowAdds(rules, name, t, ci, rows))[p] ==
            if name == p.0 then CountInColumn(t, ci, rows, NotesValue(rules, p.1)) else 0
  {
    hide NoteAdd;
    if rows != [] {
      RowAddsCount(rules, name, t, ci, rows[..|rows| - 1], p);
      NoteAddCount(name, CellNote(rules, t, rows[|rows| - 1], ci), p);
    }
  }

  lemma {:induction false} AddsCount(rules: Rules, res: QueryResult, n: nat, p: Pair)
    requires n <= |res.cols|
    ensures multiset(AddsUpTo(rules, res, n))[p] ==
            CountColumns(res, p.0, NotesType(rules, p.1), n) + CountCells(res, p.0, NotesValue(rules, p.1), n)
  {
    hide TypeOf, NoteAdd, RowAdds, CountInColumn;
    if n > 0 {
      var c, t := res.cols[n - 1], TypeOf(res.cols[n - 1].typ);
      AddsCount(rules, res, n - 1, p);
      NoteAddCount(c.name, rules.typeNote(t), p);
      RowAddsCount(rules, c.name, t, n - 1, res.rows, p);
    }
  }

  lemma {:induction false} RowAddsClean(rules: Rules, name: string, t: DuckType, ci: nat, rows: seq<seq<Value>>)
    requires CleanRules(rules)
    ensures Clean(RowAdds(rules, name, t, ci, rows))
  {
    hide NulFree;
    if rows != [] { RowAddsClean(rules, name, t, ci, rows[..|rows| - 1]); }
  }

  lemma {:induction false} AddsClean(rules: Rules, res: QueryResult, n: nat)
    requires n <= |res.cols| && CleanRules(rules)
    ensures Clean(AddsUpTo(rules, res, n))
  {
    hide NulFree, TypeOf;
    if n > 0 {
      AddsClean(rules, res, n - 1);
      RowAddsClean(rules, res.cols[n - 1].name, TypeOf(res.cols[n - 1].typ), n - 1, res.rows);
    }
  }

  /** The report holds a reason for a column name exactly when its rules gave it, as often as they gave it. */
  lemma ReportCounts(rules: Rules, res: QueryResult, name: string, reason: string)
    requires CleanRules(rules) && NulFree(reason)
    ensures var notes, key := NotesOf(Adds(rules, res)), Key(name, reason);
            var total := CountColumns(res, name, NotesType(rules, reason), |res.cols|) +
                         CountCells(res, name, NotesValue(rules, reason), |res.cols|);
            && (key in notes <==> total > 0)
            && (total > 0 ==> notes[key] == Note(name, reason, total))
  {
    hide NulFree, AddsUpTo, NotesOf, CountColumns, CountCells, Key;
    var adds := Adds(rules, res);
    AddsCount(rules, res, |res.cols|, (name, reason));
    AddsClean(rules, res, |res.cols|);
    CountIsMultiplicity(adds, name, reason);
    assert (name, reason) in adds <==> (name, reason) in multiset(adds);
  }

  lemma {:induction false} NoSuchColumn(res: QueryResult, name: string, p: DuckType -> bool, n: nat)
    requires n <= |res.cols| && forall t :: !p(t)
    ensures CountColumns(res, name, p, n) == 0
  {
    hide TypeOf;
    if n > 0 { NoSuchColumn(res, name, p, n - 1); }
  }

  /** The cells of a column. */
  ghost predicate AgreeInColumn(t: DuckType, ci: nat, rows: seq<seq<Value>>,
                                p: (DuckType, Value) -> bool, q: (DuckType, Value) -> bool) {
    forall j :: 0 <= j < |rows| && ci < |rows[j]| ==> (p(t, rows[j][ci]) <==> q(t, rows[j][ci]))
  }

  lemma {:induction false} CountInColumnAgrees(t: DuckType, ci: nat, rows: seq<seq<Value>>,
                                               p: (DuckType, Value) -> bool, q: (DuckType, Value) -> bool)
    requires AgreeInColumn(t, ci, rows, p, q)
    ensures CountInColumn(t, ci, rows, p) == CountInColumn(t, ci, rows, q)
  {
    if rows != [] {
      CountInColumnAgrees(t, ci, rows[..|rows| - 1], p, q);
    }
  }

  /** Two tests that agree on every cell count the same cells. */
  lemma {:induction false} CountCellsAgrees(res: QueryResult, name: string, n: nat,
                                            p: (DuckType, Value) -> bool, q: (DuckType, Value) -> bool)
    requires n <= |res.cols|
    requires forall ci :: 0 <= ci < n ==> AgreeInColumn(TypeOf(res.cols[ci].typ), ci, res.rows, p, q)
    ensures CountCells(res, name, p, n) == CountCells(res, name, q, n)
  {
    hide TypeOf, AgreeInColumn;
    if n > 0 {
      CountCellsAgrees(res, name, n - 1, p, q);
      CountInColumnAgrees(TypeOf(res.cols[n - 1].typ), n - 1, res.rows, p, q);
    }
  }

  /** A cell that satisfies `p` is counted. */
  lemma {:induction false} CellIsCounted(res: QueryResult, ci: nat, j: nat, p: (DuckType, Value) -> bool, n: nat)
    requires ci < n <= |res.cols| && j < |res.rows| && ci < |res.rows[j]|
    requires p(TypeOf(res.cols[ci].typ), res.rows[j][ci])
    ensures CountCells(res, res.cols[ci].name, p, n) > 0
  {
    hide TypeOf;
    if ci < n - 1 {
      CellIsCounted(res, ci, j, p, n - 1);
    } else {
      RowIsCounted(TypeOf(res.cols[ci].typ), ci, res.rows, j, p);
    }
  }

  lemma {:induction false} RowIsCounted(t: DuckType, ci: nat, rows: seq<seq<Value>>, j: nat, p: (DuckType, Value) -> bool)
    requires j < |rows| && ci < |rows[j]| && p(t, rows[j][ci])
    ensures CountInColumn(t, ci, rows, p) > 0
  {
    if j < |rows| - 1 { RowIsCounted(t, ci, rows[..|rows| - 1], j, p); }
  }

  /** A column whose type satisfies `p` is counted. */
  lemma {:induction false} ColumnIsCounted(res: QueryResult, ci: nat, p: DuckType -> bool, n: nat)
    requires ci < n <= |res.cols| && p(TypeOf(res.cols[ci].typ))
    ensures CountColumns(res, res.cols[ci].name, p, n) > 0
  {
    hide TypeOf;
    if ci < n - 1 { ColumnIsCounted(res, ci, p, n - 1); }
  }

  // ---------- reasons ----------

  // Reasons stand in short pieces wherever they are named: that no byte of them is NUL is proved piece
  // by piece.

  const DECIMAL_LOST := "; precision " + "may be lost"
  const UNSIGNED := "unsigned integer " + "shown as signed"
  const AS_TEXT := " shown as text"

  lemma NulFreeConcat(a: string, b: string)
    requires NulFree(a) && NulFree(b)
    ensures NulFree(a + b)
  {
  }

  lemma SharedReasonsClean()
    ensures NulFree(DECIMAL_LOST) && NulFree(UNSIGNED) && NulFree(AS_TEXT)
    ensures forall t :: NulFree(TypeName(t))
  {
    NulFreeConcat("; precision ", "may be lost");
    NulFreeConcat("unsigned integer ", "shown as signed");
  }
}
