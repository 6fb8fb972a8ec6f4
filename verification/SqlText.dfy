/** What internal/pg/handler.go reads off a statement's text without parsing it. */
module SqlText {
  import opened Basics
  import opened Decimal

  predicate EndsKeyword(c: char) {
    c == ' ' || c == '\t' || c == '\r' || c == '\n' || c == '(' || c == ';'
  }

  function FirstKeyword(sql: string): string {
    Upper(Until(TrimSpace(sql), EndsKeyword))
  }

  predicate ReturnsRows(sql: string) {
    FirstKeyword(sql) in {"SELECT", "WITH", "VALUES", "SHOW", "TABLE", "EXPLAIN", "DESCRIBE", "PRAGMA", "CALL"}
  }

  predicate OpensTransaction(sql: string) {
    FirstKeyword(sql) in {"BEGIN", "START"}
  }

  predicate ClosesTransaction(sql: string) {
    FirstKeyword(sql) in {"COMMIT", "ROLLBACK", "END"}
  }

  /** The text carries no statement: only semicolons and white space. */
  predicate Blank(sql: string) {
    var cut := (c: char) => c == ';' || IsSpace(c);
    TrimRight(TrimLeft(sql, cut), cut) == []
  }

  function CommandTag(sql: string, n: nat): string {
    var word := Upper(Until(TrimLeft(sql, IsSpace), IsSpace));
    if word in {"SELECT", "WITH", "SHOW", "TABLE", "VALUES"} then "SELECT " + Format(n)
    else if word == "INSERT" then "INSERT 0 " + Format(n)
    else if word in {"UPDATE", "DELETE"} then word + " " + Format(n)
    else word
  }

  /** resolveFormat: no code means text, one code is for every column, otherwise one per column. */
  function ResolveFormat(formats: seq<int>, col: nat): int {
    if |formats| == 0 then 0
    else if |formats| == 1 then formats[0]
    else if col < |formats| then formats[col]
    else 0
  }
}
