/** The type mapping of a ClickHouse source (internal/engine/source_clickhouse.go). */
module SourceTypes {
  import opened Basics
  import opened Results

  /** `unwrapType`: the inside of wrapper(...), if `s` has that form. */
  function Unwrap(s: string, wrapper: string): Option<string> {
    var prefix := wrapper + "(";
    if prefix <= s && s != [] && s[|s| - 1] == ')' && |prefix| < |s| then Some(s[|prefix|..|s| - 1]) else None
  }

  function Unwrapped(s: string): string
    decreases |s|
  {
    if Unwrap(s, "Nullable").Some? then Unwrapped(Unwrap(s, "Nullable").value)
    else if Unwrap(s, "LowCardinality").Some? then Unwrapped(Unwrap(s, "LowCardinality").value)
    else s
  }

  function BaseDuckType(name: string): string {
    match name
    case "UInt8" => "UTINYINT"
    case "UInt16" => "USMALLINT"
    case "UInt32" => "UINTEGER"
    case "UInt64" => "UBIGINT"
    case "Int8" => "TINYINT"
    case "Int16" => "SMALLINT"
    case "Int32" => "INTEGER"
    case "Int64" => "BIGINT"
    case "Float32" => "FLOAT"
    case "Float64" => "DOUBLE"
    case "Bool" => "BOOLEAN"
    case "Boolean" => "BOOLEAN"
    case "Date" => "DATE"
    case "Date32" => "DATE"
    case "DateTime" => "TIMESTAMP"
    case "DateTime64" => "TIMESTAMP"
    case _ => "VARCHAR"
  }

  /** The name before the first parenthesis. */
  function HeadName(s: string): string {
    Until(s, c => c == '(')
  }

  /** Surrounding white space goes first, then every wrapper, then the parameters. */
  function DuckTypeOf(t: string): string {
    BaseDuckType(HeadName(Unwrapped(TrimSpace(t))))
  }

  method ChToDuckType(t: string) returns (duck: string)
    ensures duck == DuckTypeOf(t)
  {
    hide Unwrap, BaseDuckType, TrimSpace;
    var base := TrimSpace(t);
    while true
      invariant Unwrapped(base) == Unwrapped(TrimSpace(t))
      decreases |base|
    {
      var inner := Unwrap(base, "Nullable");
      UnwrapShrinks(base, "Nullable");
      if inner.Some? {
        base := inner.value;
        continue;
      }
      inner := Unwrap(base, "LowCardinality");
      UnwrapShrinks(base, "LowCardinality");
      if inner.Some? {
        base := inner.value;
        continue;
      }
      break;
    }
    assert Unwrapped(base) == base;
    var i := 0;
    assert base[..0] + HeadName(base[0..]) == HeadName(base) by { assert base[0..] == base; }
    while i < |base| && base[i] != '('
      invariant 0 <= i <= |base|
      invariant HeadName(base) == base[..i] + HeadName(base[i..])
    {
      assert base[i..][0] == base[i] && base[i..][1..] == base[i + 1..];
      assert HeadName(base[i..]) == [base[i]] + HeadName(base[i + 1..]);
      i := i + 1;
    }
    assert HeadName(base[i..]) == [];
    assert HeadName(base) == base[..i];
    duck := BaseDuckType(base[..i]);
  }

  lemma UnwrapShrinks(s: string, wrapper: string)
    ensures Unwrap(s, wrapper).Some? ==> |Unwrap(s, wrapper).value| < |s|
  {
  }

  // ---------- wrappers are transparent ----------

  datatype Wrapper = Nullable | LowCardinality

  function WrapperName(w: Wrapper): string {
    if w.Nullable? then "Nullable" else "LowCardinality"
  }

  function Wrap(ws: seq<Wrapper>, t: string): string {
    if ws == [] then t else WrapperName(ws[0]) + "(" + Wrap(ws[1..], t) + ")"
  }

  lemma UnwrapWrapper(w: Wrapper, inner: string)
    ensures Unwrapped(WrapperName(w) + "(" + inner + ")") == Unwrapped(inner)
  {
    var s := WrapperName(w) + "(" + inner + ")";
    var prefix := WrapperName(w) + "(";
    assert prefix <= s && s[|s| - 1] == ')';
    assert s[|prefix|..|s| - 1] == inner;
    assert Unwrap(s, WrapperName(w)) == Some(inner);
    if w.LowCardinality? {
      assert s[0] == 'L';
      assert Unwrap(s, "Nullable").None? by { assert ("Nullable" + "(")[0] == 'N'; }
    }
  }

  lemma {:induction false} UnwrappedWrap(ws: seq<Wrapper>, t: string)
    ensures Unwrapped(Wrap(ws, t)) == Unwrapped(t)
  {
    hide Unwrapped;
    if ws != [] {
      UnwrapWrapper(ws[0], Wrap(ws[1..], t));
      UnwrappedWrap(ws[1..], t);
    }
  }

  lemma TrimLeftStops(s: string, cut: char -> bool)
    requires s == [] || !cut(s[0])
    ensures TrimLeft(s, cut) == s
  {
  }

  lemma NotTrimmed(s: string)
    requires s == [] || (!IsSpace(s[0]) && !IsSpace(s[|s| - 1]))
    ensures TrimSpace(s) == s
  {
    TrimLeftStops(s, IsSpace);
  }

  /** However deep the nullable and low-cardinality wrappers are nested, the mapped type is that of what
      is inside them -- taken as it stands: only the outermost white space is ignored. */
  lemma WrappersTransparent(ws: seq<Wrapper>, t: string)
    ensures DuckTypeOf(Wrap(ws, TrimSpace(t))) == DuckTypeOf(t)
    ensures ws != [] ==> DuckTypeOf(Wrap(ws, t)) == BaseDuckType(HeadName(Unwrapped(t)))
  {
    hide BaseDuckType, HeadName, Unwrapped, TrimSpace;
    UnwrappedWrap(ws, TrimSpace(t));
    UnwrappedWrap(ws, t);
    if ws == [] {
      TrimSpaceTwice(t);
    } else {
      WrapNotTrimmed(ws, TrimSpace(t));
      WrapNotTrimmed(ws, t);
    }
  }

  lemma WrapNotTrimmed(ws: seq<Wrapper>, t: string)
    requires ws != []
    ensures TrimSpace(Wrap(ws, t)) == Wrap(ws, t)
  {
    hide TrimSpace;
    NotTrimmed(Wrap(ws, t));
  }

  lemma {:induction false} TrimRightEnds(s: string)
    ensures var r := TrimRight(s, IsSpace);
            r <= s && (r == [] || !IsSpace(r[|r| - 1]))
    decreases |s|
  {
    if s != [] && IsSpace(s[|s| - 1]) {
      TrimRightEnds(s[..|s| - 1]);
    }
  }

  lemma {:induction false} TrimLeftStarts(s: string)
    ensures var r := TrimLeft(s, IsSpace);
            r == [] || !IsSpace(r[0])
    decreases |s|
  {
    if s != [] && IsSpace(s[0]) {
      TrimLeftStarts(s[1..]);
    }
  }

  lemma TrimSpaceTwice(s: string)
    ensures TrimSpace(TrimSpace(s)) == TrimSpace(s)
  {
    TrimLeftStarts(s);
    TrimRightEnds(TrimLeft(s, IsSpace));
    NotTrimmed(TrimSpace(s));
  }

  // ---------- the integer types keep their range ----------

  /** A name that is nothing but letters and digits. */
  predicate BareName(t: string) {
    t != "" && forall i :: 0 <= i < |t| ==> 'A' <= t[i] <= 'Z' || 'a' <= t[i] <= 'z' || '0' <= t[i] <= '9'
  }

  lemma {:induction false} UntilAll(s: string, stop: char -> bool)
    requires forall i :: 0 <= i < |s| ==> !stop(s[i])
    ensures Until(s, stop) == s
  {
    if s != [] { UntilAll(s[1..], stop); }
  }

  lemma BareType(t: string)
    requires BareName(t)
    ensures DuckTypeOf(t) == BaseDuckType(t)
  {
    hide BaseDuckType, TrimSpace;
    NotTrimmed(t);
    assert t[|t| - 1] != ')';
    UntilAll(t, c => c == '(');
  }

  lemma DuckName(name: string)
    requires BareName(name) && Upper(name) == name
    ensures TypeOf(name) == TypeOfBase(name)
  {
    hide TypeOfBase, Upper;
    UntilAll(name, c => c == '(');
  }

  lemma MappedType(name: string, duck: string, t: DuckType)
    requires BareName(name) && BareName(duck) && Upper(duck) == duck
    requires BaseDuckType(name) == duck && TypeOfBase(duck) == t
    ensures TypeOf(DuckTypeOf(name)) == t
  {
    hide BaseDuckType, TypeOf, TypeOfBase, DuckTypeOf, Upper;
    BareType(name);
    DuckName(duck);
  }

  lemma Int8Type()
    ensures TypeOf(DuckTypeOf("Int8")) == TinyInt
  {
    hide TypeOf, DuckTypeOf;
    assert BareName("Int8") && BareName("TINYINT") && Upper("TINYINT") == "TINYINT";
    MappedType("Int8", "TINYINT", TinyInt);
  }

  lemma Int16Type()
    ensures TypeOf(DuckTypeOf("Int16")) == SmallInt
  {
    hide TypeOf, DuckTypeOf;
    assert BareName("Int16") && BareName("SMALLINT") && Upper("SMALLINT") == "SMALLINT";
    MappedType("Int16", "SMALLINT", SmallInt);
  }

  lemma Int32Type()
    ensures TypeOf(DuckTypeOf("Int32")) == Integer
  {
    hide TypeOf, DuckTypeOf;
    assert BareName("Int32") && BareName("INTEGER") && Upper("INTEGER") == "INTEGER";
    MappedType("Int32", "INTEGER", Integer);
  }

  lemma Int64Type()
    ensures TypeOf(DuckTypeOf("Int64")) == BigInt
  {
    hide TypeOf, DuckTypeOf;
    assert BareName("Int64") && BareName("BIGINT") && Upper("BIGINT") == "BIGINT";
    MappedType("Int64", "BIGINT", BigInt);
  }

  lemma UInt8Type()
    ensures TypeOf(DuckTypeOf("UInt8")) == UTinyInt
  {
    hide TypeOf, DuckTypeOf;
    assert BareName("UInt8") && BareName("UTINYINT") && Upper("UTINYINT") == "UTINYINT";
    MappedType("UInt8", "UTINYINT", UTinyInt);
  }

  lemma UInt16Type()
    ensures TypeOf(DuckTypeOf("UInt16")) == USmallInt
  {
    hide TypeOf, DuckTypeOf;
    assert BareName("UInt16") && BareName("USMALLINT") && Upper("USMALLINT") == "USMALLINT";
    MappedType("UInt16", "USMALLINT", USmallInt);
  }

  lemma UInt32Type()
    ensures TypeOf(DuckTypeOf("UInt32")) == UInteger
  {
    hide TypeOf, DuckTypeOf;
    assert BareName("UInt32") && BareName("UINTEGER") && Upper("UINTEGER") == "UINTEGER";
    MappedType("UInt32", "UINTEGER", UInteger);
  }

  lemma UInt64Type()
    ensures TypeOf(DuckTypeOf("UInt64")) == UBigInt
  {
    hide TypeOf, DuckTypeOf;
    assert BareName("UInt64") && BareName("UBIGINT") && Upper("UBIGINT") == "UBIGINT";
    MappedType("UInt64", "UBIGINT", UBigInt);
  }

  /** One byte to eight, signed and unsigned: the DuckDB type holds exactly the ClickHouse type's values. */
  lemma IntegerTypesKeepRange()
    ensures IntegerRange(TypeOf(DuckTypeOf("Int8"))) == Some((-0x80, 0x7F))
    ensures IntegerRange(TypeOf(DuckTypeOf("Int16"))) == Some((-0x8000, 0x7FFF))
    ensures IntegerRange(TypeOf(DuckTypeOf("Int32"))) == Some((-0x8000_0000, 0x7FFF_FFFF))
    ensures IntegerRange(TypeOf(DuckTypeOf("Int64"))) == Some((INT64_MIN, INT64_MAX))
    ensures IntegerRange(TypeOf(DuckTypeOf("UInt8"))) == Some((0, 0xFF))
    ensures IntegerRange(TypeOf(DuckTypeOf("UInt16"))) == Some((0, 0xFFFF))
    ensures IntegerRange(TypeOf(DuckTypeOf("UInt32"))) == Some((0, 0xFFFF_FFFF))
    ensures IntegerRange(TypeOf(DuckTypeOf("UInt64"))) == Some((0, 0xFFFF_FFFF_FFFF_FFFF))
  {
    hide TypeOf, DuckTypeOf;
    Int8Type();
    Int16Type();
    Int32Type();
    Int64Type();
    UInt8Type();
    UInt16Type();
    UInt32Type();
    UInt64Type();
  }
}
