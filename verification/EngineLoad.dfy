/** Loading sources into one catalogue (internal/engine/duckdb.go, source_clickhouse.go): three
    registrars over one set of claimed names. */
module EngineLoad {
  import opened Basics

  // ---------- sources, and what they offer ----------

  datatype Source = Source(name: string, kind: string, path: string, dsn: string, tables: seq<string>)

  datatype DirEntry = DirEntry(name: string, isDir: bool)

  datatype QualTable = QualTable(schema: string, name: string)

  /** What a table or view of the catalogue was made from. */
  datatype Definition =
    | View(reader: string, path: string)
    | Snapshot(source: string, schema: string, table: string)
    | Copy(source: string, table: string)

  /** A catalogue entry keeps the name it was last created under. */
  datatype Entry = Entry(table: string, def: Definition)

  type Catalog = map<string, Entry>

  /** One table a source has to give: its name, the origin recorded for it, and its definition. */
  datatype Offer = Offer(table: string, origin: string, def: Definition)

  datatype LoadError =
    | UnknownType(source: string, kind: string)
    | UnreadableDir(path: string, cause: string)
    | NotRegistered(table: string, cause: string)
    | EmptyDsn(source: string)
    | NoExtension(extension: string, cause: string)
    | NotAttached(source: string, cause: string)
    | NotConnected(source: string, cause: string)
    | NotListed(source: string, cause: string)
    | NotCopied(source: string, table: string, cause: string)

  /** Everything outside the engine, as it answers while the sources are loaded: the file system, the
      attached and remote databases, and whether DuckDB accepts a statement on its current catalogue.
      `fold` is the form under which the catalogue compares names. */
  datatype World = World(
    fold: string -> string,
    join: (string, string) -> string,
    readDir: string -> Result<seq<DirEntry>>,
    extension: string -> Option<string>,
    attach: (set<string>, Source) -> Option<string>,
    attachedTables: Source -> Result<seq<QualTable>>,
    connect: Source -> Option<string>,
    remoteTables: Source -> Result<seq<string>>,
    create: (Catalog, Entry) -> Option<string>)

  // ---------- names of files ----------

  function WithoutTrailing(s: string, c: char): string {
    TrimRight(s, x => x == c)
  }

  function LastElement(s: string): string
    decreases |s|
  {
    if s == [] || s[|s| - 1] == '/' then [] else LastElement(s[..|s| - 1]) + [s[|s| - 1]]
  }

  /** `filepath.Base`. */
  function Base(path: string): string {
    if path == "" then "."
    else
      var trimmed := WithoutTrailing(path, '/');
      if trimmed == "" then "/" else LastElement(trimmed)
  }

  /** `filepath.Ext`: from the last dot of the last element. */
  function Ext(path: string): (e: string)
    ensures |e| <= |path| && path[|path| - |e|..] == e
    decreases |path|
  {
    if path == [] || path[|path| - 1] == '/' then []
    else if path[|path| - 1] == '.' then ['.']
    else
      var e := Ext(path[..|path| - 1]);
      if e == [] then [] else e + [path[|path| - 1]]
  }

  function FileTable(path: string): string {
    var base := Base(path);
    base[..|base| - |Ext(base)|]
  }

  function Reader(name: string): Option<string> {
    var ext := Lower(Ext(name));
    if ext == ".parquet" then Some("read_parquet") else if ext == ".csv" then Some("read_csv_auto") else None
  }

  // ---------- the offers of one source, in listing order ----------

  datatype Listing = Listed(offers: seq<Offer>) | Refused(error: LoadError)

  function FileOffer(reader: string, table: string, path: string): Offer {
    Offer(table, path, View(reader, path))
  }

  function DirOffers(w: World, dir: string, entries: seq<DirEntry>): seq<Offer> {
    if entries == [] then []
    else
      var e := entries[0];
      (if e.isDir || Reader(e.name).None? then []
       else [FileOffer(Reader(e.name).value, FileTable(e.name), w.join(dir, e.name))])
      + DirOffers(w, dir, entries[1..])
  }

  /** The allowlist's entries are matched without regard to case. */
  predicate Allowed(allow: seq<string>, qt: QualTable) {
    allow == [] ||
    exists k :: 0 <= k < |allow| &&
      (Lower(allow[k]) == Lower(qt.name) || Lower(allow[k]) == Lower(qt.schema + "." + qt.name))
  }

  function AllowedTables(allow: seq<string>, tables: seq<QualTable>): seq<QualTable> {
    if tables == [] then []
    else (if Allowed(allow, tables[0]) then [tables[0]] else []) + AllowedTables(allow, tables[1..])
  }

  function SnapshotOffers(source: string, tables: seq<QualTable>): seq<Offer> {
    seq(|tables|, k requires 0 <= k < |tables| =>
      Offer(tables[k].name, source, Snapshot(source, tables[k].schema, tables[k].name)))
  }

  function CopyOffers(source: string, tables: seq<string>): seq<Offer> {
    seq(|tables|, k requires 0 <= k < |tables| => Offer(tables[k], source, Copy(source, tables[k])))
  }

  function Alias(src: Source): string {
    "_src_" + src.name
  }

  function AttachRefusal(w: World, attached: set<string>, src: Source, extension: string): Option<LoadError> {
    if src.dsn == "" then Some(EmptyDsn(src.name))
    else if extension != "" && w.extension(extension).Some? then
      Some(NoExtension(extension, w.extension(extension).value))
    else if w.attach(attached, src).Some? then
      Some(NotAttached(src.name, w.attach(attached, src).value))
    else None
  }

  function AttachedOffers(w: World, src: Source): Listing {
    match w.attachedTables(src)
    case Err(cause) => Refused(NotListed(src.name, cause))
    case Ok(tables) => Listed(SnapshotOffers(src.name, AllowedTables(src.tables, tables)))
  }

  function RemoteOffers(w: World, src: Source): Listing {
    if src.dsn == "" then Refused(EmptyDsn(src.name))
    else if w.connect(src).Some? then Refused(NotConnected(src.name, w.connect(src).value))
    else if src.tables != [] then Listed(CopyOffers(src.name, src.tables))
    else
      match w.remoteTables(src)
      case Err(cause) => Refused(NotListed(src.name, cause))
      case Ok(tables) => Listed(CopyOffers(src.name, tables))
  }

  function Offers(w: World, attached: set<string>, src: Source): Listing {
    if src.kind == "dir" then
      match w.readDir(src.path)
      case Err(cause) => Refused(UnreadableDir(src.path, cause))
      case Ok(entries) => Listed(DirOffers(w, src.path, entries))
    else if src.kind == "parquet" then Listed([FileOffer("read_parquet", FileTable(src.path), src.path)])
    else if src.kind == "csv" then Listed([FileOffer("read_csv_auto", FileTable(src.path), src.path)])
    else if src.kind == "postgres" || src.kind == "mysql" then
      var refusal := AttachRefusal(w, attached, src, src.kind);
      if refusal.Some? then Refused(refusal.value) else AttachedOffers(w, src)
    else if src.kind == "clickhouse" then RemoteOffers(w, src)
    else Refused(UnknownType(src.name, src.kind))
  }

  // ---------- claiming ----------

  datatype Loaded = Loaded(seen: map<string, string>, tables: seq<string>, catalog: Catalog, attached: set<string>)

  function ClaimError(o: Offer, cause: string): LoadError {
    if o.def.View? then NotRegistered(o.table, cause) else NotCopied(o.origin, o.table, cause)
  }

  /** A name already claimed is left alone; otherwise it is created and recorded. */
  function Claim(w: World, st: Loaded, o: Offer): (Loaded, Option<LoadError>) {
    var entry := Entry(o.table, o.def);
    if o.table in st.seen then (st, None)
    else if w.create(st.catalog, entry).Some? then (st, Some(ClaimError(o, w.create(st.catalog, entry).value)))
    else
      (Loaded(st.seen[o.table := o.origin], st.tables + [o.table], st.catalog[w.fold(o.table) := entry], st.attached),
       None)
  }

  function ClaimAll(w: World, st: Loaded, offers: seq<Offer>): (Loaded, Option<LoadError>)
    decreases |offers|
  {
    if offers == [] then (st, None)
    else
      var (next, err) := Claim(w, st, offers[0]);
      if err.Some? then (next, err) else ClaimAll(w, next, offers[1..])
  }

  function Load(w: World, st: Loaded, src: Source): (Loaded, Option<LoadError>) {
    match Offers(w, st.attached, src)
    case Refused(e) => (st, Some(e))
    case Listed(offers) => ClaimAll(w, st, offers)
  }

  function LoadAll(w: World, st: Loaded, srcs: seq<Source>): (Loaded, Option<LoadError>)
    decreases |srcs|
  {
    if srcs == [] then (st, None)
    else
      var (next, err) := Load(w, st, srcs[0]);
      if err.Some? then (next, err) else LoadAll(w, next, srcs[1..])
  }

  function Start(catalog: Catalog): Loaded {
    Loaded(map[], [], catalog, {})
  }

  // ---------- the class ----------

  class Engine {
    const w: World
    var seen: map<string, string>
    var tables: seq<string>
    var catalog: Catalog
    var attached: set<string>

    ghost function Abs(): Loaded
      reads this
    {
      Loaded(seen, tables, catalog, attached)
    }

    constructor (w: World, catalog: Catalog)
      ensures this.w == w && Abs() == Start(catalog)
    {
      this.w, this.catalog := w, catalog;
      seen, tables, attached := map[], [], {};
    }

    /** One CREATE OR REPLACE statement, or the copy of one table. */
    method Create(entry: Entry) returns (failure: Option<string>)
      modifies this`catalog
      ensures failure == w.create(old(catalog), entry)
      ensures catalog == if failure.Some? then old(catalog) else old(catalog)[w.fold(entry.table) := entry]
    {
      failure := w.create(catalog, entry);
      if failure.None? {
        catalog := catalog[w.fold(entry.table) := entry];
      }
    }

    method Register(table: string, reader: string, origin: string) returns (err: Option<LoadError>)
      modifies this
      ensures (Abs(), err) == Claim(w, old(Abs()), FileOffer(reader, table, origin))
    {
      if table in seen {
        return None;
      }
      var failure := Create(Entry(table, View(reader, origin)));
      if failure.Some? {
        return Some(NotRegistered(table, failure.value));
      }
      seen := seen[table := origin];
      tables := tables + [table];
      return None;
    }

    method LoadDir(src: Source) returns (err: Option<LoadError>)
      requires src.kind == "dir"
      modifies this
      ensures (Abs(), err) == Load(w, old(Abs()), src)
    {
      hide Reader, FileTable, Claim;
      var listed := w.readDir(src.path);
      if listed.Err? {
        return Some(UnreadableDir(src.path, listed.error));
      }
      var entries := listed.value;
      assert entries[0..] == entries;
      for i := 0 to |entries|
        invariant ClaimAll(w, Abs(), DirOffers(w, src.path, entries[i..]))
               == ClaimAll(w, old(Abs()), DirOffers(w, src.path, entries))
      {
        assert entries[i..][0] == entries[i] && entries[i..][1..] == entries[i + 1..];
        var entry := entries[i];
        ghost var rest := DirOffers(w, src.path, entries[i + 1..]);
        if entry.isDir {
          assert [] + rest == rest;
          continue;
        }
        var reader := Reader(entry.name);
        if reader.None? {
          assert [] + rest == rest;
          continue;
        }
        var path := w.join(src.path, entry.name);
        ghost var offer := FileOffer(reader.value, FileTable(entry.name), path);
        assert ([offer] + rest)[1..] == rest;
        err := Register(FileTable(entry.name), reader.value, path);
        if err.Some? {
          return;
        }
      }
      return None;
    }

    method AttachedTables(src: Source) returns (r: Result<seq<QualTable>>)
      ensures r == (match w.attachedTables(src)
                    case Err(cause) => Err(cause)
                    case Ok(listed) => Ok(AllowedTables(src.tables, listed)))
    {
      hide Lower, Allowed, AllowedTables;
      var listed := w.attachedTables(src);
      if listed.Err? {
        return Err(listed.error);
      }
      var allowSet: set<string> := {};
      for k := 0 to |src.tables|
        invariant allowSet == set j | 0 <= j < k :: Lower(src.tables[j])
      {
        allowSet := allowSet + {Lower(src.tables[k])};
      }
      var out, rows := [], listed.value;
      AllowedTablesEnds(src.tables, rows);
      for i := 0 to |rows|
        invariant out + AllowedTables(src.tables, rows[i..]) == AllowedTables(src.tables, rows)
      {
        AllowedTablesStep(src.tables, rows, i);
        InAllowSet(src.tables, allowSet, rows[i]);
        if |allowSet| > 0 && Lower(rows[i].name) !in allowSet && Lower(rows[i].schema + "." + rows[i].name) !in allowSet {
          continue;
        }
        out := out + [rows[i]];
      }
      assert out + [] == out;
      return Ok(out);
    }

    method AttachSnapshot(src: Source, extension: string) returns (err: Option<LoadError>)
      requires src.kind == extension && extension in {"postgres", "mysql"}
      requires Alias(src) !in attached
      modifies this
      ensures (Abs(), err) == Load(w, old(Abs()), src)
    {
      hide Claim, AllowedTables;
      if src.dsn == "" {
        return Some(EmptyDsn(src.name));
      }
      if extension != "" {
        var failure := w.extension(extension);
        if failure.Some? {
          return Some(NoExtension(extension, failure.value));
        }
      }
      var refused := w.attach(attached, src);
      if refused.Some? {
        return Some(NotAttached(src.name, refused.value));
      }
      attached := attached + {Alias(src)};
      if AttachedOffers(w, src).Listed? {
        ClaimsIgnoreAttached(w, old(Abs()), attached, AttachedOffers(w, src).offers);
        ClaimsKeepAttached(w, old(Abs()), AttachedOffers(w, src).offers);
      }
      err := CopyAttached(src);
      attached := attached - {Alias(src)};
      assert attached == old(attached);
    }

    /** The part of attachSnapshot between ATTACH and the deferred DETACH. */
    method CopyAttached(src: Source) returns (err: Option<LoadError>)
      modifies this
      ensures var (st, e) := match AttachedOffers(w, src)
                             case Refused(e) => (old(Abs()), Some(e))
                             case Listed(offers) => ClaimAll(w, old(Abs()), offers);
              (Abs(), err) == (st, e)
    {
      hide AllowedTables;
      var listed := AttachedTables(src);
      if listed.Err? {
        return Some(NotListed(src.name, listed.error));
      }
      var rows := listed.value;
      ghost var offers := SnapshotOffers(src.name, rows);
      assert offers[0..] == offers;
      for i := 0 to |rows|
        invariant ClaimAll(w, Abs(), offers[i..]) == ClaimAll(w, old(Abs()), offers)
      {
        assert offers[i..][0] == offers[i] && offers[i..][1..] == offers[i + 1..];
        var qt := rows[i];
        if qt.name in seen {
          continue;
        }
        var failure := Create(Entry(qt.name, Snapshot(src.name, qt.schema, qt.name)));
        if failure.Some? {
          return Some(NotCopied(src.name, qt.name, failure.value));
        }
        seen := seen[qt.name := src.name];
        tables := tables + [qt.name];
      }
      return None;
    }

    method ClickhousePull(src: Source) returns (err: Option<LoadError>)
      requires src.kind == "clickhouse"
      modifies this
      ensures (Abs(), err) == Load(w, old(Abs()), src)
    {
      if src.dsn == "" {
        return Some(EmptyDsn(src.name));
      }
      var refused := w.connect(src);
      if refused.Some? {
        return Some(NotConnected(src.name, refused.value));
      }
      var names := src.tables;
      if |names| == 0 {
        var listed := w.remoteTables(src);
        if listed.Err? {
          return Some(NotListed(src.name, listed.error));
        }
        names := listed.value;
      }
      ghost var offers := CopyOffers(src.name, names);
      assert offers[0..] == offers;
      for i := 0 to |names|
        invariant ClaimAll(w, Abs(), offers[i..]) == ClaimAll(w, old(Abs()), offers)
      {
        assert offers[i..][0] == offers[i] && offers[i..][1..] == offers[i + 1..];
        var t := names[i];
        if t in seen {
          continue;
        }
        var failure := Create(Entry(t, Copy(src.name, t)));
        if failure.Some? {
          return Some(NotCopied(src.name, t, failure.value));
        }
        seen := seen[t := src.name];
        tables := tables + [t];
      }
      return None;
    }

    method LoadSource(src: Source) returns (err: Option<LoadError>)
      requires attached == {}
      modifies this
      ensures (Abs(), err) == Load(w, old(Abs()), src)
    {
      hide Claim, FileTable, DirOffers, AttachRefusal, AttachedOffers, RemoteOffers;
      match src.kind
      case "dir" => err := LoadDir(src);
      case "parquet" => err := Register(FileTable(src.path), "read_parquet", src.path);
        ClaimOne(w, old(Abs()), FileOffer("read_parquet", FileTable(src.path), src.path));
      case "csv" => err := Register(FileTable(src.path), "read_csv_auto", src.path);
        ClaimOne(w, old(Abs()), FileOffer("read_csv_auto", FileTable(src.path), src.path));
      case "postgres" => err := AttachSnapshot(src, "postgres");
      case "mysql" => err := AttachSnapshot(src, "mysql");
      case "clickhouse" => err := ClickhousePull(src);
      case _ => err := Some(UnknownType(src.name, src.kind));
    }

    /** NewFromSourcesAt: every source in turn, then the table list is sorted. */
    static method FromSources(w: World, stored: Catalog, srcs: seq<Source>) returns (e: Option<Engine>, err: Option<LoadError>)
      ensures var (st, failure) := LoadAll(w, Start(stored), srcs);
              && err == failure && e.Some? == failure.None?
              && (e.Some? ==> fresh(e.value) && e.value.w == w && e.value.Abs() == st.(tables := Sort(st.tables)))
    {
      hide Load;
      var engine := new Engine(w, stored);
      assert srcs[0..] == srcs;
      for i := 0 to |srcs|
        invariant engine.attached == {} && engine.w == w
        invariant LoadAll(w, engine.Abs(), srcs[i..]) == LoadAll(w, Start(stored), srcs)
      {
        assert srcs[i..][0] == srcs[i] && srcs[i..][1..] == srcs[i + 1..];
        LoadDetaches(w, engine.Abs(), srcs[i]);
        err := engine.LoadSource(srcs[i]);
        if err.Some? {
          return None, err;
        }
      }
      engine.tables := Sort(engine.tables);
      return Some(engine), None;
    }
  }

  lemma ClaimOne(w: World, st: Loaded, o: Offer)
    ensures ClaimAll(w, st, [o]) == Claim(w, st, o)
  {
    var (next, err) := Claim(w, st, o);
    assert ClaimAll(w, next, []) == (next, None);
  }

  lemma {:induction false} ClaimsIgnoreAttached(w: World, st: Loaded, attached: set<string>, offers: seq<Offer>)
    ensures var (r, err) := ClaimAll(w, st, offers);
            ClaimAll(w, st.(attached := attached), offers) == (r.(attached := attached), err)
    decreases |offers|
  {
    if offers != [] {
      ClaimsIgnoreAttached(w, Claim(w, st, offers[0]).0, attached, offers[1..]);
    }
  }

  lemma AllowedTablesEnds(allow: seq<string>, rows: seq<QualTable>)
    ensures rows[0..] == rows && AllowedTables(allow, rows[|rows|..]) == []
  {
  }

  lemma AllowedTablesStep(allow: seq<string>, rows: seq<QualTable>, i: nat)
    requires i < |rows|
    ensures forall out: seq<QualTable> ::
              out + AllowedTables(allow, rows[i..])
              == (if Allowed(allow, rows[i]) then out + [rows[i]] else out) + AllowedTables(allow, rows[i + 1..])
  {
    assert rows[i..][0] == rows[i] && rows[i..][1..] == rows[i + 1..];
  }

  lemma InAllowSet(allow: seq<string>, allowSet: set<string>, qt: QualTable)
    requires allowSet == set j | 0 <= j < |allow| :: Lower(allow[j])
    ensures Allowed(allow, qt) <==>
            |allowSet| == 0 || Lower(qt.name) in allowSet || Lower(qt.schema + "." + qt.name) in allowSet
  {
    if allow != [] {
      assert Lower(allow[0]) in allowSet;
    }
  }

  /** A source is detached however its load ends. */
  lemma {:induction false} ClaimsKeepAttached(w: World, st: Loaded, offers: seq<Offer>)
    ensures ClaimAll(w, st, offers).0.attached == st.attached
    decreases |offers|
  {
    if offers != [] {
      ClaimsKeepAttached(w, Claim(w, st, offers[0]).0, offers[1..]);
    }
  }

  lemma LoadDetaches(w: World, st: Loaded, src: Source)
    ensures Load(w, st, src).0.attached == st.attached
  {
    hide Offers;
    if Offers(w, st.attached, src).Listed? {
      ClaimsKeepAttached(w, st, Offers(w, st.attached, src).offers);
    }
  }
}
