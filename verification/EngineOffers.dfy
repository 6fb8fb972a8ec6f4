/** What each source offers, on the names of its files and tables, and when a load succeeds. */
module EngineOffers {
  import opened Basics
  import opened Words
  import opened EngineLoad
  import opened EngineClaims

  // ---------- file names ----------

  /** A name without a directory. */
  predicate OneName(s: string) {
    '/' !in s
  }

  lemma {:induction false} ExtIs(path: string, ext: string)
    requires OneName(ext) && '.' !in ext
    ensures Ext(path + "." + ext) == "." + ext
    decreases |ext|
  {
    var s := path + "." + ext;
    if ext == "" {
      assert s[|s| - 1] == '.';
    } else {
      var front := ext[..|ext| - 1];
      ExtIs(path, front);
      assert s[..|s| - 1] == path + "." + front;
      assert s[|s| - 1] == ext[|ext| - 1];
      assert "." + front + [ext[|ext| - 1]] == "." + ext;
    }
  }

  lemma {:induction false} NoExt(s: string)
    requires '.' !in s
    ensures Ext(s) == ""
  {
    if s != "" && s[|s| - 1] != '/' { NoExt(s[..|s| - 1]); }
  }

  lemma {:induction false} LastElementIs(dir: string, name: string)
    requires OneName(name)
    ensures LastElement(dir + "/" + name) == name && LastElement(name) == name
    decreases |name|
  {
    var s := dir + "/" + name;
    if name == "" {
      assert s[|s| - 1] == '/';
    } else {
      var front := name[..|name| - 1];
      LastElementIs(dir, front);
      assert s[..|s| - 1] == dir + "/" + front && s[|s| - 1] == name[|name| - 1];
      assert front + [name[|name| - 1]] == name;
    }
  }

  lemma BaseIs(dir: string, name: string)
    requires OneName(name) && name != ""
    ensures Base(dir + "/" + name) == name && Base(name) == name
  {
    hide LastElement;
    LastElementIs(dir, name);
    var s := dir + "/" + name;
    assert s[|s| - 1] == name[|name| - 1] != '/';
    assert WithoutTrailing(s, '/') == s && WithoutTrailing(name, '/') == name;
  }

  /** The table of a file is its name up to the last dot, in whatever directory it lies. */
  lemma FileTableIs(dir: string, stem: string, ext: string)
    requires OneName(stem) && OneName(ext) && '.' !in ext
    ensures FileTable(dir + "/" + stem + "." + ext) == stem && FileTable(stem + "." + ext) == stem
    ensures stem != "" && '.' !in stem ==> FileTable(dir + "/" + stem) == stem && FileTable(stem) == stem
  {
    hide Base, Ext;
    var name := stem + "." + ext;
    BaseIs(dir, name);
    assert dir + "/" + stem + "." + ext == dir + "/" + name;
    ExtIs(stem, ext);
    assert name[..|stem|] == stem;
    if stem != "" && '.' !in stem {
      BaseIs(dir, stem);
      NoExt(stem);
    }
  }

  /** The name ends like `suffix`, in any letter case. */
  predicate EndsLike(name: string, suffix: string) {
    |suffix| <= |name| && SameLetters(name[|name| - |suffix|..], suffix)
  }

  predicate SmallLetters(s: string) {
    forall i :: 0 <= i < |s| ==> 'a' <= s[i] <= 'z'
  }

  /** A name that ends like a dot and some letters: the dot, and what follows it. */
  lemma SuffixParts(name: string, kind: string) returns (rest: string)
    requires SmallLetters(kind) && EndsLike(name, "." + kind)
    ensures |rest| == |kind| && OneName(rest) && '.' !in rest
    ensures var n := |name| - |kind| - 1; name == name[..n] + "." + rest && name[n..] == "." + rest
  {
    var n := |name| - |kind| - 1;
    var tail := name[n..];
    var like := "." + kind;
    assert SameLetter(tail[0], like[0]);
    rest := tail[1..];
    forall i | 0 <= i < |rest| ensures rest[i] != '.' && rest[i] != '/' {
      assert SameLetter(tail[i + 1], like[i + 1]) && like[i + 1] == kind[i];
    }
    assert tail == "." + rest;
  }

  lemma SuffixIsExt(name: string, kind: string)
    requires SmallLetters(kind) && EndsLike(name, "." + kind)
    ensures Ext(name) == name[|name| - |kind| - 1..] && Lower(Ext(name)) == "." + kind
  {
    hide Lower, Ext;
    var rest := SuffixParts(name, kind);
    ExtIs(name[..|name| - |kind| - 1], rest);
    SameLettersIff("." + rest, "." + kind);
    SmallIsLower(kind);
    LowerDot(kind);
  }

  lemma SmallIsLower(s: string)
    requires SmallLetters(s)
    ensures Lower(s) == s
  {
  }

  lemma LowerDot(kind: string)
    requires Lower(kind) == kind
    ensures Lower("." + kind) == "." + kind
  {
    assert Lower("." + kind) == "." + Lower(kind);
  }

  lemma ExtEnds(name: string, kind: string)
    requires Lower(kind) == kind && Lower(Ext(name)) == "." + kind
    ensures EndsLike(name, "." + kind)
  {
    hide Lower, Ext;
    LowerDot(kind);
    SameLettersIff(Ext(name), "." + kind);
    LowerSize(Ext(name));
  }

  lemma LowerSize(s: string)
    ensures |Lower(s)| == |s|
  {
  }

  /** Parquet and csv files are told by the end of their name, in any letter case. */
  lemma ReaderIs(name: string)
    ensures Reader(name) == if EndsLike(name, ".parquet") then Some("read_parquet")
                            else if EndsLike(name, ".csv") then Some("read_csv_auto")
                            else None
  {
    hide Ext, EndsLike;
    SmallIsLower("parquet");
    SmallIsLower("csv");
    assert "." + "parquet" == ".parquet" && "." + "csv" == ".csv";
    hide Lower;
    if EndsLike(name, ".parquet") { SuffixIsExt(name, "parquet"); }
    if EndsLike(name, ".csv") { SuffixIsExt(name, "csv"); }
    if Lower(Ext(name)) == ".parquet" { ExtEnds(name, "parquet"); }
    if Lower(Ext(name)) == ".csv" { ExtEnds(name, "csv"); }
  }

  // ---------- the listings ----------

  lemma DirOffersCons(w: World, dir: string, e: DirEntry, rest: seq<DirEntry>)
    ensures DirOffers(w, dir, [e] + rest) == DirOffers(w, dir, [e]) + DirOffers(w, dir, rest)
  {
    hide Reader, FileTable;
    assert ([e] + rest)[1..] == rest && [e][1..] == [];
    assert DirOffers(w, dir, []) == [];
  }

  lemma {:induction false} DirOffersConcat(w: World, dir: string, a: seq<DirEntry>, b: seq<DirEntry>)
    ensures DirOffers(w, dir, a + b) == DirOffers(w, dir, a) + DirOffers(w, dir, b)
    decreases |a|
  {
    hide DirOffers;
    if a == [] {
      assert a + b == b;
      NoEntries(w, dir);
    } else {
      var e, rest := a[0], a[1..];
      DirOffersConcat(w, dir, rest, b);
      assert a == [e] + rest && a + b == [e] + (rest + b);
      DirOffersCons(w, dir, e, rest);
      DirOffersCons(w, dir, e, rest + b);
    }
  }

  /** The one offer of a directory entry: none of a directory or another kind of file. */
  function EntryOffer(w: World, dir: string, e: DirEntry): seq<Offer> {
    var path := w.join(dir, e.name);
    if e.isDir then []
    else if EndsLike(e.name, ".parquet") then [Offer(e.name[..|e.name| - 8], path, View("read_parquet", path))]
    else if EndsLike(e.name, ".csv") then [Offer(e.name[..|e.name| - 4], path, View("read_csv_auto", path))]
    else []
  }

  /** A directory offers its parquet and csv files, each under its own name, in listing order. */
  lemma DirectoryOffers(w: World, dir: string, before: seq<DirEntry>, e: DirEntry, after: seq<DirEntry>)
    requires OneName(e.name)
    ensures DirOffers(w, dir, before + [e] + after) ==
            DirOffers(w, dir, before) + EntryOffer(w, dir, e) + DirOffers(w, dir, after)
    ensures DirOffers(w, dir, []) == []
  {
    hide Reader, FileTable, DirOffers, EndsLike;
    DirOffersConcat(w, dir, before + [e], after);
    DirOffersConcat(w, dir, before, [e]);
    OneEntry(w, dir, e);
    NoEntries(w, dir);
  }

  lemma NoEntries(w: World, dir: string)
    ensures DirOffers(w, dir, []) == []
  {
  }

  lemma OneEntry(w: World, dir: string, e: DirEntry)
    requires OneName(e.name)
    ensures DirOffers(w, dir, [e]) == EntryOffer(w, dir, e)
  {
    hide Reader, FileTable, EndsLike;
    ReaderIs(e.name);
    assert "." + "parquet" == ".parquet" && "." + "csv" == ".csv";
    if EndsLike(e.name, ".parquet") { StemOf(e.name, "parquet"); }
    if EndsLike(e.name, ".csv") { StemOf(e.name, "csv"); }
    NoEntries(w, dir);
    assert [e][1..] == [];
  }

  lemma StemOf(name: string, kind: string)
    requires OneName(name) && SmallLetters(kind) && EndsLike(name, "." + kind)
    ensures |name| > |kind| && FileTable(name) == name[..|name| - |kind| - 1]
  {
    hide FileTable;
    var rest := SuffixParts(name, kind);
    FileTableIs("", name[..|name| - |kind| - 1], rest);
  }

  /** A table passes the allowlist if there is none, or an entry is its name, or its schema and name, in
      any letter case. */
  predicate Passes(allow: seq<string>, t: QualTable) {
    allow == [] ||
    exists k :: 0 <= k < |allow| && (SameLetters(allow[k], t.name) || SameLetters(allow[k], t.schema + "." + t.name))
  }

  lemma AllowedPasses(allow: seq<string>, t: QualTable)
    ensures Allowed(allow, t) <==> Passes(allow, t)
  {
    hide Lower;
    forall k | 0 <= k < |allow|
      ensures Lower(allow[k]) == Lower(t.name) <==> SameLetters(allow[k], t.name)
      ensures Lower(allow[k]) == Lower(t.schema + "." + t.name) <==> SameLetters(allow[k], t.schema + "." + t.name)
    {
      SameLettersIff(allow[k], t.name);
      SameLettersIff(allow[k], t.schema + "." + t.name);
    }
  }

  lemma AllowedCons(allow: seq<string>, t: QualTable, rest: seq<QualTable>)
    ensures AllowedTables(allow, [t] + rest) == (if Allowed(allow, t) then [t] else []) + AllowedTables(allow, rest)
  {
    assert ([t] + rest)[1..] == rest;
  }

  lemma NoneAllowed(allow: seq<string>)
    ensures AllowedTables(allow, []) == []
  {
  }

  lemma {:induction false} AllowedConcat(allow: seq<string>, a: seq<QualTable>, b: seq<QualTable>)
    ensures AllowedTables(allow, a + b) == AllowedTables(allow, a) + AllowedTables(allow, b)
    decreases |a|
  {
    hide Allowed, AllowedTables;
    if a == [] {
      assert a + b == b;
      NoneAllowed(allow);
    } else {
      var t, rest := a[0], a[1..];
      AllowedConcat(allow, rest, b);
      assert a == [t] + rest && a + b == [t] + (rest + b);
      AllowedCons(allow, t, rest);
      AllowedCons(allow, t, rest + b);
    }
  }

  /** The tables that pass, in listing order. */
  lemma AllowlistKeeps(allow: seq<string>, before: seq<QualTable>, t: QualTable, after: seq<QualTable>)
    ensures AllowedTables(allow, before + [t] + after) ==
            AllowedTables(allow, before) + (if Passes(allow, t) then [t] else []) + AllowedTables(allow, after)
    ensures AllowedTables(allow, []) == []
  {
    hide Allowed, Passes, AllowedTables;
    AllowedCons(allow, t, []);
    NoneAllowed(allow);
    assert [t] + [] == [t];
    AllowedConcat(allow, before + [t], after);
    AllowedConcat(allow, before, [t]);
    AllowedPasses(allow, t);
  }

  // ---------- one source ----------

  /** What the load of one source comes to before any table is created: the error it stops with, if any. */
  function SourceError(w: World, attached: set<string>, src: Source): Option<LoadError> {
    match src.kind
    case "dir" => if w.readDir(src.path).Err? then Some(UnreadableDir(src.path, w.readDir(src.path).error)) else None
    case "parquet" => None
    case "csv" => None
    case "postgres" => DatabaseError(w, attached, src)
    case "mysql" => DatabaseError(w, attached, src)
    case "clickhouse" =>
      if src.dsn == "" then Some(EmptyDsn(src.name))
      else if w.connect(src).Some? then Some(NotConnected(src.name, w.connect(src).value))
      else if src.tables == [] && w.remoteTables(src).Err? then Some(NotListed(src.name, w.remoteTables(src).error))
      else None
    case _ => Some(UnknownType(src.name, src.kind))
  }

  function DatabaseError(w: World, attached: set<string>, src: Source): Option<LoadError> {
    if src.dsn == "" then Some(EmptyDsn(src.name))
    else if w.extension(src.kind).Some? then Some(NoExtension(src.kind, w.extension(src.kind).value))
    else if w.attach(attached, src).Some? then Some(NotAttached(src.name, w.attach(attached, src).value))
    else if w.attachedTables(src).Err? then Some(NotListed(src.name, w.attachedTables(src).error))
    else None
  }

  /** The tables a source offers under its own name: what the attached database lists and the allowlist
      passes; the allowlist of a ClickHouse source, or what it lists. */
  function TablesOf(w: World, src: Source): seq<string> {
    match src.kind
    case "clickhouse" => if src.tables != [] || w.remoteTables(src).Err? then src.tables else w.remoteTables(src).value
    case _ =>
      if w.attachedTables(src).Err? then []
      else
        var passed := AllowedTables(src.tables, w.attachedTables(src).value);
        seq(|passed|, k requires 0 <= k < |passed| => passed[k].name)
  }

  /** A source is refused with the first error it meets; otherwise files offer themselves and databases
      their tables, in order, the databases under the source's name. */
  lemma SourceOffers(w: World, attached: set<string>, src: Source)
    ensures var error, listing := SourceError(w, attached, src), Offers(w, attached, src);
            match error
            case Some(e) => listing == Refused(e)
            case None =>
              && listing.Listed?
              && (src.kind == "dir" ==> listing.offers == DirOffers(w, src.path, w.readDir(src.path).value))
              && (src.kind == "parquet" ==>
                    listing.offers == [Offer(FileTable(src.path), src.path, View("read_parquet", src.path))])
              && (src.kind == "csv" ==>
                    listing.offers == [Offer(FileTable(src.path), src.path, View("read_csv_auto", src.path))])
              && (src.kind in ["postgres", "mysql", "clickhouse"] ==>
                    && |listing.offers| == |TablesOf(w, src)|
                    && forall k :: 0 <= k < |listing.offers| ==>
                         listing.offers[k].table == TablesOf(w, src)[k] && listing.offers[k].origin == src.name)
              && (src.kind in ["postgres", "mysql"] ==>
                    var passed := AllowedTables(src.tables, w.attachedTables(src).value);
                    forall k :: 0 <= k < |passed| ==>
                      listing.offers[k].def == Snapshot(src.name, passed[k].schema, passed[k].name))
              && (src.kind == "clickhouse" ==>
                    forall k :: 0 <= k < |listing.offers| ==>
                      listing.offers[k].def == Copy(src.name, listing.offers[k].table))
  {
    hide DirOffers, AllowedTables, FileTable;
  }

  // ---------- when a load succeeds ----------

  lemma {:induction false} ListedLoad(w: World, st: Loaded, srcs: seq<Source>)
    requires st.attached == {}
    ensures (forall k :: 0 <= k < |srcs| ==> Offers(w, {}, srcs[k]).Listed?) ==>
              LoadAll(w, st, srcs) == ClaimAll(w, st, AllOffers(w, srcs))
    ensures (exists k :: 0 <= k < |srcs| && !Offers(w, {}, srcs[k]).Listed?) ==> LoadAll(w, st, srcs).1.Some?
    decreases |srcs|
  {
    hide Offers, Claim;
    if srcs != [] {
      var (next, err) := Load(w, st, srcs[0]);
      LoadDetaches(w, st, srcs[0]);
      ListedLoad(w, next, srcs[1..]);
      assert forall k :: 1 <= k < |srcs| ==> srcs[k] == srcs[1..][k - 1];
      if Offers(w, {}, srcs[0]).Listed? {
        ClaimAllConcat(w, st, Offers(w, {}, srcs[0]).offers, AllOffers(w, srcs[1..]));
      }
    }
  }

  /** DuckDB takes the table that wins next, given those before it. */
  predicate Accepts(w: World, catalog: Catalog, won: seq<Offer>, k: nat)
    requires k < |won|
  {
    w.create(Installed(w, catalog, won[..k]), Entry(won[k].table, won[k].def)).None?
  }

  /** One claim of an untaken name, and the claims after it. */
  lemma ClaimThenRest(w: World, st: Loaded, o: Offer, rest: seq<Offer>)
    requires o.table !in st.seen
    ensures var won := [o] + rest;
            var (next, err) := Claim(w, st, o);
            if err.Some? then !Accepts(w, st.catalog, won, 0)
            else
              && next.seen.Keys == st.seen.Keys + {o.table}
              && ((forall k :: 0 <= k < |won| ==> Accepts(w, st.catalog, won, k)) <==>
                  (forall k :: 0 <= k < |rest| ==> Accepts(w, next.catalog, rest, k)))
  {
    var won := [o] + rest;
    var (next, err) := Claim(w, st, o);
    assert won[..0] == [] && won[0] == o;
    if err.None? {
      forall k | 0 <= k < |won|
        ensures Accepts(w, st.catalog, won, k) <==> k == 0 || Accepts(w, next.catalog, rest, k - 1)
      {
        if k > 0 {
          assert won[..k][0] == o && won[..k][1..] == rest[..k - 1];
        }
      }
      ShiftedAccepts(w, st.catalog, won, next.catalog, rest);
    }
  }

  lemma {:induction false} ClaimsSucceed(w: World, st: Loaded, offers: seq<Offer>)
    ensures var won := Winners(st.seen.Keys, offers);
            ClaimAll(w, st, offers).1.None? <==> forall k :: 0 <= k < |won| ==> Accepts(w, st.catalog, won, k)
    decreases |offers|
  {
    hide Accepts;
    if offers != [] {
      var o := offers[0];
      var (next, err) := Claim(w, st, o);
      ClaimsSucceed(w, next, offers[1..]);
      if o.table !in st.seen {
        var rest := Winners(st.seen.Keys + {o.table}, offers[1..]);
        ClaimThenRest(w, st, o, rest);
        var won := [o] + rest;
        assert won == Winners(st.seen.Keys, offers);
        if err.Some? {
          assert 0 < |won| && !Accepts(w, st.catalog, won, 0);
        } else {
          assert next.seen.Keys == st.seen.Keys + {o.table};
          assert Winners(next.seen.Keys, offers[1..]) == rest;
          assert ClaimAll(w, st, offers) == ClaimAll(w, next, offers[1..]);
        }
      }
    }
  }

  lemma ShiftedAccepts(w: World, catalog: Catalog, won: seq<Offer>, later: Catalog, rest: seq<Offer>)
    requires |won| == |rest| + 1
    requires forall k :: 0 <= k < |won| ==> (Accepts(w, catalog, won, k) <==> k == 0 || Accepts(w, later, rest, k - 1))
    ensures (forall k :: 0 <= k < |won| ==> Accepts(w, catalog, won, k)) <==>
            (forall k :: 0 <= k < |rest| ==> Accepts(w, later, rest, k))
  {
    hide Accepts;
    assert forall k :: 0 <= k < |rest| ==> (Accepts(w, later, rest, k) <==> Accepts(w, catalog, won, k + 1));
  }

  /** Loading succeeds exactly if every source can be listed and DuckDB creates every table that is
      offered first under its name, one after the other. */
  lemma LoadSucceedsIff(w: World, stored: Catalog, srcs: seq<Source>)
    ensures var won := Winners({}, AllOffers(w, srcs));
            LoadAll(w, Start(stored), srcs).1.None? <==>
            && (forall k :: 0 <= k < |srcs| ==> SourceError(w, {}, srcs[k]).None?)
            && (forall k :: 0 <= k < |won| ==> Accepts(w, stored, won, k))
  {
    hide Offers, LoadAll, AllOffers, SourceError, Accepts, ClaimAll, Winners;
    forall k | 0 <= k < |srcs| ensures SourceError(w, {}, srcs[k]).None? <==> Offers(w, {}, srcs[k]).Listed? {
      SourceOffers(w, {}, srcs[k]);
    }
    ListedLoad(w, Start(stored), srcs);
    assert Start(stored).seen.Keys == {};
    ClaimsSucceed(w, Start(stored), AllOffers(w, srcs));
  }
}
