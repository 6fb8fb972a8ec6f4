/** First claim wins, over every list of sources. */
module EngineClaims {
  import opened Basics
  import opened EngineLoad

  // ---------- first claim wins ----------

  /** Everything the sources offer, in list order and then listing order. */
  function AllOffers(w: World, srcs: seq<Source>): seq<Offer> {
    if srcs == [] then []
    else
      (match Offers(w, {}, srcs[0]) case Refused(_) => [] case Listed(offers) => offers) + AllOffers(w, srcs[1..])
  }

  /** The first offer of `table`. */
  function First(offers: seq<Offer>, table: string): Option<Offer> {
    if offers == [] then None
    else if offers[0].table == table then Some(offers[0])
    else First(offers[1..], table)
  }

  lemma {:induction false} ClaimAllConcat(w: World, st: Loaded, a: seq<Offer>, b: seq<Offer>)
    ensures var (next, err) := ClaimAll(w, st, a);
            ClaimAll(w, st, a + b) == if err.Some? then (next, err) else ClaimAll(w, next, b)
    decreases |a|
  {
    if a == [] {
      assert a + b == b;
    } else {
      assert (a + b)[0] == a[0] && (a + b)[1..] == a[1..] + b;
      ClaimAllConcat(w, Claim(w, st, a[0]).0, a[1..], b);
    }
  }

  /** A load that succeeds has claimed every offer in turn. */
  lemma {:induction false} LoadAllClaims(w: World, st: Loaded, srcs: seq<Source>)
    requires st.attached == {} && LoadAll(w, st, srcs).1.None?
    ensures LoadAll(w, st, srcs) == ClaimAll(w, st, AllOffers(w, srcs))
    decreases |srcs|
  {
    hide Offers, Claim;
    if srcs != [] {
      var next := Load(w, st, srcs[0]).0;
      LoadDetaches(w, st, srcs[0]);
      LoadAllClaims(w, next, srcs[1..]);
      ClaimAllConcat(w, st, Offers(w, {}, srcs[0]).offers, AllOffers(w, srcs[1..]));
    }
  }

  /** The offers that get their name: those of a name not yet taken, in order. */
  function Winners(taken: set<string>, offers: seq<Offer>): seq<Offer>
    decreases |offers|
  {
    if offers == [] then []
    else if offers[0].table in taken then Winners(taken, offers[1..])
    else [offers[0]] + Winners(taken + {offers[0].table}, offers[1..])
  }

  predicate Distinct(offers: seq<Offer>) {
    forall i, j :: 0 <= i < j < |offers| ==> offers[i].table != offers[j].table
  }

  function NamesOf(offers: seq<Offer>): seq<string> {
    seq(|offers|, k requires 0 <= k < |offers| => offers[k].table)
  }

  function Recorded(seen: map<string, string>, offers: seq<Offer>): map<string, string>
    decreases |offers|
  {
    if offers == [] then seen else Recorded(seen[offers[0].table := offers[0].origin], offers[1..])
  }

  function Installed(w: World, catalog: Catalog, offers: seq<Offer>): Catalog
    decreases |offers|
  {
    if offers == [] then catalog
    else Installed(w, catalog[w.fold(offers[0].table) := Entry(offers[0].table, offers[0].def)], offers[1..])
  }

  lemma {:induction false} ClaimAllWinners(w: World, st: Loaded, offers: seq<Offer>)
    requires ClaimAll(w, st, offers).1.None?
    ensures var won := Winners(st.seen.Keys, offers);
            ClaimAll(w, st, offers).0
            == Loaded(Recorded(st.seen, won), st.tables + NamesOf(won), Installed(w, st.catalog, won), st.attached)
    decreases |offers|
  {
    if offers == [] {
      assert st.tables + [] == st.tables;
    } else {
      var o, next := offers[0], Claim(w, st, offers[0]).0;
      ClaimAllWinners(w, next, offers[1..]);
      if o.table !in st.seen {
        assert next.seen.Keys == st.seen.Keys + {o.table};
        var rest := Winners(next.seen.Keys, offers[1..]);
        assert ([o] + rest)[0] == o && ([o] + rest)[1..] == rest;
        assert NamesOf([o] + rest) == [o.table] + NamesOf(rest);
        assert st.tables + [o.table] + NamesOf(rest) == st.tables + ([o.table] + NamesOf(rest));
      }
    }
  }

  /** The winners are the first offers of the names not taken. */
  lemma {:induction false} WinnersAreFirst(taken: set<string>, offers: seq<Offer>, o: Offer)
    ensures o in Winners(taken, offers) <==> o.table !in taken && First(offers, o.table) == Some(o)
    decreases |offers|
  {
    if offers != [] {
      WinnersAreFirst(if offers[0].table in taken then taken else taken + {offers[0].table}, offers[1..], o);
    }
  }

  lemma {:induction false} WinnersDistinct(taken: set<string>, offers: seq<Offer>)
    ensures Distinct(Winners(taken, offers))
    decreases |offers|
  {
    if offers != [] && offers[0].table in taken {
      WinnersDistinct(taken, offers[1..]);
    } else if offers != [] {
      var o, more := offers[0], taken + {offers[0].table};
      WinnersDistinct(more, offers[1..]);
      var rest := Winners(more, offers[1..]);
      forall j | 0 <= j < |rest| ensures rest[j].table != o.table {
        WinnersAreFirst(more, offers[1..], rest[j]);
      }
    }
  }

  lemma {:induction false} FirstHasName(offers: seq<Offer>, table: string)
    ensures First(offers, table).Some? <==> table in NamesOf(offers)
    ensures First(offers, table).Some? ==> First(offers, table).value.table == table
  {
    if offers != [] {
      FirstHasName(offers[1..], table);
      assert NamesOf(offers) == [offers[0].table] + NamesOf(offers[1..]);
    }
  }

  lemma {:induction false} RecordedKeeps(seen: map<string, string>, offers: seq<Offer>, t: string)
    requires t !in NamesOf(offers)
    ensures t in Recorded(seen, offers) <==> t in seen
    ensures t in seen ==> Recorded(seen, offers)[t] == seen[t]
    decreases |offers|
  {
    if offers != [] {
      assert NamesOf(offers) == [offers[0].table] + NamesOf(offers[1..]);
      RecordedKeeps(seen[offers[0].table := offers[0].origin], offers[1..], t);
    }
  }

  lemma {:induction false} RecordedAt(seen: map<string, string>, offers: seq<Offer>, o: Offer)
    requires Distinct(offers) && o in offers
    ensures o.table in Recorded(seen, offers) && Recorded(seen, offers)[o.table] == o.origin
    decreases |offers|
  {
    var next := seen[offers[0].table := offers[0].origin];
    if o == offers[0] {
      RecordedKeeps(next, offers[1..], o.table);
    } else {
      RecordedAt(next, offers[1..], o);
    }
  }

  /** What the state after a load says of one name. */
  lemma ClaimedName(offers: seq<Offer>, t: string)
    ensures var won := Winners({}, offers);
            var seen := Recorded(map[], won);
            if First(offers, t).Some? then
              && First(offers, t).value in won && First(offers, t).value.table == t
              && t in NamesOf(won) && t in seen && seen[t] == First(offers, t).value.origin
            else t !in NamesOf(won) && t !in seen
  {
    var won := Winners({}, offers);
    FirstHasName(offers, t);
    if First(offers, t).Some? {
      var o := First(offers, t).value;
      WinnersAreFirst({}, offers, o);
      WinnersDistinct({}, offers);
      RecordedAt(map[], won, o);
      NamedBy(won, o);
    } else {
      forall k | 0 <= k < |won| ensures won[k].table != t {
        WinnersAreFirst({}, offers, won[k]);
      }
      RecordedKeeps(map[], won, t);
    }
  }

  lemma NamedBy(offers: seq<Offer>, o: Offer)
    requires o in offers
    ensures o.table in NamesOf(offers)
  {
    var k :| 0 <= k < |offers| && offers[k] == o;
    assert NamesOf(offers)[k] == o.table;
  }

  /** A load that succeeds, in terms of the winners. */
  lemma LoadedState(w: World, stored: Catalog, srcs: seq<Source>)
    requires LoadAll(w, Start(stored), srcs).1.None?
    ensures var won := Winners({}, AllOffers(w, srcs));
            LoadAll(w, Start(stored), srcs).0 == Loaded(Recorded(map[], won), NamesOf(won), Installed(w, stored, won), {})
  {
    var won := Winners({}, AllOffers(w, srcs));
    LoadAllClaims(w, Start(stored), srcs);
    ClaimAllWinners(w, Start(stored), AllOffers(w, srcs));
    assert Start(stored).seen.Keys == {};
    assert [] + NamesOf(won) == NamesOf(won);
  }

  /** After a load that succeeds the table list is sorted and names every key of `seen` once; the keys
      are the names offered; and each name's origin is that of the first offer of it. */
  lemma FirstClaimWins(w: World, stored: Catalog, srcs: seq<Source>)
    requires LoadAll(w, Start(stored), srcs).1.None?
    ensures var (st, offers) := (LoadAll(w, Start(stored), srcs).0, AllOffers(w, srcs));
            && Sorted(Sort(st.tables)) && multiset(Sort(st.tables)) == multiset(st.seen.Keys)
            && (forall t :: t in st.seen <==> First(offers, t).Some?)
            && (forall t :: t in st.seen ==> st.seen[t] == First(offers, t).value.origin)
  {
    var offers := AllOffers(w, srcs);
    LoadedState(w, stored, srcs);
    hide LoadAll, AllOffers, First, Recorded;
    var won := Winners({}, offers);
    var seen := Recorded(map[], won);
    forall t ensures t in seen <==> First(offers, t).Some?
             ensures t in seen <==> t in NamesOf(won)
             ensures t in seen ==> seen[t] == First(offers, t).value.origin
    {
      ClaimedName(offers, t);
    }
    WinnersDistinct({}, offers);
    hide Winners;
    DistinctMultiset(NamesOf(won), seen.Keys);
    SortSorted(NamesOf(won));
  }

  lemma {:induction false} DistinctMultiset(names: seq<string>, keys: set<string>)
    requires forall i, j :: 0 <= i < j < |names| ==> names[i] != names[j]
    requires forall t :: t in keys <==> t in names
    ensures multiset(names) == multiset(keys)
  {
    if names != [] {
      assert names == [names[0]] + names[1..];
      DistinctMultiset(names[1..], keys - {names[0]});
      assert keys == (keys - {names[0]}) + {names[0]};
    }
  }

  // ---------- what the catalogue holds ----------

  lemma {:induction false} InstalledKeeps(w: World, catalog: Catalog, offers: seq<Offer>, key: string)
    requires forall k :: 0 <= k < |offers| ==> w.fold(offers[k].table) != key
    ensures key in Installed(w, catalog, offers) <==> key in catalog
    ensures key in catalog ==> Installed(w, catalog, offers)[key] == catalog[key]
    decreases |offers|
  {
    if offers != [] {
      InstalledKeeps(w, catalog[w.fold(offers[0].table) := Entry(offers[0].table, offers[0].def)], offers[1..], key);
    }
  }

  /** The entry under a key that some offer folds to is one such offer's. */
  lemma {:induction false} InstalledFrom(w: World, catalog: Catalog, offers: seq<Offer>, key: string)
    requires exists k :: 0 <= k < |offers| && w.fold(offers[k].table) == key
    ensures exists k :: 0 <= k < |offers| && w.fold(offers[k].table) == key && key in Installed(w, catalog, offers)
              && Installed(w, catalog, offers)[key] == Entry(offers[k].table, offers[k].def)
    decreases |offers|
  {
    var o, rest := offers[0], offers[1..];
    var next := catalog[w.fold(o.table) := Entry(o.table, o.def)];
    if exists k :: 0 <= k < |rest| && w.fold(rest[k].table) == key {
      InstalledFrom(w, next, rest, key);
      var k :| 0 <= k < |rest| && w.fold(rest[k].table) == key && key in Installed(w, next, rest)
               && Installed(w, next, rest)[key] == Entry(rest[k].table, rest[k].def);
      assert offers[k + 1] == rest[k];
    } else {
      forall k | 0 <= k < |rest| ensures w.fold(rest[k].table) != key {
        assert offers[k + 1] == rest[k];
      }
      InstalledKeeps(w, next, rest, key);
    }
  }

  /** What the catalogue holds for the table `t` was made as its first offer says. */
  ghost predicate HoldsFirst(w: World, st: Loaded, offers: seq<Offer>, t: string) {
    First(offers, t).Some? && w.fold(t) in st.catalog && st.catalog[w.fold(t)].def == First(offers, t).value.def
  }

  function FirstDef(offers: seq<Offer>, t: string): Option<Definition> {
    match First(offers, t)
    case None => None
    case Some(o) => Some(o.def)
  }

  /** Loaded names that fold together are first offered with one definition. */
  ghost predicate NoClash(w: World, offers: seq<Offer>, names: set<string>) {
    forall t, u :: t in names && u in names && w.fold(t) == w.fold(u) ==> FirstDef(offers, t) == FirstDef(offers, u)
  }

  predicate ToldApart(w: World, names: set<string>) {
    forall t, u :: t in names && u in names && t != u ==> w.fold(t) != w.fold(u)
  }

  /** Joining a directory and a table file's name keeps the table's name, as `filepath.Join` does. */
  ghost predicate JoinKeepsName(w: World) {
    forall dir, name :: Reader(name).Some? ==> FileTable(w.join(dir, name)) == FileTable(name)
  }

  /** Every loaded table has the contents of its first offer exactly if loaded names that the catalogue
      folds together are offered with one definition. As a definition fixes its table's name, that is
      exactly if the catalogue tells all loaded names apart -- always, if it compares exact bytes; where
      it does not, both names stay listed over one entry. Names no source offers keep what was stored. */
  lemma ContentsAreFirstClaimsIff(w: World, stored: Catalog, srcs: seq<Source>)
    requires LoadAll(w, Start(stored), srcs).1.None?
    ensures var (st, offers) := (LoadAll(w, Start(stored), srcs).0, AllOffers(w, srcs));
            && ((forall t :: t in st.seen ==> HoldsFirst(w, st, offers, t)) <==> NoClash(w, offers, st.seen.Keys))
            && (JoinKeepsName(w) ==> (NoClash(w, offers, st.seen.Keys) <==> ToldApart(w, st.seen.Keys)))
            && (forall key :: (forall t :: t in st.seen ==> w.fold(t) != key) ==>
                  (key in st.catalog <==> key in stored) && (key in stored ==> st.catalog[key] == stored[key]))
  {
    var offers := AllOffers(w, srcs);
    LoadedState(w, stored, srcs);
    CatalogIff(w, stored, offers);
    CatalogKeeps(w, stored, offers);
    if JoinKeepsName(w) {
      AllOffersNamed(w, srcs);
      NamedClash(w, stored, offers);
    }
  }

  // ---------- a definition fixes its table's name ----------

  function TableOf(def: Definition): string {
    match def
    case View(_, path) => FileTable(path)
    case Snapshot(_, _, table) => table
    case Copy(_, table) => table
  }

  predicate Named(offers: seq<Offer>) {
    forall k :: 0 <= k < |offers| ==> offers[k].table == TableOf(offers[k].def)
  }

  lemma {:induction false} DirOffersNamed(w: World, dir: string, entries: seq<DirEntry>)
    requires JoinKeepsName(w)
    ensures Named(DirOffers(w, dir, entries))
  {
    hide Reader, FileTable;
    if entries != [] { DirOffersNamed(w, dir, entries[1..]); }
  }

  lemma {:induction false} AllOffersNamed(w: World, srcs: seq<Source>)
    requires JoinKeepsName(w)
    ensures Named(AllOffers(w, srcs))
  {
    hide DirOffers, AllowedTables, FileTable, JoinKeepsName;
    if srcs != [] {
      AllOffersNamed(w, srcs[1..]);
      if srcs[0].kind == "dir" && w.readDir(srcs[0].path).Ok? {
        DirOffersNamed(w, srcs[0].path, w.readDir(srcs[0].path).value);
      }
    }
  }

  lemma {:induction false} FirstNamed(offers: seq<Offer>, t: string)
    requires Named(offers) && First(offers, t).Some?
    ensures t == TableOf(First(offers, t).value.def)
  {
    if offers[0].table != t { FirstNamed(offers[1..], t); }
  }

  lemma NamedClash(w: World, stored: Catalog, offers: seq<Offer>)
    requires Named(offers)
    ensures var names := LoadedFrom(w, stored, offers).seen.Keys; NoClash(w, offers, names) <==> ToldApart(w, names)
  {
    hide Winners, Recorded, Installed, First, TableOf;
    var names := LoadedFrom(w, stored, offers).seen.Keys;
    forall t | t in names ensures First(offers, t).Some? && t == TableOf(First(offers, t).value.def) {
      ClaimedName(offers, t);
      FirstNamed(offers, t);
    }
  }

  /** The tables loaded from `offers`. */
  ghost function LoadedFrom(w: World, stored: Catalog, offers: seq<Offer>): Loaded {
    var won := Winners({}, offers);
    Loaded(Recorded(map[], won), NamesOf(won), Installed(w, stored, won), {})
  }

  lemma CatalogKeeps(w: World, stored: Catalog, offers: seq<Offer>)
    ensures var st := LoadedFrom(w, stored, offers);
            forall key :: (forall t :: t in st.seen ==> w.fold(t) != key) ==>
              (key in st.catalog <==> key in stored) && (key in stored ==> st.catalog[key] == stored[key])
  {
    hide Winners, Recorded, Installed;
    var won := Winners({}, offers);
    var st := LoadedFrom(w, stored, offers);
    forall key | forall t :: t in st.seen ==> w.fold(t) != key
      ensures key in st.catalog <==> key in stored
      ensures key in stored ==> st.catalog[key] == stored[key]
    {
      forall k | 0 <= k < |won| ensures w.fold(won[k].table) != key {
        NamedBy(won, won[k]);
        ClaimedName(offers, won[k].table);
      }
      InstalledKeeps(w, stored, won, key);
    }
  }

  lemma CatalogIff(w: World, stored: Catalog, offers: seq<Offer>)
    ensures var st := LoadedFrom(w, stored, offers);
            (forall t :: t in st.seen ==> HoldsFirst(w, st, offers, t)) <==> NoClash(w, offers, st.seen.Keys)
  {
    hide Winners, Recorded, Installed, First;
    var st := LoadedFrom(w, stored, offers);
    if NoClash(w, offers, st.seen.Keys) {
      forall t | t in st.seen ensures HoldsFirst(w, st, offers, t) {
        HeldUnderKey(w, stored, offers, t);
      }
    } else {
      forall t | t in st.seen ensures First(offers, t).Some? {
        ClaimedName(offers, t);
      }
      // One key holds one entry, which has one definition.
      var t, u :| t in st.seen && u in st.seen && w.fold(t) == w.fold(u)
                  && FirstDef(offers, t) != FirstDef(offers, u);
      assert !(HoldsFirst(w, st, offers, t) && HoldsFirst(w, st, offers, u));
    }
  }

  lemma HeldUnderKey(w: World, stored: Catalog, offers: seq<Offer>, t: string)
    requires var st := LoadedFrom(w, stored, offers); t in st.seen && NoClash(w, offers, st.seen.Keys)
    ensures HoldsFirst(w, LoadedFrom(w, stored, offers), offers, t)
  {
    hide Winners, Recorded, Installed, First;
    var won, key := Winners({}, offers), w.fold(t);
    ClaimedName(offers, t);
    var j :| 0 <= j < |won| && won[j] == First(offers, t).value;
    InstalledFrom(w, stored, won, key);
    var k :| 0 <= k < |won| && w.fold(won[k].table) == key && key in Installed(w, stored, won)
             && Installed(w, stored, won)[key] == Entry(won[k].table, won[k].def);
    WinnersAreFirst({}, offers, won[k]);
    ClaimedName(offers, won[k].table);
  }
}
