/** One engine per distinct set of sources (cmd/spoofdb/main.go). */
module EngineCache {
  import opened Basics
  import opened Fidelity
  import opened EngineLoad

  /** A configured source, its DSN already resolved. */
  datatype SourceConfig = SourceConfig(kind: string, path: string, dsn: string, tables: seq<string>)

  type Config = map<string, SourceConfig>

  datatype CacheError = UnknownSource(name: string) | LoadFailed(error: LoadError)

  // ---------- which sources a request means ----------

  /** The keys of a set in some order. */
  ghost function Listed(names: set<string>): (r: seq<string>)
    ensures multiset(r) == multiset(names)
  {
    if names == {} then []
    else
      var x :| x in names;
      assert names == (names - {x}) + {x};
      [x] + Listed(names - {x})
  }

  /** The sorted names a request stands for: all configured sources if it names none. */
  ghost function Asked(cfg: Config, names: seq<string>): seq<string> {
    Sort(if names == [] then Listed(cfg.Keys) else names)
  }

  ghost predicate IsAsked(cfg: Config, list: seq<string>) {
    exists names :: list == Asked(cfg, names)
  }

  predicate Known(cfg: Config, names: seq<string>) {
    forall i :: 0 <= i < |names| ==> names[i] in cfg
  }

  /** Name `i` is the first that is not configured. */
  predicate FirstUnknown(cfg: Config, names: seq<string>, i: nat)
    requires i < |names|
  {
    names[i] !in cfg && Known(cfg, names[..i])
  }

  function SourceOf(cfg: Config, name: string): Source
    requires name in cfg
  {
    var c := cfg[name];
    Source(name, c.kind, c.path, c.dsn, c.tables)
  }

  function SourcesOf(cfg: Config, names: seq<string>): seq<Source>
    requires Known(cfg, names)
  {
    seq(|names|, i requires 0 <= i < |names| => SourceOf(cfg, names[i]))
  }

  /** Some order of the keys: Go iterates a map in no particular one. */
  method KeysOf(cfg: Config) returns (names: seq<string>)
    ensures multiset(names) == multiset(cfg.Keys)
  {
    names := [];
    var left := cfg.Keys;
    while left != {}
      invariant left <= cfg.Keys && multiset(names) + multiset(left) == multiset(cfg.Keys)
      decreases |left|
    {
      var x :| x in left;
      assert left == (left - {x}) + {x};
      left, names := left - {x}, names + [x];
    }
  }

  method SelectSources(cfg: Config, asked: seq<string>) returns (srcs: seq<Source>, err: Option<CacheError>)
    ensures var names := Asked(cfg, asked);
            && err.None? == Known(cfg, names)
            && (err.None? ==>
                  && srcs == SourcesOf(cfg, names) && |srcs| == |names|
                  && forall i :: 0 <= i < |srcs| ==>
                       var c := cfg[names[i]];
                       srcs[i] == Source(names[i], c.kind, c.path, c.dsn, c.tables))
            && (err.Some? ==> exists i :: 0 <= i < |names| && FirstUnknown(cfg, names, i) && err == Some(UnknownSource(names[i])))
  {
    hide Sort, Listed;
    var names := asked;
    if |names| == 0 {
      names := KeysOf(cfg);
      SortPermutation(names, Listed(cfg.Keys));
      KeysKnown(cfg, names);
    }
    ghost var given := names;
    names := Sort(names);
    SortMembers(given);
    assert names == Asked(cfg, asked);
    srcs := [];
    for i := 0 to |names|
      invariant |srcs| == i && Known(cfg, names[..i])
      invariant forall j :: 0 <= j < i ==> names[j] in cfg && srcs[j] == SourceOf(cfg, names[j])
    {
      if names[i] !in cfg {
        assert FirstUnknown(cfg, names, i);
        return srcs, Some(UnknownSource(names[i]));
      }
      srcs := srcs + [SourceOf(cfg, names[i])];
    }
    return srcs, None;
  }

  lemma KeysKnown(cfg: Config, names: seq<string>)
    requires multiset(names) == multiset(cfg.Keys)
    ensures Known(cfg, names)
  {
    forall i | 0 <= i < |names| ensures names[i] in cfg {
      assert names[i] in multiset(names);
    }
  }

  lemma SortMembers(s: seq<string>)
    ensures forall x :: x in Sort(s) <==> x in s
  {
    forall x ensures x in Sort(s) <==> x in s {
      assert x in multiset(Sort(s)) <==> x in multiset(s);
    }
  }

  // ---------- the key ----------

  function Join(names: seq<string>): string
    requires names != []
  {
    if |names| == 1 then names[0]
    else Key(Join(names[..|names| - 1]), names[|names| - 1])
  }

  const NO_SOURCES := "(none)"

  function EngineKey(names: seq<string>): string {
    if names == [] then NO_SOURCES else Join(names)
  }

  predicate AllNulFree(names: seq<string>) {
    forall i :: 0 <= i < |names| ==> NulFree(names[i])
  }

  lemma JoinHasNul(names: seq<string>)
    requires |names| > 1
    ensures !NulFree(Join(names))
  {
    var front := Join(names[..|names| - 1]);
    assert Join(names)[|front|] == NUL;
  }

  lemma {:induction false} JoinInjective(a: seq<string>, b: seq<string>)
    requires a != [] && b != [] && AllNulFree(a) && AllNulFree(b) && Join(a) == Join(b)
    ensures a == b
  {
    if |a| > 1 { JoinHasNul(a); }
    if |b| > 1 { JoinHasNul(b); }
    if |a| > 1 && |b| > 1 {
      KeyInjective(Join(a[..|a| - 1]), a[|a| - 1], Join(b[..|b| - 1]), b[|b| - 1]);
      JoinInjective(a[..|a| - 1], b[..|b| - 1]);
      assert a == a[..|a| - 1] + [a[|a| - 1]] && b == b[..|b| - 1] + [b[|b| - 1]];
    }
  }

  /** Two requests against one configuration with NUL-free names share a key exactly if they mean the
      same sorted names. The key without sources collides with nothing: it is only asked for where no
      source is configured. */
  lemma SameKeyIffSameSources(cfg: Config, p: seq<string>, q: seq<string>)
    requires forall n :: n in cfg ==> NulFree(n)
    requires Known(cfg, Asked(cfg, p)) && Known(cfg, Asked(cfg, q))
    ensures EngineKey(Asked(cfg, p)) == EngineKey(Asked(cfg, q)) <==> Asked(cfg, p) == Asked(cfg, q)
  {
    var a, b := Asked(cfg, p), Asked(cfg, q);
    NoneMeansEmpty(cfg, p);
    NoneMeansEmpty(cfg, q);
    if a != [] && b != [] && Join(a) == Join(b) {
      JoinInjective(a, b);
    }
  }

  lemma NoneMeansEmpty(cfg: Config, names: seq<string>)
    requires Known(cfg, Asked(cfg, names))
    ensures Asked(cfg, names) == [] <==> cfg == map[]
    ensures EngineKey(Asked(cfg, names)) == "(none)" <==> cfg == map[] || Asked(cfg, names) == ["(none)"]
  {
    hide Sort, Listed;
    var list := if names == [] then Listed(cfg.Keys) else names;
    var asked := Asked(cfg, names);
    assert multiset(asked) == multiset(list);
    if |asked| > 1 { JoinHasNul(asked); }
    assert NulFree("(none)");
    assert |asked| == 1 ==> asked == [asked[0]];
    assert asked == [] ==> |multiset(list)| == 0;
    assert forall x :: x in cfg ==> x in multiset(cfg.Keys);
    assert asked != [] ==> asked[0] in cfg;
  }

  /** NUL-freeness is needed: one name with a NUL inside has the key of two. */
  lemma NulNamesCollide(a: string, b: string)
    ensures EngineKey([a + [NUL] + b]) == EngineKey([a, b])
  {
    assert [a, b][..1] == [a];
    assert Join([a, b]) == Key(Join([a]), b);
  }

  /** A request's order and a request for everything do not matter. */
  lemma AskedForgetsOrder(cfg: Config, p: seq<string>, q: seq<string>)
    requires p != [] && q != []
    ensures multiset(p) == multiset(q) ==> Asked(cfg, p) == Asked(cfg, q)
    ensures multiset(p) == multiset(cfg.Keys) ==> Asked(cfg, p) == Asked(cfg, [])
  {
    if multiset(p) == multiset(q) { SortPermutation(p, q); }
    if multiset(p) == multiset(cfg.Keys) { SortPermutation(p, Listed(cfg.Keys)); }
  }

  /** Names repeated in a request do: the same set of sources then has another engine. */
  lemma RepetitionsMatter(cfg: Config, a: string)
    ensures Asked(cfg, [a, a]) != Asked(cfg, [a]) && EngineKey(Asked(cfg, [a, a])) != EngineKey(Asked(cfg, [a]))
  {
    assert Sort([a]) == [a] && Sort([a, a]) == [a, a] by {
      assert [a][1..] == [] && [a, a][1..] == [a];
    }
    assert [a, a][..1] == [a];
    assert |Join([a, a])| == |Join([a])| + 1 + |a|;
  }

  // ---------- the cache ----------

  /** `e` was loaded from the named sources, in that order, on some catalogue stored before. */
  ghost predicate BuiltFrom(e: Engine, cfg: Config, names: seq<string>)
    reads e
  {
    Known(cfg, names) &&
    exists stored: Catalog ::
      var (st, err) := LoadAll(e.w, Start(stored), SourcesOf(cfg, names));
      err.None? && e.Abs() == st.(tables := Sort(st.tables))
  }

  class Cache {
    const cfg: Config
    var engines: map<string, Engine>
    /** The names each cached engine was built for. */
    ghost var built: map<string, seq<string>>

    ghost predicate Valid()
      reads this, engines.Values
    {
      && built.Keys == engines.Keys
      && (forall k :: k in engines ==>
            EngineKey(built[k]) == k && IsAsked(cfg, built[k]) && BuiltFrom(engines[k], cfg, built[k]))
      && (forall k, l :: k in engines && l in engines && k != l ==> engines[k] != engines[l])
    }

    /** An answer the cache has given stays what it is. */
    ghost predicate Answers(names: seq<string>, e: Engine)
      reads this
    {
      Known(cfg, Asked(cfg, names)) &&
      var key := EngineKey(Asked(cfg, names));
      key in engines && engines[key] == e
    }

    constructor (cfg: Config)
      ensures Valid() && this.cfg == cfg && engines == map[]
    {
      this.cfg := cfg;
      engines, built := map[], map[];
    }

    /** `w` and `stored` are the outside world and the data file's catalogue at the time of the call. */
    method EngineFor(w: World, stored: Catalog, names: seq<string>) returns (e: Option<Engine>, err: Option<CacheError>)
      requires Valid()
      modifies this
      ensures Valid() && e.Some? == err.None?
      ensures e.Some? ==> Answers(names, e.value)
      ensures e.Some? && EngineKey(Asked(cfg, names)) !in old(engines) ==>
        fresh(e.value) && engines == old(engines)[EngineKey(Asked(cfg, names)) := e.value]
      ensures e.None? || EngineKey(Asked(cfg, names)) in old(engines) ==> engines == old(engines)
      ensures !Known(cfg, Asked(cfg, names)) ==> err.Some? && err.value.UnknownSource?
    {
      hide Asked, EngineKey, LoadAll, BuiltFrom, Sort, SourceNamesOf;
      var srcs;
      srcs, err := SelectSources(cfg, names);
      if err.Some? {
        return None, err;
      }
      ghost var asked := Asked(cfg, names);
      var key := KeyOf(srcs);
      assert key == EngineKey(asked) by { SourceNames(cfg, asked); SortAsked(cfg, names); }
      if key in engines {
        return Some(engines[key]), None;
      }
      e, err := Build(w, stored, srcs, asked);
      if e.Some? {
        assert IsAsked(cfg, asked);
        Put(key, e.value, asked);
      }
    }

    method Build(w: World, stored: Catalog, srcs: seq<Source>, ghost asked: seq<string>)
      returns (e: Option<Engine>, err: Option<CacheError>)
      requires Known(cfg, asked) && srcs == SourcesOf(cfg, asked)
      ensures e.Some? == err.None? && (err.Some? ==> err.value.LoadFailed?)
      ensures e.Some? ==> fresh(e.value) && BuiltFrom(e.value, cfg, asked)
    {
      hide LoadAll;
      var engine, failure := Engine.FromSources(w, stored, srcs);
      return engine, if failure.Some? then Some(LoadFailed(failure.value)) else None;
    }

    method Put(key: string, e: Engine, ghost asked: seq<string>)
      requires Valid() && key == EngineKey(asked) && key !in engines && e !in engines.Values
      requires IsAsked(cfg, asked) && BuiltFrom(e, cfg, asked)
      modifies this`engines, this`built
      ensures Valid() && engines == old(engines)[key := e]
    {
      hide BuiltFrom, IsAsked, EngineKey;
      engines, built := engines[key := e], built[key := asked];
      assert forall k :: k in old(engines) ==> engines[k] == old(engines[k]) && built[k] == old(built[k]);
    }
  }

  /** engineKey of the source: it sorts the names again. */
  function KeyOf(srcs: seq<Source>): string {
    EngineKey(Sort(SourceNamesOf(srcs)))
  }

  function SourceNamesOf(srcs: seq<Source>): seq<string> {
    seq(|srcs|, i requires 0 <= i < |srcs| => srcs[i].name)
  }

  lemma SourceNames(cfg: Config, names: seq<string>)
    requires Known(cfg, names)
    ensures SourceNamesOf(SourcesOf(cfg, names)) == names
  {
  }

  lemma SortAsked(cfg: Config, names: seq<string>)
    ensures Sort(Asked(cfg, names)) == Asked(cfg, names)
  {
    var list := if names == [] then Listed(cfg.Keys) else names;
    SortPermutation(Asked(cfg, names), list);
  }

  /** A request, and the outside world when it is made. */
  datatype Request = Request(w: World, stored: Catalog, names: seq<string>)

  lemma BuiltForAnswer(cache: Cache, names: seq<string>, e: Engine)
    requires cache.Valid() && cache.Answers(names, e)
    requires forall n :: n in cache.cfg ==> NulFree(n)
    ensures BuiltFrom(e, cache.cfg, Asked(cache.cfg, names))
  {
    hide Asked, EngineKey, LoadAll;
    var list := cache.built[EngineKey(Asked(cache.cfg, names))];
    var first :| list == Asked(cache.cfg, first);
    SameKeyIffSameSources(cache.cfg, first, names);
  }

  /** The listeners' requests one after the other, up to the first that fails: two requests get the
      same engine exactly if they mean the same sources, and the engine was built from those. */
  method StartShards(cache: Cache, requests: seq<Request>) returns (got: seq<Engine>, err: Option<CacheError>)
    requires cache.Valid() && cache.engines == map[]
    requires forall n :: n in cache.cfg ==> NulFree(n)
    modifies cache
    ensures cache.Valid()
    ensures |got| <= |requests| && (err.None? ==> |got| == |requests|)
    ensures forall i :: 0 <= i < |got| ==> BuiltFrom(got[i], cache.cfg, Asked(cache.cfg, requests[i].names))
    ensures forall i, j :: 0 <= i < |got| && 0 <= j < |got| ==>
      (got[i] == got[j] <==> Asked(cache.cfg, requests[i].names) == Asked(cache.cfg, requests[j].names))
  {
    hide Asked, EngineKey, LoadAll, BuiltFrom;
    got, err := [], None;
    for n := 0 to |requests|
      invariant cache.Valid() && |got| == n
      invariant forall i :: 0 <= i < n ==> cache.Answers(requests[i].names, got[i])
    {
      var r := requests[n];
      var e;
      e, err := cache.EngineFor(r.w, r.stored, r.names);
      if err.Some? {
        break;
      }
      got := got + [e.value];
    }
    forall i | 0 <= i < |got| ensures BuiltFrom(got[i], cache.cfg, Asked(cache.cfg, requests[i].names)) {
      BuiltForAnswer(cache, requests[i].names, got[i]);
    }
    forall i, j | 0 <= i < |got| && 0 <= j < |got|
      ensures got[i] == got[j] <==> Asked(cache.cfg, requests[i].names) == Asked(cache.cfg, requests[j].names)
    {
      SameKeyIffSameSources(cache.cfg, requests[i].names, requests[j].names);
    }
  }
}
