/** FastRouteCache of cache.v and the FastRouter of fast_router.v. */
module FastRouting {
  import opened Options
  import opened LruSpec
  import opened LruProof
  import opened RouteCaches
  import opened RouteModel
  import opened RoutePattern
  import opened Settling
  import opened LruCache
  import Complexity
  import opened Sorting
  import opened VInt

  // ----- the fast cache -----

  class FastRouteCache {
    var cache: map<string, Match>
    var capacity: int
    var enabled: bool

    constructor (capacity: int)
      ensures cache == map[] && this.capacity == capacity && enabled
    {
      this.capacity, cache, enabled := capacity, map[], true;
    }

    method Get(key: string) returns (r: Option<Match>)
      ensures r == if enabled && key in cache then Some(cache[key]) else None
    {
      if !enabled {
        return None;
      }
      if key in cache {
        return Some(cache[key]);
      }
      return None;
    }

    method Put(key: string, value: Match)
      modifies this`cache
      ensures cache == if enabled then FastPut(old(cache), capacity, key, value) else old(cache)
    {
      if !enabled {
        return;
      }
      if |cache| >= capacity {
        cache := map[];
      }
      cache := cache[key := value];
    }

    method Clear()
      modifies this`cache
      ensures cache == map[]
    {
      cache := map[];
    }

    method SetEnabled(on: bool)
      modifies this`cache, this`enabled
      ensures enabled == on && cache == if on then old(cache) else map[]
    {
      enabled := on;
      if !on {
        Clear();
      }
    }
  }

  // ----- the router -----

  /** Every static route has its handler and its prepared answer. */
  ghost predicate Statics(handlers: map<string, Handler>, results: map<string, Match>) {
    && handlers.Keys == results.Keys
    && forall k :: k in handlers ==> results[k] == Match(handlers[k], map[], handlers[k].path)
  }

  lemma StaticsNext(handlers: map<string, Handler>, results: map<string, Match>, k: string, h: Handler)
    requires Statics(handlers, results)
    ensures Statics(handlers[k := h], results[k := Match(h, map[], h.path)])
  {
  }

  ghost function Compiled<R>(e: Engine<R>, verb: string, h: Handler): Route<R>
    requires e.compileNamed(h.path).Some?
  {
    Route(verb, h.path, e.compileNamed(h.path).value, e.names(h.path), h, Complexity.Score(h.path))
  }

  /** Every route of the table was compiled from its handler. */
  ghost predicate AllCompiled<R>(e: Engine<R>, routes: seq<Route<R>>) {
    forall i :: 0 <= i < |routes| ==>
      e.compileNamed(routes[i].handler.path).Some? && routes[i] == Compiled(e, routes[i].verb, routes[i].handler)
  }

  lemma AllCompiledNext<R>(e: Engine<R>, routes: seq<Route<R>>, verb: string, h: Handler)
    requires AllCompiled(e, routes) && e.compileNamed(h.path).Some?
    ensures AllCompiled(e, routes + [Compiled(e, verb, h)])
  {
  }

  lemma AllCompiledSorted<R>(e: Engine<R>, routes: seq<Route<R>>, t: seq<Route<R>>)
    requires AllCompiled(e, routes) && multiset(t) == multiset(routes)
    ensures AllCompiled(e, t)
  {
    hide Compiled;
    forall i | 0 <= i < |t|
      ensures e.compileNamed(t[i].handler.path).Some? && t[i] == Compiled(e, t[i].verb, t[i].handler)
    {
      var h := SameMember(t, routes, i);
    }
  }

  /** What a route answers to the request of a cache key. */
  ghost function ByKey<R>(e: Engine<R>): (string, Route<R>) -> Option<Match> {
    (k: string, r: Route<R>) => Answer(e, r, VerbOf(k), PathOf(k))
  }

  ghost function ComplexityOf<R>(): Route<R> -> int {
    (r: Route<R>) => r.complexity
  }

  /** For a method without a colon, the answer to a key is that to the request. */
  lemma ReplyIsScan<R>(e: Engine<R>, routes: seq<Route<R>>, verb: string, path: string)
    requires ':' !in verb
    ensures Reply(ByKey(e), routes, Key(verb, path)) == Scan(e, routes, verb, path)
  {
    hide First, Answer, Key, VerbOf, PathOf;
    KeyTells(verb, path);
    FirstSame(routes, ForKey(ByKey(e), Key(verb, path)), Answering(e, verb, path));
  }

  /** Sorting is by complexity. */
  lemma SortedIs<R>(t: seq<Route<R>>)
    ensures Sorted(t) <==> Ordered(t, ComplexityOf())
  {
  }

  /** The fast cache after requests for all the paths. */
  ghost function WarmFast<R>(e: Engine<R>, routes: seq<Route<R>>, statics: map<string, Match>, cache: map<string, Match>, capacity: int,
                             enabled: bool, verb: string, paths: seq<string>): map<string, Match>
  {
    if paths == [] then cache
    else
      var (path, c) := (paths[|paths| - 1], WarmFast(e, routes, statics, cache, capacity, enabled, verb, paths[..|paths| - 1]));
      if Key(verb, path) in statics then c else FastAfter(c, capacity, enabled, Key(verb, path), Scan(e, routes, verb, path))
  }

  /** The LRU cache after them. */
  ghost function WarmLru<R>(e: Engine<R>, routes: seq<Route<R>>, statics: map<string, Match>, cache: Cache<Match>, now: int,
                            verb: string, paths: seq<string>): Cache<Match>
  {
    if paths == [] then cache
    else
      var (path, c) := (paths[|paths| - 1], WarmLru(e, routes, statics, cache, now, verb, paths[..|paths| - 1]));
      if Key(verb, path) in statics then c else LruAfter(c, Key(verb, path), now, Scan(e, routes, verb, path))
  }

  lemma NothingWarm<R>(e: Engine<R>, routes: seq<Route<R>>, statics: map<string, Match>, f: map<string, Match>, capacity: int,
                       enabled: bool, l: Cache<Match>, now: int, verb: string, paths: seq<string>)
    requires paths == []
    ensures WarmFast(e, routes, statics, f, capacity, enabled, verb, paths) == f && WarmLru(e, routes, statics, l, now, verb, paths) == l
  {
  }

  lemma OneWarmer<R>(e: Engine<R>, routes: seq<Route<R>>, statics: map<string, Match>, f: map<string, Match>, capacity: int,
                     enabled: bool, l: Cache<Match>, now: int, verb: string, paths: seq<string>, i: nat)
    requires i < |paths|
    ensures var (c, k, scan) := (WarmFast(e, routes, statics, f, capacity, enabled, verb, paths[..i]), Key(verb, paths[i]),
                                 Scan(e, routes, verb, paths[i]));
            WarmFast(e, routes, statics, f, capacity, enabled, verb, paths[..i + 1]) ==
            if k in statics then c else FastAfter(c, capacity, enabled, k, scan)
    ensures var (c, k, scan) := (WarmLru(e, routes, statics, l, now, verb, paths[..i]), Key(verb, paths[i]),
                                 Scan(e, routes, verb, paths[i]));
            WarmLru(e, routes, statics, l, now, verb, paths[..i + 1]) == if k in statics then c else LruAfter(c, k, now, scan)
  {
    hide FastAfter, LruAfter, Scan;
    assert paths[..i + 1][..i] == paths[..i];
  }

  lemma {:induction false} WarmSize<R>(e: Engine<R>, routes: seq<Route<R>>, statics: map<string, Match>, f: map<string, Match>,
                                       capacity: int, verb: string, paths: seq<string>)
    requires |f| + |paths| <= capacity
    ensures |WarmFast(e, routes, statics, f, capacity, true, verb, paths)| <= |f| + |paths|
  {
    hide Scan, Key, FastAfter;
    if paths != [] {
      var (n, c) := (|paths| - 1, WarmFast(e, routes, statics, f, capacity, true, verb, paths[..|paths| - 1]));
      WarmSize(e, routes, statics, f, capacity, verb, paths[..n]);
      FastKeeps(c, capacity, Key(verb, paths[n]), Scan(e, routes, verb, paths[n]));
    }
  }

  /** A fast cache with room for all the paths holds an answer for each that has one. */
  lemma {:induction false} WarmHolds<R>(e: Engine<R>, routes: seq<Route<R>>, statics: map<string, Match>, f: map<string, Match>,
                                        capacity: int, verb: string, paths: seq<string>, i: nat)
    requires |f| + |paths| <= capacity && i < |paths|
    requires Key(verb, paths[i]) !in statics && Scan(e, routes, verb, paths[i]).Some?
    ensures Key(verb, paths[i]) in WarmFast(e, routes, statics, f, capacity, true, verb, paths)
  {
    hide Scan, Key, FastAfter;
    var (n, c) := (|paths| - 1, WarmFast(e, routes, statics, f, capacity, true, verb, paths[..|paths| - 1]));
    WarmSize(e, routes, statics, f, capacity, verb, paths[..n]);
    FastKeeps(c, capacity, Key(verb, paths[n]), Scan(e, routes, verb, paths[n]));
    if i < n {
      WarmHolds(e, routes, statics, f, capacity, verb, paths[..n], i);
    }
  }

  /** The LRU cache holds the answer of the last path that has one. */
  lemma WarmHoldsLast<R>(e: Engine<R>, routes: seq<Route<R>>, statics: map<string, Match>, l: Cache<Match>, now: int, verb: string,
                         paths: seq<string>, path: string)
    requires Key(verb, path) !in statics && Scan(e, routes, verb, path).Some?
    ensures exists m :: Bound(WarmLru(e, routes, statics, l, now, verb, paths + [path]).entries, Key(verb, path), m)
  {
    hide Scan, Key, LruAfter, LruSpec.Get, Bound;
    var (k, scan) := (Key(verb, path), Scan(e, routes, verb, path));
    var all := paths + [path];
    assert all[..|all| - 1] == paths && all[|all| - 1] == path;
    var c := WarmLru(e, routes, statics, l, now, verb, paths);
    var g := LruSpec.Get(c, k, now).1;
    LruRemembers(c, k, now, scan);
    assert WarmLru(e, routes, statics, l, now, verb, all) == LruAfter(c, k, now, scan);
    assert Bound(LruAfter(c, k, now, scan).entries, k, (if g.Some? then g else scan).value);
  }

  lemma FastKeeps(c: map<string, Match>, capacity: int, k: string, scan: Option<Match>)
    requires |c| < capacity
    ensures var d := FastAfter(c, capacity, true, k, scan); |d| <= |c| + 1 && c.Keys <= d.Keys && (scan.Some? ==> k in d)
  {
    if k !in c && scan.Some? {
      assert c[k := scan.value].Keys == c.Keys + {k};
    }
  }

  class FastRouter<R> {
    const engine: Engine<R>
    const fastCache: FastRouteCache
    const lruCache: ContextLRUCache<Match>
    var staticRoutes: map<string, Handler>
    var staticRouteResults: map<string, Match>
    var precompiledRoutes: seq<Route<R>>
    var cacheEnabled: bool
    var sortEnabled: bool
    var useFastCache: bool

    ghost predicate Valid()
      reads this, lruCache, lruCache.list
    {
      && lruCache.Valid()
      && (sortEnabled ==> Sorted(precompiledRoutes))
      && AllCompiled(engine, precompiledRoutes)
      && Statics(staticRoutes, staticRouteResults)
    }

    /** Both caches hold only what the plain scan answers. */
    ghost predicate Coherent()
      reads this, fastCache, lruCache, lruCache.list
    {
      && GoodMap(ByKey(engine), precompiledRoutes, fastCache.cache)
      && GoodList(ByKey(engine), precompiledRoutes, lruCache.Abs().entries)
    }

    ghost predicate CachesEmpty()
      reads fastCache, lruCache, lruCache.list
    {
      fastCache.cache == map[] && lruCache.Abs().entries == []
    }

    /** Sorting the routes `all` leaves every cached answer right, whatever it does with ties. */
    ghost predicate Settles(all: seq<Route<R>>)
      reads fastCache, lruCache, lruCache.list
    {
      SettledAll(ByKey(engine), all, ComplexityOf(), fastCache.cache, lruCache.Abs().entries)
    }

    /** What a request is answered without any cache. */
    ghost function Plain(verb: string, path: string): Option<Match>
      reads this
    {
      if Key(verb, path) in staticRouteResults then Some(staticRouteResults[Key(verb, path)])
      else Scan(engine, precompiledRoutes, verb, path)
    }

    constructor (engine: Engine<R>, cacheSize: int, now: int)
      ensures Valid() && Coherent() && CachesEmpty() && fresh(fastCache) && fresh(lruCache) && fresh(lruCache.nodes)
      ensures precompiledRoutes == [] && staticRoutes == map[]
      ensures cacheEnabled && sortEnabled && useFastCache
    {
      this.engine := engine;
      fastCache := new FastRouteCache(Int32(cacheSize * 10));
      lruCache := new ContextLRUCache(cacheSize, 3600, now);
      staticRoutes, staticRouteResults, precompiledRoutes := map[], map[], [];
      cacheEnabled, sortEnabled, useFastCache := true, true, true;
    }

    /** A static route, a route that does not compile, and a route added without sorting leave the caches
        coherent; with sorting they stay so if the table settles every cached answer (SortExact: exactly then,
        over all the orders that the sort may give). */
    method AddRoute(verb: string, handler: Handler) returns (ok: bool)
      requires Valid()
      modifies this`staticRoutes, this`staticRouteResults, this`precompiledRoutes
      ensures Valid()
      ensures var plain := ':' !in handler.path && '*' !in handler.path;
              && ok == (plain || engine.compileNamed(handler.path).Some?)
              && staticRoutes == (if plain then old(staticRoutes)[Key(verb, handler.path) := handler] else old(staticRoutes))
              && (plain || !ok ==> precompiledRoutes == old(precompiledRoutes) && (old(Coherent()) ==> Coherent()))
              && (!plain && ok ==>
                    var route := Route(verb, handler.path, engine.compileNamed(handler.path).value, engine.names(handler.path), handler,
                                       Complexity.Score(handler.path));
                    var all := old(precompiledRoutes) + [route];
                    && multiset(precompiledRoutes) == multiset(all)
                    && (!sortEnabled ==> precompiledRoutes == all && (old(Coherent()) ==> Coherent()))
                    && (sortEnabled && Settles(all) ==> Coherent()))
      ensures CachesEmpty() ==> Coherent()
    {
      hide Sorted, GoodMap, GoodList, SettledAll, AllCompiled, ContextLRUCache.Valid, ContextLRUCache.Abs, Statics;
      var fullPath := handler.path;
      GoodEmpty(ByKey(engine), precompiledRoutes);
      if ':' !in fullPath && '*' !in fullPath {
        var key := Key(verb, fullPath);
        StaticsNext(staticRoutes, staticRouteResults, key, handler);
        staticRoutes := staticRoutes[key := handler];
        staticRouteResults := staticRouteResults[key := Match(handler, map[], fullPath)];
        return true;
      }
      var compiled := PrecompileRoute(verb, handler);
      if compiled == None {
        return false;
      }
      AddDynamic(compiled.value, verb, handler);
      ok := true;
    }

    /** The dynamic part of add_route. */
    method AddDynamic(route: Route<R>, verb: string, handler: Handler)
      requires Valid() && engine.compileNamed(handler.path).Some? && route == Compiled(engine, verb, handler)
      modifies this`precompiledRoutes
      ensures Valid()
      ensures multiset(precompiledRoutes) == multiset(old(precompiledRoutes) + [route])
      ensures !sortEnabled ==> precompiledRoutes == old(precompiledRoutes) + [route] && (old(Coherent()) ==> Coherent())
      ensures sortEnabled && Settles(old(precompiledRoutes) + [route]) ==> Coherent()
      ensures CachesEmpty() ==> Coherent()
    {
      hide Compiled, Sorted, GoodMap, GoodList, SettledAll, AllCompiled, ContextLRUCache.Valid, ContextLRUCache.Abs, Statics;
      if Coherent() {
        GoodAppend(ByKey(engine), precompiledRoutes, route, fastCache.cache, lruCache.Abs().entries);
      }
      AllCompiledNext(engine, precompiledRoutes, verb, handler);
      precompiledRoutes := precompiledRoutes + [route];
      ghost var all := precompiledRoutes;
      if sortEnabled {
        SortDynamicRoutes();
      }
      AfterSort(all);
    }

    /** Sorted or not, the table is still one of compiled routes; and what the caches then hold. */
    lemma AfterSort(all: seq<Route<R>>)
      requires AllCompiled(engine, all) && multiset(precompiledRoutes) == multiset(all)
      ensures AllCompiled(engine, precompiledRoutes)
      ensures Sorted(precompiledRoutes) && Settles(all) ==> Coherent()
      ensures CachesEmpty() ==> Coherent()
    {
      hide Sorted, GoodMap, GoodList, SettledAll, AllCompiled, ContextLRUCache.Abs, Ordered;
      AllCompiledSorted(engine, all, precompiledRoutes);
      GoodEmpty(ByKey(engine), precompiledRoutes);
      SortedIs(precompiledRoutes);
      if Sorted(precompiledRoutes) && Settles(all) {
        SortGood(ByKey(engine), all, ComplexityOf(), precompiledRoutes, fastCache.cache, lruCache.Abs().entries);
      }
    }

    method SortDynamicRoutes()
      modifies this`precompiledRoutes
      ensures Sorted(precompiledRoutes) && multiset(precompiledRoutes) == multiset(old(precompiledRoutes))
    {
      precompiledRoutes := SortBy(precompiledRoutes, (r: Route<R>) => r.complexity);
    }

    method PrecompileRoute(verb: string, handler: Handler) returns (r: Option<Route<R>>)
      ensures r == if engine.compileNamed(handler.path).Some? then Some(Compiled(engine, verb, handler)) else None
    {
      var complexity := Complexity.Calculate(handler.path);
      var names := engine.names(handler.path);
      var regex := engine.compileNamed(handler.path);
      if regex.None? {
        return None;
      }
      return Some(Route(verb, handler.path, regex.value, names, handler, complexity));
    }

    /** Answers from the static table, a cache, or the scan. The caches hold afterwards what FastAfter and
        LruAfter say; the one not in use is not touched. */
    method MatchRoute(verb: string, path: string, now: int) returns (r: Option<Match>)
      requires Valid()
      modifies fastCache`cache, lruCache, lruCache.nodes
      ensures Valid() && fresh(lruCache.nodes - old(lruCache.nodes))
      ensures old(Coherent()) && ':' !in verb ==> Coherent() && r == Plain(verb, path)
      ensures !cacheEnabled ==> r == Plain(verb, path)
      // A static route answers with its handler and without parameters.
      ensures Key(verb, path) in staticRoutes ==>
                var h := staticRoutes[Key(verb, path)]; r == Some(Match(h, map[], h.path))
      // Any other answer comes from the first route of the method whose expression matches.
      ensures (!cacheEnabled || (old(Coherent()) && ':' !in verb)) && Key(verb, path) !in staticRoutes ==>
                && (r.Some? <==> exists i :: 0 <= i < |precompiledRoutes|
                                             && precompiledRoutes[i].verb == verb && engine.matches(precompiledRoutes[i].regex, path))
                && forall i :: 0 <= i < |precompiledRoutes|
                               && precompiledRoutes[i].verb == verb && engine.matches(precompiledRoutes[i].regex, path)
                               && (forall j :: 0 <= j < i ==> !(precompiledRoutes[j].verb == verb
                                                                && engine.matches(precompiledRoutes[j].regex, path))) ==>
                     var x := precompiledRoutes[i];
                     r == Some(Match(x.handler, map n | n in x.names :: engine.group(x.regex, path, n), x.pattern))
      // It is remembered in the cache that is on.
      ensures cacheEnabled && Key(verb, path) !in staticRoutes && r.Some? ==>
                && (useFastCache && fastCache.enabled ==> Key(verb, path) in fastCache.cache && fastCache.cache[Key(verb, path)] == r.value)
                && (!useFastCache ==> Bound(lruCache.Abs().entries, Key(verb, path), r.value))
      ensures (!cacheEnabled || (old(Coherent()) && ':' !in verb)) && r.Some? && Key(verb, path) !in staticRouteResults ==>
                (Faithful(engine) && WholePattern(r.value.path) ==> GivesPath(r.value, path))
      ensures var (k, c, g) := (Key(verb, path), old(fastCache.cache), LruSpec.Get(old(lruCache.Abs()), Key(verb, path), now).1);
              r == if k in staticRouteResults then Some(staticRouteResults[k])
                   else if cacheEnabled && useFastCache && fastCache.enabled && k in c then Some(c[k])
                   else if cacheEnabled && !useFastCache && g.Some? then g
                   else Scan(engine, precompiledRoutes, verb, path)
      ensures var (k, scan) := (Key(verb, path), Scan(engine, precompiledRoutes, verb, path));
              var on := cacheEnabled && k !in staticRouteResults;
              && fastCache.cache == (if on && useFastCache
                                     then FastAfter(old(fastCache.cache), fastCache.capacity, fastCache.enabled, k, scan)
                                     else old(fastCache.cache))
              && lruCache.Abs() == if on && !useFastCache then LruAfter(old(lruCache.Abs()), k, now, scan) else old(lruCache.Abs())
    {
      hide Sorted, GoodMap, GoodList, ContextLRUCache.Valid, ContextLRUCache.Abs, Reply, Scan, FastAfter, LruAfter, AllCompiled,
        Bound, Faithful, WholePattern, GivesPath, LruSpec.Get;
      var cacheKey := Key(verb, path);
      if cacheKey in staticRouteResults {
        return Some(staticRouteResults[cacheKey]);
      }
      ghost var scan := Scan(engine, precompiledRoutes, verb, path);
      if Coherent() && ':' !in verb {
        ReplyIsScan(engine, precompiledRoutes, verb, path);
        FastAfterGood(ByKey(engine), precompiledRoutes, fastCache.cache, fastCache.capacity, fastCache.enabled, cacheKey);
        LruAfterGood(ByKey(engine), precompiledRoutes, lruCache.Abs(), cacheKey, now);
      }
      FastRemembers(fastCache.cache, fastCache.capacity, cacheKey, scan);
      LruRemembers(lruCache.Abs(), cacheKey, now, scan);
      AnswerGivesPath(verb, path);
      ScanIs(engine, precompiledRoutes, verb, path);
      r := MatchDynamic(verb, path, cacheKey, now);
    }

    /** The part of match_route after the static table: a cache, or the scan. */
    method MatchDynamic(verb: string, path: string, cacheKey: string, now: int) returns (r: Option<Match>)
      requires Valid()
      modifies fastCache`cache, lruCache, lruCache.nodes
      ensures Valid() && fresh(lruCache.nodes - old(lruCache.nodes))
      ensures var (c, g) := (old(fastCache.cache), LruSpec.Get(old(lruCache.Abs()), cacheKey, now).1);
              r == if cacheEnabled && useFastCache && fastCache.enabled && cacheKey in c then Some(c[cacheKey])
                   else if cacheEnabled && !useFastCache && g.Some? then g
                   else Scan(engine, precompiledRoutes, verb, path)
      ensures var scan := Scan(engine, precompiledRoutes, verb, path);
              && fastCache.cache == (if cacheEnabled && useFastCache
                                     then FastAfter(old(fastCache.cache), fastCache.capacity, fastCache.enabled, cacheKey, scan)
                                     else old(fastCache.cache))
              && lruCache.Abs() == if cacheEnabled && !useFastCache then LruAfter(old(lruCache.Abs()), cacheKey, now, scan)
                                   else old(lruCache.Abs())
    {
      hide Sorted, ContextLRUCache.Valid, ContextLRUCache.Abs, Scan, FastPut, Statics, AllCompiled, LruSpec.Get, LruSpec.Put;
      if cacheEnabled && useFastCache {
        r := fastCache.Get(cacheKey);
        if r.Some? {
          return;
        }
      } else if cacheEnabled {
        r := lruCache.Get(cacheKey, now);
        if r.Some? {
          return;
        }
      }
      r := ScanRoutes(verb, path);
      if r.Some? && cacheEnabled {
        if useFastCache {
          fastCache.Put(cacheKey, r.value);
        } else {
          lruCache.Put(cacheKey, r.value, now);
        }
      }
    }

    /** The first route of the method whose expression matches answers, with its pattern and named groups. */
    method ScanRoutes(verb: string, path: string) returns (r: Option<Match>)
      ensures r == Scan(engine, precompiledRoutes, verb, path)
      ensures r.Some? <==> exists i :: 0 <= i < |precompiledRoutes|
                                       && precompiledRoutes[i].verb == verb && engine.matches(precompiledRoutes[i].regex, path)
      ensures forall i :: 0 <= i < |precompiledRoutes|
                          && precompiledRoutes[i].verb == verb && engine.matches(precompiledRoutes[i].regex, path)
                          && (forall j :: 0 <= j < i ==> !(precompiledRoutes[j].verb == verb
                                                           && engine.matches(precompiledRoutes[j].regex, path))) ==>
                var x := precompiledRoutes[i];
                r == Some(Match(x.handler, map n | n in x.names :: engine.group(x.regex, path, n), x.pattern))
    {
      hide Scan;
      ScanIs(engine, precompiledRoutes, verb, path);
      r := ScanLoop(verb, path);
    }

    /** The loop of the scan. */
    method ScanLoop(verb: string, path: string) returns (r: Option<Match>)
      ensures r == Scan(engine, precompiledRoutes, verb, path)
    {
      for i := 0 to |precompiledRoutes|
        invariant Scan(engine, precompiledRoutes, verb, path) == Scan(engine, precompiledRoutes[i..], verb, path)
      {
        var route := precompiledRoutes[i];
        if route.verb == verb && engine.matches(route.regex, path) {
          var params := ExtractParams(engine, route.regex, route.names, path);
          return Some(Match(route.handler, params, route.pattern));
        }
      }
      return None;
    }

    // ----- cache controls -----

    /** Only the LRU cache: a wrong answer in the fast cache stays. */
    method ClearCache(now: int)
      requires Valid()
      modifies lruCache, lruCache.nodes
      ensures Valid() && lruCache.nodes == old(lruCache.nodes)
      ensures lruCache.Abs() == LruSpec.Clear(old(lruCache.Abs()), now)
      ensures Coherent() <==> GoodMap(ByKey(engine), precompiledRoutes, fastCache.cache)
    {
      hide Sorted, GoodMap, GoodList, ContextLRUCache.Valid, ContextLRUCache.Abs, Statics, AllCompiled;
      lruCache.Clear(now);
      GoodEmpty(ByKey(engine), precompiledRoutes);
    }

    method ForceCleanupExpired(now: int)
      requires Valid()
      modifies lruCache, lruCache.nodes
      ensures Valid() && lruCache.nodes == old(lruCache.nodes)
      ensures lruCache.Abs() == LruSpec.ForceCleanup(old(lruCache.Abs()), now)
      ensures old(Coherent()) ==> Coherent()
    {
      hide Sorted, GoodMap, GoodList, ContextLRUCache.Valid, ContextLRUCache.Abs, Statics, AllCompiled;
      if Coherent() {
        GoodStep(ByKey(engine), precompiledRoutes, lruCache.Abs(), ForceOp(now));
      }
      lruCache.ForceCleanupExpired(now);
    }

    method SetCacheEnabled(enabled: bool, now: int)
      requires Valid()
      modifies this`cacheEnabled, lruCache, lruCache.nodes
      ensures Valid() && lruCache.nodes == old(lruCache.nodes) && cacheEnabled == enabled
      ensures lruCache.Abs() == if enabled then old(lruCache.Abs()) else LruSpec.Clear(old(lruCache.Abs()), now)
      ensures old(Coherent()) ==> Coherent()
    {
      hide Sorted, GoodMap, GoodList, ContextLRUCache.Valid, ContextLRUCache.Abs, Statics, AllCompiled;
      cacheEnabled := enabled;
      if !enabled {
        ClearCache(now);
      }
    }

    /** Switching sorting on sorts the table: coherent caches stay so if it settles every cached answer. */
    method SetSortEnabled(enabled: bool)
      requires Valid()
      modifies this`sortEnabled, this`precompiledRoutes
      ensures Valid() && sortEnabled == enabled && multiset(precompiledRoutes) == multiset(old(precompiledRoutes))
      ensures !enabled ==> precompiledRoutes == old(precompiledRoutes) && (old(Coherent()) ==> Coherent())
      ensures enabled && Settles(old(precompiledRoutes)) ==> Coherent()
      ensures CachesEmpty() ==> Coherent()
    {
      hide Sorted, GoodMap, GoodList, SettledAll, AllCompiled, ContextLRUCache.Valid, ContextLRUCache.Abs, Statics;
      ghost var all := precompiledRoutes;
      sortEnabled := enabled;
      if enabled {
        SortDynamicRoutes();
      }
      AfterSort(all);
    }

    method SetCacheTtl(seconds: int)
      requires Valid()
      modifies lruCache`ttl
      ensures Valid() && lruCache.Abs() == old(lruCache.Abs()).(ttl := seconds)
      ensures old(Coherent()) ==> Coherent()
    {
      hide Sorted, GoodMap, GoodList, ContextLRUCache.Valid, ContextLRUCache.Abs, Statics, AllCompiled;
      lruCache.SetTtl(seconds);
    }

    /** Sends the requests of the list through the caches, one after the other. */
    method WarmupCache(paths: seq<string>, verb: string, now: int)
      requires Valid()
      modifies fastCache`cache, lruCache, lruCache.nodes
      ensures Valid() && fresh(lruCache.nodes - old(lruCache.nodes))
      ensures old(Coherent()) && ':' !in verb ==> Coherent()
      ensures !cacheEnabled ==> fastCache.cache == old(fastCache.cache) && lruCache.Abs() == old(lruCache.Abs())
      ensures cacheEnabled && useFastCache ==>
                && fastCache.cache == WarmFast(engine, precompiledRoutes, staticRouteResults, old(fastCache.cache),
                                               fastCache.capacity, fastCache.enabled, verb, paths)
                && lruCache.Abs() == old(lruCache.Abs())
      ensures cacheEnabled && !useFastCache ==>
                && lruCache.Abs() == WarmLru(engine, precompiledRoutes, staticRouteResults, old(lruCache.Abs()), now, verb, paths)
                && fastCache.cache == old(fastCache.cache)
    {
      hide *;
      if !cacheEnabled {
        return;
      }
      ghost var (f, l) := (fastCache.cache, lruCache.Abs());
      NothingWarm(engine, precompiledRoutes, staticRouteResults, f, fastCache.capacity, fastCache.enabled, l, now, verb, paths[..0]);
      for i := 0 to |paths|
        invariant Valid() && fresh(lruCache.nodes - old(lruCache.nodes))
        invariant old(Coherent()) && ':' !in verb ==> Coherent()
        invariant fastCache.cache == if useFastCache
                    then WarmFast(engine, precompiledRoutes, staticRouteResults, f, fastCache.capacity, fastCache.enabled, verb, paths[..i])
                    else f
        invariant lruCache.Abs() == if useFastCache then l
                    else WarmLru(engine, precompiledRoutes, staticRouteResults, l, now, verb, paths[..i])
      {
        OneWarmer(engine, precompiledRoutes, staticRouteResults, f, fastCache.capacity, fastCache.enabled, l, now, verb, paths, i);
        var _ := MatchRoute(verb, paths[i], now);
      }
      assert paths[..|paths|] == paths;
    }

    /** With sorting on, a dynamic answer comes from a route of the method whose pattern has the least score
        among all that match. */
    lemma AnswerLeastComplex(verb: string, path: string) returns (i: nat)
      requires Valid() && sortEnabled && Key(verb, path) !in staticRouteResults && Plain(verb, path).Some?
      ensures i < |precompiledRoutes| && Answer(engine, precompiledRoutes[i], verb, path) == Plain(verb, path)
      ensures precompiledRoutes[i].verb == verb && engine.matches(precompiledRoutes[i].regex, path)
      ensures forall j :: 0 <= j < |precompiledRoutes|
                          && precompiledRoutes[j].verb == verb && engine.matches(precompiledRoutes[j].regex, path) ==>
                Complexity.Score(precompiledRoutes[i].handler.path) <= Complexity.Score(precompiledRoutes[j].handler.path)
    {
      hide Scan, Complexity.Score;
      i := LeastComplex(engine, precompiledRoutes, verb, path);
    }
  
    /** A dynamic answer of a route made of whole segments: its parameters, put back into the pattern, give
        the path; and such a route answers exactly the paths that are its pattern with some values. */
    lemma AnswerGivesPath(verb: string, path: string)
      requires AllCompiled(engine, precompiledRoutes)
      ensures var m := Scan(engine, precompiledRoutes, verb, path);
              m.Some? && Faithful(engine) && WholePattern(m.value.path) ==> GivesPath(m.value, path)
    {
      hide Faithful, WholePattern, GivesPath, Scan;
      var m := Scan(engine, precompiledRoutes, verb, path);
      if m.Some? && Faithful(engine) && WholePattern(m.value.path) {
        var i := ScanFirst(engine, precompiledRoutes, verb, path);
        var h := precompiledRoutes[i].handler;
        CompiledExact(engine, h.path, h, path);
      }
    }
  }

  /** A route made of whole segments answers exactly the paths that are its pattern with some parameter values. */
  lemma RouteAnswersExactly<R>(e: Engine<R>, verb: string, h: Handler, path: string)
    requires Faithful(e) && WholePattern(h.path) && e.compileNamed(h.path).Some?
    ensures Answer(e, Compiled(e, verb, h), verb, path).Some?
            <==> exists values :: Values(PatternOf(h.path), values) && Subst(PatternOf(h.path), values) == path
  {
    hide Faithful, WholePattern, PatternOf, Values, Subst;
    CompiledExact(e, h.path, h, path);
  }

  /** Adding a route that sorts before the one that answered leaves a wrong answer in the caches: routes must
      be complete before the first request. */
  lemma SortMakesStale<R>(e: Engine<R>, first: Route<R>, more: Route<R>, verb: string, path: string)
    requires ':' !in verb && first.verb == more.verb == verb && more.complexity < first.complexity
    requires e.matches(first.regex, path) && e.matches(more.regex, path) && first.handler != more.handler
    ensures var m := Scan(e, [first], verb, path);
            && m.Some? && GoodMap(ByKey(e), [first], map[Key(verb, path) := m.value])
            && Sorted([more, first]) && !GoodMap(ByKey(e), [more, first], map[Key(verb, path) := m.value])
  {
    ReplyIsScan(e, [first], verb, path);
    ReplyIsScan(e, [more, first], verb, path);
    var m := Scan(e, [first], verb, path).value;
    var cache := map[Key(verb, path) := m];
    assert Answer(e, first, verb, path).Some? && Answer(e, more, verb, path).Some?;
    assert Scan(e, [more, first], verb, path) == Answer(e, more, verb, path);
    assert !Good(ByKey(e), [more, first], Key(verb, path), cache[Key(verb, path)]);
  }
}
