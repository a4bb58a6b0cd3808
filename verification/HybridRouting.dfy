/** ContextHybridRouter of router.v: a memo of compiled patterns, and the LRU cache over a scan of the
    handlers. */
module HybridRouting {
  import opened Options
  import opened RouteCaches
  import opened RouteModel
  import opened RoutePattern
  import opened Settling
  import opened LruCache
  import opened Sorting
  import opened Splitting
  import Complexity

  datatype CompiledRegex<R> = CompiledRegex(regex: R, names: seq<string>, compiled: bool)

  predicate HasDoubleStar(p: string) {
    exists i :: 0 <= i < |p| - 1 && p[i] == '*' && p[i + 1] == '*'
  }

  predicate IsStatic(p: string) {
    ':' !in p && '*' !in p && '?' !in p && '+' !in p
  }

  /** The expression a pattern stands for; a pattern without ':' and '*' has none. */
  ghost function Compile<R>(e: Engine<R>, p: string): Option<CompiledRegex<R>> {
    var r := if HasDoubleStar(p) then e.compileDoubleStar(p)
             else if '*' in p then e.compileStar(p)
             else if ':' in p then e.compileNamed(p)
             else None;
    if r.None? then None
    else Some(CompiledRegex(r.value, if '*' in p then [] else e.names(p), true))
  }

  /** Which of the three expressions: two stars in a row, a star, or named parameters; only the last has names. */
  lemma CompileIs<R>(e: Engine<R>, p: string)
    ensures (exists i :: 0 <= i < |p| - 1 && p[i] == '*' && p[i + 1] == '*') ==>
              Compile(e, p) == if e.compileDoubleStar(p).Some? then Some(CompiledRegex(e.compileDoubleStar(p).value, [], true)) else None
    ensures '*' in p && (forall i :: 0 <= i < |p| - 1 ==> !(p[i] == '*' && p[i + 1] == '*')) ==>
              Compile(e, p) == if e.compileStar(p).Some? then Some(CompiledRegex(e.compileStar(p).value, [], true)) else None
    ensures '*' !in p && ':' in p ==>
              Compile(e, p) == if e.compileNamed(p).Some? then Some(CompiledRegex(e.compileNamed(p).value, e.names(p), true)) else None
    ensures '*' !in p && ':' !in p ==> Compile(e, p) == None
  {
    assert HasDoubleStar(p) ==> '*' in p;
  }

  /** What one handler answers for a path. */
  ghost function HandlerAnswer<R>(e: Engine<R>, h: Handler, path: string): Option<Match> {
    var c := Compile(e, h.path);
    if c.Some? && e.matches(c.value.regex, path)
    then Some(Match(h, ParamsOf(e, c.value.regex, c.value.names, path), h.path))
    else None
  }

  ghost function HandlerAnswering<R>(e: Engine<R>, path: string): Handler -> Option<Match> {
    (h: Handler) => HandlerAnswer(e, h, path)
  }

  /** The plain scan, which does not look at the method. */
  ghost function HandlerScan<R>(e: Engine<R>, handlers: seq<Handler>, path: string): Option<Match> {
    First(handlers, HandlerAnswering(e, path))
  }

  /** The scan in the source's own terms: it answers if and only if the expression of some handler matches, and
      then from the first such handler, with its path and all its named groups. */
  lemma HandlerScanIs<R>(e: Engine<R>, handlers: seq<Handler>, path: string)
    ensures HandlerScan(e, handlers, path).Some?
            <==> exists i :: 0 <= i < |handlers| && Compile(e, handlers[i].path).Some?
                             && e.matches(Compile(e, handlers[i].path).value.regex, path)
    ensures forall i :: 0 <= i < |handlers| && Compile(e, handlers[i].path).Some?
                        && e.matches(Compile(e, handlers[i].path).value.regex, path)
                        && (forall j :: 0 <= j < i && Compile(e, handlers[j].path).Some? ==>
                              !e.matches(Compile(e, handlers[j].path).value.regex, path)) ==>
              var (h, c) := (handlers[i], Compile(e, handlers[i].path).value);
              HandlerScan(e, handlers, path) == Some(Match(h, map n | n in c.names :: e.group(c.regex, path, n), h.path))
  {
    hide First, Compile;
    var f := HandlerAnswering(e, path);
    var k := FirstIs(handlers, f);
    forall j | 0 <= j < |handlers| ensures f(handlers[j]) == HandlerAnswer(e, handlers[j], path) {
    }
    if HandlerScan(e, handlers, path).Some? {
      assert f(handlers[k]).Some?;
      forall j | 0 <= j < k && Compile(e, handlers[j].path).Some? ensures !e.matches(Compile(e, handlers[j].path).value.regex, path) {
        assert f(handlers[j]) == None;
      }
    }
  }

  ghost predicate ByScore(handlers: seq<Handler>) {
    forall i, j :: 0 <= i < j < |handlers| ==> Complexity.Score(handlers[i].path) <= Complexity.Score(handlers[j].path)
  }

  /** The handler that answers has the least complexity score among those whose pattern matches. */
  lemma {:induction false} LeastScore<R>(e: Engine<R>, handlers: seq<Handler>, path: string)
    requires ByScore(handlers)
    ensures var s := HandlerScan(e, handlers, path);
            if s.Some? then
              && s.value.handler in handlers && HandlerAnswer(e, s.value.handler, path) == s
              && forall h :: h in handlers && HandlerAnswer(e, h, path).Some? ==>
                   Complexity.Score(s.value.handler.path) <= Complexity.Score(h.path)
            else forall h :: h in handlers ==> HandlerAnswer(e, h, path) == None
  {
    if handlers != [] {
      LeastScore(e, handlers[1..], path);
      assert handlers == [handlers[0]] + handlers[1..];
    }
  }

  /** What a handler answers to the request of a cache key. */
  ghost function ByPath<R>(e: Engine<R>): (string, Handler) -> Option<Match> {
    (k: string, h: Handler) => HandlerAnswer(e, h, PathOf(k))
  }

  ghost function ScoreOf(): Handler -> int {
    (h: Handler) => Complexity.Score(h.path)
  }

  /** For a method without a colon, the answer to a key is that to the request. */
  lemma ReplyIsScan<R>(e: Engine<R>, handlers: seq<Handler>, verb: string, path: string)
    requires ':' !in verb
    ensures Reply(ByPath(e), handlers, Key(verb, path)) == HandlerScan(e, handlers, path)
  {
    hide First, HandlerAnswer, Key, VerbOf, PathOf;
    KeyTells(verb, path);
    FirstSame(handlers, ForKey(ByPath(e), Key(verb, path)), HandlerAnswering(e, path));
  }

  // ----- patterns of whole segments -----

  lemma {:induction false} SplitHas(text: string, c: char, d: char)
    requires d in text && c != d
    ensures exists x :: x in Split(text, c) && d in x
    decreases |text|
  {
    var n := |text| - 1;
    var r := Split(text[..n], c);
    var t := Split(text, c);
    assert text == text[..n] + [text[n]];
    if text[n] == d {
      assert t[|t| - 1] in t;
    } else {
      SplitHas(text[..n], c, d);
      var x :| x in r && d in x;
      var i :| 0 <= i < |r| && r[i] == x;
      if text[n] == c {
        assert t[i] == x && t[i] in t;
      } else {
        assert t[i] in t && d in t[i];
      }
    }
  }

  /** Such a pattern is compiled with named groups, or not at all. */
  lemma WholeCompiles<R>(e: Engine<R>, text: string)
    requires WholePattern(text) && Compile(e, text).Some?
    ensures e.compileNamed(text).Some?
    ensures Compile(e, text) == Some(CompiledRegex(e.compileNamed(text).value, e.names(text), true))
  {
    NoStar(text);
  }

  lemma NoStar(text: string)
    requires WholePattern(text)
    ensures '*' !in text
  {
    forall x | x in Split(text, '/') ensures '*' !in x {
      NoStarIn(x);
    }
    if '*' in text {
      SplitHas(text, '/', '*');
    }
  }

  lemma NoStarIn(x: string)
    requires WholeSegment(x)
    ensures '*' !in x
  {
    assert x != "" ==> x == [x[0]] + x[1..];
  }

  /** Putting the parameters of an answer back into the pattern gives the path. */
  lemma HandlerGivesPath<R>(e: Engine<R>, handlers: seq<Handler>, path: string)
    ensures var m := HandlerScan(e, handlers, path);
            m.Some? && Faithful(e) && WholePattern(m.value.path) ==> GivesPath(m.value, path)
  {
    hide First, Faithful, WholePattern, GivesPath, Compile;
    var m := HandlerScan(e, handlers, path);
    if m.Some? && Faithful(e) && WholePattern(m.value.path) {
      var i := FirstIs(handlers, HandlerAnswering(e, path));
      assert HandlerAnswering(e, path)(handlers[i]) == HandlerAnswer(e, handlers[i], path);
      WholeCompiles(e, handlers[i].path);
      CompiledExact(e, handlers[i].path, handlers[i], path);
    }
  }

  ghost predicate MemoRight<R>(e: Engine<R>, memo: map<string, CompiledRegex<R>>) {
    forall p :: p in memo ==> Compile(e, p) == Some(memo[p])
  }

  class ContextHybridRouter<R> {
    const engine: Engine<R>
    const cache: ContextLRUCache<Match>
    var staticRoutes: map<string, Handler>
    var dynamicRoutes: seq<Handler>
    var regexCache: map<string, CompiledRegex<R>>

    ghost predicate Valid()
      reads this, cache, cache.list
    {
      cache.Valid() && ByScore(dynamicRoutes) && MemoRight(engine, regexCache)
    }

    ghost predicate Coherent()
      reads this, cache, cache.list
    {
      GoodList(ByPath(engine), dynamicRoutes, cache.Abs().entries)
    }

    /** Sorting the handlers `all` leaves every cached answer right, whatever it does with ties. */
    ghost predicate Settles(all: seq<Handler>)
      reads cache, cache.list
    {
      SettledAll(ByPath(engine), all, ScoreOf(), map[], cache.Abs().entries)
    }

    /** What a request is answered without caches. */
    ghost function Plain(verb: string, path: string): Option<Match>
      reads this
    {
      var k := Key(verb, path);
      if k in staticRoutes then Some(Match(staticRoutes[k], map[], path)) else HandlerScan(engine, dynamicRoutes, path)
    }

    constructor (engine: Engine<R>, now: int)
      ensures Valid() && Coherent() && cache.Abs().entries == [] && fresh(cache) && fresh(cache.nodes)
      ensures staticRoutes == map[] && dynamicRoutes == [] && regexCache == map[]
    {
      this.engine := engine;
      cache := new ContextLRUCache(1000, 3600, now);
      staticRoutes, dynamicRoutes, regexCache := map[], [], map[];
    }

    /** A static route leaves the cache coherent, and so does any other if the table settles every cached
        answer (SortExact: exactly then, over all the orders that the sort may give). */
    method AddRoute(verb: string, handler: Handler)
      requires Valid()
      modifies this`staticRoutes, this`dynamicRoutes
      ensures Valid()
      ensures if ':' !in handler.path && '*' !in handler.path && '?' !in handler.path && '+' !in handler.path
              then staticRoutes == old(staticRoutes)[Key(verb, handler.path) := handler] && dynamicRoutes == old(dynamicRoutes)
              else staticRoutes == old(staticRoutes) && multiset(dynamicRoutes) == multiset(old(dynamicRoutes) + [handler])
      ensures if ':' !in handler.path && '*' !in handler.path && '?' !in handler.path && '+' !in handler.path then old(Coherent()) ==> Coherent()
              else Settles(old(dynamicRoutes) + [handler]) ==> Coherent()
      ensures cache.Abs().entries == [] ==> Coherent()
    {
      hide ByScore, MemoRight, ContextLRUCache.Valid, ContextLRUCache.Abs, GoodList, SettledAll;
      GoodEmpty(ByPath(engine), dynamicRoutes);
      if IsStatic(handler.path) {
        staticRoutes := staticRoutes[Key(verb, handler.path) := handler];
      } else {
        dynamicRoutes := dynamicRoutes + [handler];
        ghost var all := dynamicRoutes;
        SortDynamicRoutes();
        AfterSort(all);
      }
    }

    lemma AfterSort(all: seq<Handler>)
      requires ByScore(dynamicRoutes) && multiset(dynamicRoutes) == multiset(all)
      ensures Settles(all) ==> Coherent()
      ensures cache.Abs().entries == [] ==> Coherent()
    {
      hide GoodList, SettledAll, ContextLRUCache.Abs;
      GoodEmpty(ByPath(engine), dynamicRoutes);
      if Settles(all) {
        SortGood(ByPath(engine), all, ScoreOf(), dynamicRoutes, map[], cache.Abs().entries);
      }
    }

    method SortDynamicRoutes()
      modifies this`dynamicRoutes
      ensures ByScore(dynamicRoutes) && multiset(dynamicRoutes) == multiset(old(dynamicRoutes))
    {
      dynamicRoutes := SortBy(dynamicRoutes, (h: Handler) => Complexity.Score(h.path));
    }

    /** The compiled form of a pattern, from the memo or compiled now, and whether it matches. */
    method MatchPathWithRegex(realPath: string, regPath: string) returns (r: Option<CompiledRegex<R>>)
      requires MemoRight(engine, regexCache)
      modifies this`regexCache
      ensures MemoRight(engine, regexCache)
      ensures r == var c := Compile(engine, regPath); if c.Some? && engine.matches(c.value.regex, realPath) then c else None
      ensures regexCache == var c := Compile(engine, regPath); if c.Some? then old(regexCache)[regPath := c.value] else old(regexCache)
    {
      if regPath in regexCache {
        var cached := regexCache[regPath];
        if cached.compiled {
          assert old(regexCache)[regPath := cached] == old(regexCache);
          return if engine.matches(cached.regex, realPath) then Some(cached) else None;
        }
      }
      if HasDoubleStar(regPath) {
        r := Remember(regPath, engine.compileDoubleStar(regPath), [], realPath);
      } else if '*' in regPath {
        r := Remember(regPath, engine.compileStar(regPath), [], realPath);
      } else if ':' in regPath {
        r := Remember(regPath, engine.compileNamed(regPath), engine.names(regPath), realPath);
      } else {
        r := None;
      }
    }

    method Remember(regPath: string, reg: Option<R>, names: seq<string>, realPath: string) returns (r: Option<CompiledRegex<R>>)
      modifies this`regexCache
      ensures reg.None? ==> r.None? && regexCache == old(regexCache)
      ensures reg.Some? ==>
                var c := CompiledRegex(reg.value, names, true);
                && regexCache == old(regexCache)[regPath := c]
                && r == if engine.matches(reg.value, realPath) then Some(c) else None
    {
      if reg.None? {
        return None;
      }
      var c := CompiledRegex(reg.value, names, true);
      regexCache := regexCache[regPath := c];
      r := if engine.matches(reg.value, realPath) then Some(c) else None;
    }

    method MatchRoute(verb: string, path: string, now: int) returns (r: Option<Match>)
      requires Valid()
      modifies this`regexCache, cache, cache.nodes
      ensures Valid() && fresh(cache.nodes - old(cache.nodes))
      ensures old(Coherent()) && ':' !in verb ==> Coherent() && r == Plain(verb, path)
      // A static route answers with its handler and without parameters.
      ensures Key(verb, path) in staticRoutes ==> r == Some(Match(staticRoutes[Key(verb, path)], map[], path))
      // Any other answer comes from the first handler whose expression matches.
      ensures old(Coherent()) && ':' !in verb && Key(verb, path) !in staticRoutes ==>
                && (r.Some? <==> exists i :: 0 <= i < |dynamicRoutes| && Compile(engine, dynamicRoutes[i].path).Some?
                                             && engine.matches(Compile(engine, dynamicRoutes[i].path).value.regex, path))
                && forall i :: 0 <= i < |dynamicRoutes| && Compile(engine, dynamicRoutes[i].path).Some?
                               && engine.matches(Compile(engine, dynamicRoutes[i].path).value.regex, path)
                               && (forall j :: 0 <= j < i && Compile(engine, dynamicRoutes[j].path).Some? ==>
                                     !engine.matches(Compile(engine, dynamicRoutes[j].path).value.regex, path)) ==>
                     var (h, c) := (dynamicRoutes[i], Compile(engine, dynamicRoutes[i].path).value);
                     r == Some(Match(h, map n | n in c.names :: engine.group(c.regex, path, n), h.path))
      // It is remembered in the cache.
      ensures Key(verb, path) !in staticRoutes && r.Some? ==> LruProof.Bound(cache.Abs().entries, Key(verb, path), r.value)
      ensures old(Coherent()) && ':' !in verb && r.Some? && Key(verb, path) !in staticRoutes ==>
                (Faithful(engine) && WholePattern(r.value.path) ==> GivesPath(r.value, path))
      ensures cache.Abs() == if Key(verb, path) in staticRoutes then old(cache.Abs())
                             else LruAfter(old(cache.Abs()), Key(verb, path), now, HandlerScan(engine, dynamicRoutes, path))
    {
      hide ByScore, MemoRight, GoodList, ContextLRUCache.Valid, ContextLRUCache.Abs, HandlerScan, Reply, Faithful, WholePattern,
        GivesPath, Compile, LruAfter, LruProof.Bound, LruSpec.Get, LruSpec.Put;
      var cacheKey := Key(verb, path);
      if cacheKey in staticRoutes {
        return Some(Match(staticRoutes[cacheKey], map[], path));
      }
      if Coherent() && ':' !in verb {
        ReplyIsScan(engine, dynamicRoutes, verb, path);
        LruAfterGood(ByPath(engine), dynamicRoutes, cache.Abs(), cacheKey, now);
      }
      LruRemembers(cache.Abs(), cacheKey, now, HandlerScan(engine, dynamicRoutes, path));
      HandlerGivesPath(engine, dynamicRoutes, path);
      HandlerScanIs(engine, dynamicRoutes, path);
      r := MatchDynamicRouteWithKey(cacheKey, path, now);
    }

    method MatchDynamicRouteWithKey(cacheKey: string, path: string, now: int) returns (r: Option<Match>)
      requires Valid()
      modifies this`regexCache, cache, cache.nodes
      ensures Valid() && fresh(cache.nodes - old(cache.nodes))
      ensures cache.Abs() == LruAfter(old(cache.Abs()), cacheKey, now, HandlerScan(engine, dynamicRoutes, path))
      ensures r == var g := LruSpec.Get(old(cache.Abs()), cacheKey, now).1; if g.Some? then g else HandlerScan(engine, dynamicRoutes, path)
    {
      hide ByScore, MemoRight, ContextLRUCache.Valid, ContextLRUCache.Abs, LruSpec.Get, LruSpec.Put, HandlerScan;
      r := cache.Get(cacheKey, now);
      if r.Some? {
        return;
      }
      r := ScanHandlers(path);
      if r.Some? {
        cache.Put(cacheKey, r.value, now);
      }
    }

    method ScanHandlers(path: string) returns (r: Option<Match>)
      requires MemoRight(engine, regexCache)
      modifies this`regexCache
      ensures MemoRight(engine, regexCache)
      ensures r == HandlerScan(engine, dynamicRoutes, path)
    {
      hide MemoRight, Compile;
      for i := 0 to |dynamicRoutes|
        invariant MemoRight(engine, regexCache)
        invariant HandlerScan(engine, dynamicRoutes, path) == HandlerScan(engine, dynamicRoutes[i..], path)
      {
        var handler := dynamicRoutes[i];
        var matched := MatchPathWithRegex(path, handler.path);
        if matched.Some? {
          var params := ExtractParams(engine, matched.value.regex, matched.value.names, path);
          return Some(Match(handler, params, handler.path));
        }
      }
      return None;
    }

    method WarmupRegexCache()
      requires Valid()
      modifies this`regexCache
      ensures Valid() && regexCache.Keys >= old(regexCache).Keys
      ensures forall h :: h in dynamicRoutes && (':' in h.path || '*' in h.path) && Compile(engine, h.path).Some? ==>
                h.path in regexCache
    {
      hide ByScore, MemoRight, Compile, ContextLRUCache.Valid;
      for i := 0 to |dynamicRoutes|
        invariant Valid() && regexCache.Keys >= old(regexCache).Keys
        invariant forall h :: h in dynamicRoutes[..i] && (':' in h.path || '*' in h.path) && Compile(engine, h.path).Some? ==>
                    h.path in regexCache
      {
        var handler := dynamicRoutes[i];
        if ':' in handler.path || '*' in handler.path {
          var _ := MatchPathWithRegex("/dummy/path", handler.path);
        }
      }
    }

    method ClearRegexCache()
      requires Valid()
      modifies this`regexCache
      ensures Valid() && regexCache == map[]
    {
      regexCache := map[];
    }

    method ClearCache(now: int)
      requires Valid()
      modifies cache, cache.nodes
      ensures Valid() && cache.nodes == old(cache.nodes) && Coherent()
      ensures cache.Abs() == LruSpec.Clear(old(cache.Abs()), now)
    {
      hide ByScore, MemoRight, ContextLRUCache.Valid, ContextLRUCache.Abs;
      cache.Clear(now);
    }
  }
}
