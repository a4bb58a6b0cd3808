/** Cached answers of a route table (cache.v, fast_router.v, router.v). The table is any list; `at` is what an
    entry answers to the request of a cache key. */
module RouteCaches {
  import opened Options
  import opened LruSpec
  import opened LruProof
  import opened RouteModel
  import opened Settling
  import opened Sorting

  ghost function ForKey<T>(at: (string, T) -> Option<Match>, k: string): T -> Option<Match> {
    (x: T) => at(k, x)
  }

  /** The plain answer to the request of a key. */
  ghost function Reply<T>(at: (string, T) -> Option<Match>, table: seq<T>, k: string): Option<Match> {
    First(table, ForKey(at, k))
  }

  /** What caches may hold: plain answers. */
  ghost predicate Good<T>(at: (string, T) -> Option<Match>, table: seq<T>, k: string, m: Match) {
    Reply(at, table, k) == Some(m)
  }

  ghost predicate GoodMap<T>(at: (string, T) -> Option<Match>, table: seq<T>, cache: map<string, Match>) {
    forall k :: k in cache ==> Good(at, table, k, cache[k])
  }

  ghost predicate GoodList<T>(at: (string, T) -> Option<Match>, table: seq<T>, s: seq<Entry<Match>>) {
    forall k, m :: Bound(s, k, m) ==> Good(at, table, k, m)
  }

  lemma GoodEmpty<T>(at: (string, T) -> Option<Match>, table: seq<T>)
    ensures GoodMap(at, table, map[]) && GoodList(at, table, [])
  {
  }

  // ----- requests -----

  function FastPut(cache: map<string, Match>, capacity: int, k: string, m: Match): map<string, Match> {
    (if |cache| >= capacity then map[] else cache)[k := m]
  }

  lemma FastPutBound(cache: map<string, Match>, capacity: int, k: string, m: Match)
    ensures var most := if capacity < 1 then 1 else capacity;
            |cache| <= most ==> |FastPut(cache, capacity, k, m)| <= most
    ensures k in FastPut(cache, capacity, k, m)
  {
    var c := if |cache| >= capacity then map[] else cache;
    assert c[k := m].Keys == c.Keys + {k};
  }

  /** The fast cache after a request that the scan answers with `scan`. */
  ghost function FastAfter(cache: map<string, Match>, capacity: int, enabled: bool, k: string, scan: Option<Match>): map<string, Match> {
    if !enabled || k in cache || scan.None? then cache else FastPut(cache, capacity, k, scan.value)
  }

  /** The LRU cache after such a request. */
  ghost function LruAfter(c: Cache<Match>, k: string, now: int, scan: Option<Match>): Cache<Match> {
    var (d, g) := LruSpec.Get(c, k, now);
    if g.None? && scan.Some? then LruSpec.Put(d, k, scan.value, now) else d
  }

  /** A request keeps the fast cache right, and a hit is the plain answer. */
  lemma FastAfterGood<T>(at: (string, T) -> Option<Match>, table: seq<T>, cache: map<string, Match>, capacity: int,
                         enabled: bool, k: string)
    requires GoodMap(at, table, cache)
    ensures GoodMap(at, table, FastAfter(cache, capacity, enabled, k, Reply(at, table, k)))
    ensures k in cache ==> Some(cache[k]) == Reply(at, table, k)
  {
    hide Reply;
    assert k in cache ==> Good(at, table, k, cache[k]);
  }

  /** The same for the LRU cache. */
  lemma LruAfterGood<T>(at: (string, T) -> Option<Match>, table: seq<T>, c: Cache<Match>, k: string, now: int)
    requires GoodList(at, table, c.entries)
    ensures GoodList(at, table, LruAfter(c, k, now, Reply(at, table, k)).entries)
    ensures var g := LruSpec.Get(c, k, now).1; g.Some? ==> g == Reply(at, table, k)
  {
    hide Reply, LruSpec.Get, LruSpec.Put, GoodList;
    var (d, g) := LruSpec.Get(c, k, now);
    GoodStep(at, table, c, GetOp(k, now));
    if g.Some? {
      GetIsFresh(c, k, now);
      GoodBound(at, table, c.entries, k, g.value);
    } else if Reply(at, table, k).Some? {
      GoodStep(at, table, d, PutOp(k, Reply(at, table, k).value, now));
    }
  }

  /** After a request that is answered, the cache in use holds the answer. */
  lemma FastRemembers(cache: map<string, Match>, capacity: int, k: string, scan: Option<Match>)
    ensures var (c, r) := (FastAfter(cache, capacity, true, k, scan), if k in cache then Some(cache[k]) else scan);
            r.Some? ==> k in c && c[k] == r.value
  {
  }

  lemma LruRemembers(c: Cache<Match>, k: string, now: int, scan: Option<Match>)
    ensures var g := LruSpec.Get(c, k, now).1;
            var r := if g.Some? then g else scan;
            r.Some? ==> Bound(LruAfter(c, k, now, scan).entries, k, r.value)
  {
    hide Tidy, Evict, Without;
    var d := LruAfter(c, k, now, scan);
    assert LruSpec.Get(c, k, now).1.Some? || scan.Some? ==> d.entries[0].key == k;
  }

  lemma GoodBound<T>(at: (string, T) -> Option<Match>, table: seq<T>, s: seq<Entry<Match>>, k: string, m: Match)
    requires GoodList(at, table, s) && exists i :: 0 <= i < |s| && s[i].key == k && s[i].value == m
    ensures Good(at, table, k, m)
  {
    hide Good;
    assert Bound(s, k, m);
  }

  /** No operation on the LRU cache brings in a wrong answer. */
  lemma GoodStep<T>(at: (string, T) -> Option<Match>, table: seq<T>, c: Cache<Match>, o: Op<Match>)
    requires GoodList(at, table, c.entries) && (o.PutOp? ==> Good(at, table, o.key, o.value))
    ensures GoodList(at, table, Step(c, o).entries)
  {
    hide Step, Bound, Good;
    forall k, m | Bound(Step(c, o).entries, k, m) ensures Good(at, table, k, m) {
      StepBound(c, o, k, m);
    }
  }

  // ----- changes of the table -----

  /** A route added at the end leaves every cached answer right: only successes are cached. */
  lemma GoodAppend<T>(at: (string, T) -> Option<Match>, table: seq<T>, r: T, cache: map<string, Match>, s: seq<Entry<Match>>)
    requires GoodMap(at, table, cache) && GoodList(at, table, s)
    ensures GoodMap(at, table + [r], cache) && GoodList(at, table + [r], s)
  {
    forall k, m | Good(at, table, k, m) ensures Good(at, table + [r], k, m) {
      FirstOf(table, [r], ForKey(at, k));
    }
  }

  /** A route put in at place `i` leaves the answer to the request of `k` as it was. */
  ghost predicate Unaffected<T>(at: (string, T) -> Option<Match>, table: seq<T>, i: nat, r: T, k: string)
    requires i <= |table|
  {
    Reply(at, table[..i], k).Some? || at(k, r) == None || at(k, r) == Reply(at, table[i..], k)
  }

  /** Exactly when a route put in at one place leaves all cached answers right. */
  lemma InsertGood<T>(at: (string, T) -> Option<Match>, table: seq<T>, i: nat, r: T, cache: map<string, Match>, s: seq<Entry<Match>>)
    requires i <= |table| && GoodMap(at, table, cache) && GoodList(at, table, s)
    ensures GoodMap(at, table[..i] + [r] + table[i..], cache) && GoodList(at, table[..i] + [r] + table[i..], s)
            <==> (forall k :: k in cache ==> Unaffected(at, table, i, r, k))
                 && (forall k, m :: Bound(s, k, m) ==> Unaffected(at, table, i, r, k))
  {
    hide First, Bound;
    forall k, m | Good(at, table, k, m)
      ensures Good(at, table[..i] + [r] + table[i..], k, m) <==> Unaffected(at, table, i, r, k)
    {
      InsertExact(table, i, r, ForKey(at, k));
    }
    hide Good, Unaffected;
  }

  /** The cached answers that no order of ties in a sorted table can make wrong. */
  ghost predicate SettledAt<T>(at: (string, T) -> Option<Match>, all: seq<T>, score: T -> int, k: string, m: Match) {
    Settled(all, ForKey(at, k), score, m)
  }

  ghost predicate SettledAll<T>(at: (string, T) -> Option<Match>, all: seq<T>, score: T -> int,
                                cache: map<string, Match>, s: seq<Entry<Match>>)
  {
    && (forall k :: k in cache ==> SettledAt(at, all, score, k, cache[k]))
    && (forall k, m :: Bound(s, k, m) ==> SettledAt(at, all, score, k, m))
  }

  lemma SortGood<T>(at: (string, T) -> Option<Match>, all: seq<T>, score: T -> int, t: seq<T>,
                    cache: map<string, Match>, s: seq<Entry<Match>>)
    requires SettledAll(at, all, score, cache, s) && Ordered(t, score) && multiset(t) == multiset(all)
    ensures GoodMap(at, t, cache) && GoodList(at, t, s)
  {
    hide Ordered, Settled, Bound, First;
    forall k, m | SettledAt(at, all, score, k, m) ensures Good(at, t, k, m) {
      SettledGood(all, ForKey(at, k), score, m, t);
    }
  }

  /** Sorting a table leaves all cached answers right, whatever it does with ties, if and only if for each
      cached request the matching routes of least score all give the cached answer. */
  lemma SortExact<T(!new)>(at: (string, T) -> Option<Match>, all: seq<T>, score: T -> int,
                           cache: map<string, Match>, s: seq<Entry<Match>>)
    ensures (forall t: seq<T> :: Ordered(t, score) && multiset(t) == multiset(all) ==> GoodMap(at, t, cache) && GoodList(at, t, s))
            <==> SettledAll(at, all, score, cache, s)
  {
    hide Ordered, Settled, Bound, First;
    if SettledAll(at, all, score, cache, s) {
      forall t: seq<T> | Ordered(t, score) && multiset(t) == multiset(all) ensures GoodMap(at, t, cache) && GoodList(at, t, s) {
        SortGood(at, all, score, t, cache, s);
      }
    } else if k :| k in cache && !SettledAt(at, all, score, k, cache[k]) {
      var t := UnsettledBad(all, ForKey(at, k), score, cache[k]);
      assert !Good(at, t, k, cache[k]);
    } else {
      var k, m :| Bound(s, k, m) && !SettledAt(at, all, score, k, m);
      var t := UnsettledBad(all, ForKey(at, k), score, m);
      assert !Good(at, t, k, m);
    }
  }
}
