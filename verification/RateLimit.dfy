/** The fixed-window rate limiter of rate_limit.v.  The mutex makes each call one step; the time of
    each step is an input. */
module RateLimit {
  import opened Options
  import opened VInt

  datatype Entry = Entry(count: int, resetAt: int)

  type Data = map<string, Entry>

  /** MemoryStore.increment: the new data, and the entry it returns. */
  ghost function Incremented(d: Data, key: string, window: int, now: int): (Data, Entry) {
    var e := if key in d && now < d[key].resetAt then Entry(Int32(d[key].count + 1), d[key].resetAt)
             else Entry(1, now + window);
    (d[key := e], e)
  }

  ghost function CleanedUp(d: Data, now: int): Data {
    map k | k in d && now < d[k].resetAt :: d[k]
  }

  class MemoryStore {
    var data: Data

    constructor ()
      ensures data == map[]
    {
      data := map[];
    }

    method Increment(key: string, window: int, now: int) returns (count: int, resetAt: int)
      modifies this
      ensures (data, Entry(count, resetAt)) == Incremented(old(data), key, window, now)
    {
      if key in data {
        var entry := data[key];
        if now >= entry.resetAt {
          entry := entry.(count := 1, resetAt := now + window);
        } else {
          entry := entry.(count := Int32(entry.count + 1));
        }
        data := data[key := entry];
        return entry.count, entry.resetAt;
      }
      var entry := Entry(1, now + window);
      data := data[key := entry];
      return entry.count, entry.resetAt;
    }

    method Reset(key: string)
      modifies this
      ensures data == old(data) - {key}
    {
      data := data - {key};
    }

    method CleanupExpired(now: int)
      modifies this
      ensures data == CleanedUp(old(data), now)
    {
      var doomed := CollectExpired(now);
      for i := 0 to |doomed|
        invariant forall k :: k in data <==> k in old(data) && k !in doomed[..i]
        invariant forall k :: k in data ==> data[k] == old(data)[k]
      {
        data := data - {doomed[i]};
      }
    }

    method CollectExpired(now: int) returns (doomed: seq<string>)
      ensures forall k :: k in doomed <==> k in data && now >= data[k].resetAt
    {
      doomed := [];
      var rest := data.Keys;
      while rest != {}
        invariant rest <= data.Keys
        invariant forall k :: k in doomed <==> k in data && k !in rest && now >= data[k].resetAt
        decreases |rest|
      {
        var key :| key in rest;
        if now >= data[key].resetAt {
          doomed := doomed + [key];
        }
        rest := rest - {key};
      }
    }

    /** The decision of the middleware, and the number of requests it reports as remaining. */
    method Admit(key: string, window: int, limit: int, now: int) returns (admitted: bool, remaining: int)
      modifies this
      ensures data == Incremented(old(data), key, window, now).0
      ensures var e := Incremented(old(data), key, window, now).1;
              (admitted <==> e.count <= limit) && remaining == (if admitted then limit - e.count else 0)
    {
      var count, resetAt := Increment(key, window, now);
      remaining := if count > limit then 0 else limit - count;
      admitted := !(count > limit);
    }
  }

  // ----- whole runs -----

  datatype Event = Request(key: string, now: int) | Cleanup(now: int) | Reset(key: string, now: int)

  ghost function Step(w: int, d: Data, e: Event): Data {
    match e
    case Request(k, now) => Incremented(d, k, w, now).0
    case Cleanup(now) => CleanedUp(d, now)
    case Reset(k, _) => d - {k}
  }

  ghost function Run(w: int, evs: seq<Event>): Data {
    if evs == [] then map[] else Step(w, Run(w, evs[..|evs| - 1]), evs[|evs| - 1])
  }

  ghost function Last(evs: seq<Event>): int
    requires evs != []
  {
    evs[|evs| - 1].now
  }

  /** The clock does not go back. */
  ghost predicate Timely(evs: seq<Event>) {
    forall i, j :: 0 <= i < j < |evs| ==> evs[i].now <= evs[j].now
  }

  /** The entry returned for the last event, a request. */
  ghost function Returned(w: int, evs: seq<Event>): Entry
    requires evs != [] && evs[|evs| - 1].Request?
  {
    var e := evs[|evs| - 1];
    Incremented(Run(w, evs[..|evs| - 1]), e.key, w, e.now).1
  }

  // ----- cleaning up changes nothing -----

  ghost function WithoutCleanups(evs: seq<Event>): seq<Event> {
    if evs == [] then []
    else
      var r, e := WithoutCleanups(evs[..|evs| - 1]), evs[|evs| - 1];
      if e.Cleanup? then r else r + [e]
  }

  /** The two stores cannot be told apart from time `now` on. */
  ghost predicate Alike(a: Data, b: Data, now: int) {
    forall k :: AlikeAt(a, b, k, now)
  }

  ghost predicate AlikeAt(a: Data, b: Data, k: string, now: int) {
    || (k in a && k in b && a[k] == b[k])
    || ((k !in a || a[k].resetAt <= now) && (k !in b || b[k].resetAt <= now))
  }

  lemma AlikeStep(w: int, a: Data, b: Data, e: Event)
    requires Alike(a, b, e.now)
    ensures Alike(Step(w, a, e), if e.Cleanup? then b else Step(w, b, e), e.now)
  {
    var c, d := Step(w, a, e), if e.Cleanup? then b else Step(w, b, e);
    forall k ensures AlikeAt(c, d, k, e.now) {
      assert AlikeAt(a, b, k, e.now);
      if e.Request? {
        assert AlikeAt(a, b, e.key, e.now);
      }
    }
  }

  lemma AlikeLater(a: Data, b: Data, before: int, now: int)
    requires Alike(a, b, before) && before <= now
    ensures Alike(a, b, now)
  {
    forall k ensures AlikeAt(a, b, k, now) {
      assert AlikeAt(a, b, k, before);
    }
  }

  lemma {:induction false} CleanupsAlike(w: int, evs: seq<Event>, now: int)
    requires Timely(evs) && (evs != [] ==> Last(evs) <= now)
    ensures Alike(Run(w, evs), Run(w, WithoutCleanups(evs)), now)
  {
    hide Alike, Step;
    if evs == [] {
      NothingAlike(now);
    } else {
      var before, e := evs[..|evs| - 1], evs[|evs| - 1];
      CleanupsAlike(w, before, e.now);
      AlikeStep(w, Run(w, before), Run(w, WithoutCleanups(before)), e);
      if !e.Cleanup? {
        var c := WithoutCleanups(before);
        assert (c + [e])[..|c|] == c;
      }
      AlikeLater(Run(w, evs), Run(w, WithoutCleanups(evs)), e.now, now);
    }
  }

  lemma NothingAlike(now: int)
    ensures Alike(map[], map[], now)
  {
  }

  /** Whatever clean-ups are interleaved, every request gets the same count and reset time. */
  lemma CleanupInvisible(w: int, evs: seq<Event>, key: string, now: int)
    requires Timely(evs) && (evs != [] ==> Last(evs) <= now)
    ensures Incremented(Run(w, evs), key, w, now).1 == Incremented(Run(w, WithoutCleanups(evs)), key, w, now).1
  {
    CleanupsAlike(w, evs, now);
    assert AlikeAt(Run(w, evs), Run(w, WithoutCleanups(evs)), key, now);
  }

  // ----- the windows -----

  /** The last request of the key since it was last reset. */
  ghost function LastRequest(evs: seq<Event>, key: string): (r: Option<nat>)
    ensures r.Some? ==> r.value < |evs| && evs[r.value].Request? && evs[r.value].key == key
  {
    if evs == [] then None
    else
      var e := evs[|evs| - 1];
      if e.Request? && e.key == key then Some(|evs| - 1)
      else if e.Reset? && e.key == key then None
      else LastRequest(evs[..|evs| - 1], key)
  }

  /** The store holds what the last request got, unless its window is over. */
  ghost predicate HoldsLast(w: int, evs: seq<Event>, key: string, now: int) {
    var (d, l) := (Run(w, evs), LastRequest(evs, key));
    if l.None? then key !in d
    else
      var e := Returned(w, evs[..l.value + 1]);
      (key in d && d[key] == e) || (key !in d && e.resetAt <= now)
  }

  lemma {:induction false} StoreHolds(w: int, evs: seq<Event>, key: string, now: int)
    requires Timely(evs) && (evs != [] ==> Last(evs) <= now)
    ensures HoldsLast(w, evs, key, now)
  {
    if evs != [] {
      var (before, e) := (evs[..|evs| - 1], evs[|evs| - 1]);
      StoreHolds(w, before, key, e.now);
      hide HoldsLast, Run;
      if e.Request? && e.key == key {
        HoldsRequest(w, evs, now);
      } else {
        HoldsOther(w, evs, key, now);
      }
    }
  }

  lemma HoldsRequest(w: int, evs: seq<Event>, now: int)
    requires evs != [] && evs[|evs| - 1].Request?
    ensures HoldsLast(w, evs, evs[|evs| - 1].key, now)
  {
    LastStep(w, evs);
    hide Run;
    assert evs[..|evs|] == evs;
  }

  lemma HoldsOther(w: int, evs: seq<Event>, key: string, now: int)
    requires evs != [] && HoldsLast(w, evs[..|evs| - 1], key, evs[|evs| - 1].now) && Last(evs) <= now
    requires !(evs[|evs| - 1].Request? && evs[|evs| - 1].key == key)
    ensures HoldsLast(w, evs, key, now)
  {
    LastStep(w, evs);
    hide Run, Returned;
    var l := LastRequest(evs, key);
    if l.Some? {
      assert evs[..l.value + 1] == evs[..|evs| - 1][..l.value + 1];
    }
  }

  /** What every request gets, over whole runs and whatever cleanups there are: the next number in the window of
      the last request of the key, while that lasts, and otherwise number one in a new window from now on. */
  lemma WindowRule(w: int, evs: seq<Event>)
    requires Timely(evs) && evs != [] && evs[|evs| - 1].Request?
    ensures var (before, e) := (evs[..|evs| - 1], evs[|evs| - 1]);
            var l := LastRequest(before, e.key);
            if l.Some? && e.now < Returned(w, before[..l.value + 1]).resetAt
            then Returned(w, evs) == Entry(Int32(Returned(w, before[..l.value + 1]).count + 1), Returned(w, before[..l.value + 1]).resetAt)
            else Returned(w, evs) == Entry(1, e.now + w)
  {
    var (before, e) := (evs[..|evs| - 1], evs[|evs| - 1]);
    StoreHolds(w, before, e.key, e.now);
    hide Run;
  }

  // ----- how many are admitted -----

  ghost predicate NeverReset(evs: seq<Event>, key: string) {
    forall i :: 0 <= i < |evs| && evs[i].Reset? ==> evs[i].key != key
  }

  /** Is the last event a request of `key` that is counted in the window that ends at `r`? */
  ghost predicate InWindow(w: int, evs: seq<Event>, key: string, r: int)
    requires evs != []
  {
    var e := evs[|evs| - 1];
    e.Request? && e.key == key && Returned(w, evs).resetAt == r
  }

  ghost predicate Admitted(w: int, limit: int, evs: seq<Event>)
    requires evs != [] && evs[|evs| - 1].Request?
  {
    Returned(w, evs).count <= limit
  }

  /** Requests of `key` in the window that ends at `r`. */
  ghost function Requests(w: int, evs: seq<Event>, key: string, r: int): nat {
    if evs == [] then 0
    else Requests(w, evs[..|evs| - 1], key, r) + if InWindow(w, evs, key, r) then 1 else 0
  }

  /** Those of them that are admitted. */
  ghost function WindowAdmits(w: int, limit: int, evs: seq<Event>, key: string, r: int): nat {
    if evs == [] then 0
    else WindowAdmits(w, limit, evs[..|evs| - 1], key, r)
         + if InWindow(w, evs, key, r) && Admitted(w, limit, evs) then 1 else 0
  }

  /** Requests of `key` admitted at a time in [a, b). */
  ghost function Admits(w: int, limit: int, evs: seq<Event>, key: string, a: int, b: int): nat {
    if evs == [] then 0
    else
      var e := evs[|evs| - 1];
      Admits(w, limit, evs[..|evs| - 1], key, a, b)
      + if e.Request? && e.key == key && a <= e.now < b && Admitted(w, limit, evs) then 1 else 0
  }

  ghost predicate NoCleanups(evs: seq<Event>) {
    forall i :: 0 <= i < |evs| ==> !evs[i].Cleanup?
  }

  function Cap(limit: int): nat {
    if limit < 0 then 0 else limit
  }

  /** How many of the first `n` requests of a window are let through, given that the count wraps. */
  ghost function Let(n: nat, limit: int): nat {
    if n == 0 then 0 else Let(n - 1, limit) + if Int32(n) <= limit then 1 else 0
  }

  lemma {:induction false} LetIs(n: nat, limit: int)
    requires -0x8000_0000 <= limit <= MAX_INT
    ensures n <= MAX_INT ==> Let(n, limit) == if n <= Cap(limit) then n else Cap(limit)
    ensures n == MAX_INT + 1 ==> Let(n, limit) == Cap(limit) + 1
    ensures n > MAX_INT ==> Let(n, limit) > Cap(limit)
  {
    if n > 0 {
      LetIs(n - 1, limit);
      assert n == MAX_INT + 1 ==> Int32(n) == -0x8000_0000;
    }
  }

  /** The count in the store is the number of requests in the current window, as far as an `int` goes;
      and in every window, what is admitted follows from the number of requests alone. */
  lemma {:induction false} WindowCounts(w: int, limit: int, evs: seq<Event>, key: string, r: int)
    requires 0 < w && Timely(evs) && NoCleanups(evs) && NeverReset(evs, key)
    ensures WindowAdmits(w, limit, evs, key, r) == Let(Requests(w, evs, key, r), limit)
    ensures Counted(w, evs, key, r)
  {
    if evs != [] {
      var before, e := evs[..|evs| - 1], evs[|evs| - 1];
      WindowCounts(w, limit, before, key, r);
      if e.Request? && e.key == key {
        WindowCounts(w, limit, before, key, Returned(w, evs).resetAt);
        CountedRequest(w, evs, key, r);
        Int32Next(Requests(w, before, key, r));
      } else {
        CountedOther(w, evs, key, r);
      }
    }
  }

  lemma CountedOther(w: int, evs: seq<Event>, key: string, r: int)
    requires evs != [] && Counted(w, evs[..|evs| - 1], key, r) && Timely(evs) && NoCleanups(evs) && NeverReset(evs, key)
    requires var e := evs[|evs| - 1]; !(e.Request? && e.key == key)
    ensures Counted(w, evs, key, r)
  {
    var before := evs[..|evs| - 1];
    var d, t := Run(w, before), Run(w, evs);
    assert key in d <==> key in t;
    if key in d {
      assert d[key] == t[key];
      assert Requests(w, evs, key, d[key].resetAt) == Requests(w, before, key, d[key].resetAt);
    }
  }

  lemma CountedRequest(w: int, evs: seq<Event>, key: string, r: int)
    requires 0 < w && evs != [] && evs[|evs| - 1].Request? && evs[|evs| - 1].key == key && Timely(evs)
    requires Counted(w, evs[..|evs| - 1], key, r) && Counted(w, evs[..|evs| - 1], key, Returned(w, evs).resetAt)
    ensures Counted(w, evs, key, r)
    ensures InWindow(w, evs, key, r) ==> Returned(w, evs).count == Int32(Requests(w, evs[..|evs| - 1], key, r) + 1)
  {
    var before, e, rr := evs[..|evs| - 1], evs[|evs| - 1], Returned(w, evs).resetAt;
    var d := Run(w, before);
    hide Run, Timely;
    if key in d && e.now < d[key].resetAt {
      Int32Next(Requests(w, before, key, rr));
    } else {
      assert Requests(w, before, key, rr) == 0;
    }
    LastStep(w, evs);
    assert Requests(w, evs, key, rr) == Requests(w, before, key, rr) + 1;
  }

  lemma LastStep(w: int, evs: seq<Event>)
    requires evs != []
    ensures Run(w, evs) == Step(w, Run(w, evs[..|evs| - 1]), evs[|evs| - 1])
  {
  }

  ghost predicate Counted(w: int, evs: seq<Event>, key: string, r: int) {
    var d := Run(w, evs);
    if key in d then
      && evs != [] && d[key].resetAt - w <= Last(evs)
      && d[key].count == Int32(Requests(w, evs, key, d[key].resetAt))
      && (r > d[key].resetAt ==> Requests(w, evs, key, r) == 0)
    else
      Requests(w, evs, key, r) == 0
  }

  lemma {:induction false} SameWithoutCleanups(w: int, limit: int, evs: seq<Event>, key: string, r: int, a: int, b: int)
    requires Timely(evs)
    ensures var c := WithoutCleanups(evs);
            && Requests(w, evs, key, r) == Requests(w, c, key, r)
            && WindowAdmits(w, limit, evs, key, r) == WindowAdmits(w, limit, c, key, r)
            && Admits(w, limit, evs, key, a, b) == Admits(w, limit, c, key, a, b)
  {
    hide Run, Step, Incremented, CleanedUp;
    if evs != [] {
      var before, e := evs[..|evs| - 1], evs[|evs| - 1];
      SameWithoutCleanups(w, limit, before, key, r, a, b);
      if !e.Cleanup? {
        SameReturned(w, evs);
      }
    }
  }

  /** A request is answered the same without the cleanups before it. */
  lemma SameReturned(w: int, evs: seq<Event>)
    requires evs != [] && Timely(evs) && !evs[|evs| - 1].Cleanup?
    ensures var (c, e) := (WithoutCleanups(evs), evs[|evs| - 1]);
            && c != [] && c[|c| - 1] == e && c[..|c| - 1] == WithoutCleanups(evs[..|evs| - 1])
            && (e.Request? ==> Returned(w, c) == Returned(w, evs))
  {
    hide Run, Step, Incremented, CleanedUp;
    var before, e := evs[..|evs| - 1], evs[|evs| - 1];
    var c := WithoutCleanups(before);
    assert (c + [e])[..|c|] == c;
    if e.Request? {
      CleanupInvisible(w, before, e.key, e.now);
    }
  }

  lemma {:induction false} WithoutCleanupsFrom(evs: seq<Event>)
    requires Timely(evs)
    ensures var c := WithoutCleanups(evs);
            && Timely(c) && NoCleanups(c) && |c| <= |evs|
            && (forall key :: NeverReset(evs, key) ==> NeverReset(c, key))
            && (c != [] ==> Last(c) <= Last(evs))
  {
    if evs != [] {
      var before, e := evs[..|evs| - 1], evs[|evs| - 1];
      WithoutCleanupsFrom(before);
      var c := WithoutCleanups(before);
      if c != [] {
        assert forall i :: 0 <= i < |c| ==> c[i].now <= Last(c);
      }
      forall key | NeverReset(evs, key) ensures NeverReset(WithoutCleanups(evs), key) {
        assert NeverReset(before, key);
      }
    }
  }

  /** A window admits at most `limit` requests if and only if it sees no more than 2^31 - 1 of them. */
  lemma WindowExact(w: int, limit: int, evs: seq<Event>, key: string, r: int)
    requires 0 < w && -0x8000_0000 <= limit <= MAX_INT && Timely(evs) && NeverReset(evs, key)
    ensures WindowAdmits(w, limit, evs, key, r) <= Cap(limit) <==> Requests(w, evs, key, r) <= MAX_INT
  {
    WithoutCleanupsFrom(evs);
    SameWithoutCleanups(w, limit, evs, key, r, 0, 0);
    WindowCounts(w, limit, WithoutCleanups(evs), key, r);
    LetIs(Requests(w, evs, key, r), limit);
  }

  /** `n` requests at one time. */
  ghost function Burst(key: string, now: int, n: nat): (evs: seq<Event>)
    ensures |evs| == n
  {
    seq(n, i => Request(key, now))
  }

  ghost function BurstData(w: int, key: string, now: int, n: nat): Data {
    if n == 0 then map[] else map[key := Entry(Int32(n), now + w)]
  }

  lemma NoBurst(w: int, key: string, now: int)
    ensures BurstData(w, key, now, 0) == map[]
  {
  }

  lemma BurstNext(w: int, key: string, now: int, n: nat)
    requires 0 < w
    ensures Incremented(BurstData(w, key, now, n), key, w, now) == (BurstData(w, key, now, n + 1), Entry(Int32(n + 1), now + w))
  {
    assert Int32(1) == 1;
    hide Int32;
    Int32Next(n);
    assert Incremented(BurstData(w, key, now, n), key, w, now).0 == BurstData(w, key, now, n + 1);
  }

  lemma {:induction false} BurstCounts(w: int, key: string, now: int, n: nat)
    requires 0 < w
    ensures Run(w, Burst(key, now, n)) == BurstData(w, key, now, n) && Requests(w, Burst(key, now, n), key, now + w) == n
  {
    hide BurstData, Incremented;
    if n == 0 {
      NoBurst(w, key, now);
    } else {
      var evs := Burst(key, now, n);
      assert evs[..n - 1] == Burst(key, now, n - 1);
      BurstCounts(w, key, now, n - 1);
      BurstNext(w, key, now, n - 1);
      LastStep(w, evs);
      assert evs[n - 1] == Request(key, now);
      assert Returned(w, evs) == Entry(Int32(n), now + w);
    }
  }

  /** The input that fails: of 2^31 requests at one time, one more than the limit is let through. */
  lemma BurstBreaksLimit(w: int, limit: int, key: string, now: int)
    requires 0 < w && -0x8000_0000 <= limit <= MAX_INT
    ensures var evs := Burst(key, now, MAX_INT + 1);
            Timely(evs) && NeverReset(evs, key) && WindowAdmits(w, limit, evs, key, now + w) == Cap(limit) + 1
  {
    hide Run, Requests, WindowAdmits, Counted, Let, Int32;
    var evs := Burst(key, now, MAX_INT + 1);
    BurstCounts(w, key, now, MAX_INT + 1);
    WindowCounts(w, limit, evs, key, now + w);
    LetIs(MAX_INT + 1, limit);
  }

  // ----- any interval as long as the window -----

  /** What the interval [a, a + w) has admitted so far, by where the current window started: it comes out of
      that window, out of that and the one that ended at `p`, or out of those that ended at `p` and `q`. */
  ghost predicate IntervalOk(w: int, limit: int, evs: seq<Event>, key: string, a: int, p: int, q: int) {
    var d := Run(w, evs);
    var n := Admits(w, limit, evs, key, a, a + w);
    && (evs == [] || key !in d || Last(evs) < a ==> n == 0)
    && (key in d ==>
          var s, m := d[key].resetAt - w, WindowAdmits(w, limit, evs, key, d[key].resetAt);
          && (s < a ==> n <= m)
          && (a <= s < a + w ==> p <= s && n <= WindowAdmits(w, limit, evs, key, p) + m)
          && (a + w <= s ==> p + w <= q && n <= WindowAdmits(w, limit, evs, key, p) + WindowAdmits(w, limit, evs, key, q)))
  }

  lemma {:induction false} IntervalStep(w: int, limit: int, evs: seq<Event>, key: string, a: int) returns (p: int, q: int)
    requires 0 < w && Timely(evs) && NoCleanups(evs) && NeverReset(evs, key)
    ensures IntervalOk(w, limit, evs, key, a, p, q)
  {
    p, q := 0, 0;
    if evs != [] {
      var before, e := evs[..|evs| - 1], evs[|evs| - 1];
      p, q := IntervalStep(w, limit, before, key, a);
      if e.Request? && e.key == key {
        WindowCounts(w, limit, before, key, Returned(w, evs).resetAt);
        p, q := IntervalRequest(w, limit, evs, key, a, p, q);
      } else {
        IntervalOther(w, limit, evs, key, a, p, q);
      }
    }
  }

  lemma IntervalOther(w: int, limit: int, evs: seq<Event>, key: string, a: int, p: int, q: int)
    requires evs != [] && IntervalOk(w, limit, evs[..|evs| - 1], key, a, p, q)
    requires NoCleanups(evs) && NeverReset(evs, key) && Timely(evs)
    requires var e := evs[|evs| - 1]; !(e.Request? && e.key == key)
    ensures IntervalOk(w, limit, evs, key, a, p, q)
  {
    var before, e := evs[..|evs| - 1], evs[|evs| - 1];
    var d, t := Run(w, before), Run(w, evs);
    assert key in d <==> key in t;
    assert key in d ==> d[key] == t[key];
    assert before != [] ==> Last(before) <= Last(evs);
    hide Run, Timely;
  }

  lemma IntervalRequest(w: int, limit: int, evs: seq<Event>, key: string, a: int, p: int, q: int) returns (x: int, y: int)
    requires 0 < w && evs != [] && evs[|evs| - 1].Request? && evs[|evs| - 1].key == key && Timely(evs)
    requires IntervalOk(w, limit, evs[..|evs| - 1], key, a, p, q) && Counted(w, evs[..|evs| - 1], key, Returned(w, evs).resetAt)
    ensures IntervalOk(w, limit, evs, key, a, x, y)
  {
    var before, now := evs[..|evs| - 1], evs[|evs| - 1].now;
    var d := Run(w, before);
    LastStep(w, evs);
    assert before != [] ==> Last(before) <= now;
    hide Run, Timely, Requests, Cap;
    if key !in d {
      x, y := now, now + w;
    } else {
      var r := d[key].resetAt;
      if now < r || a + w <= r - w {
        x, y := p, q;
      } else if r - w < a {
        x, y := r, r + w;
      } else {
        x, y := p, r;
      }
    }
  }

  /** Whatever an interval as long as the window admits, two windows, one after the other, admit together, for
      every run: at most twice the limit, unless the count of one of the two wraps round. */
  lemma IntervalBound(w: int, limit: int, evs: seq<Event>, key: string, a: int) returns (p: int, q: int)
    requires 0 < w && Timely(evs) && NeverReset(evs, key)
    ensures p + w <= q
    ensures Admits(w, limit, evs, key, a, a + w) <= Let(Requests(w, evs, key, p), limit) + Let(Requests(w, evs, key, q), limit)
    ensures -0x8000_0000 <= limit <= MAX_INT && Requests(w, evs, key, p) <= MAX_INT && Requests(w, evs, key, q) <= MAX_INT ==>
              Admits(w, limit, evs, key, a, a + w) <= 2 * Cap(limit)
  {
    var c := WithoutCleanups(evs);
    WithoutCleanupsFrom(evs);
    p, q := IntervalStep(w, limit, c, key, a);
    var d := Run(w, c);
    if key !in d {
      p, q := 0, w;
    } else {
      var r := d[key].resetAt;
      if r - w < a {
        p, q := r, r + w;
      } else if r - w < a + w {
        q := r;
      }
    }
    SameWithoutCleanups(w, limit, evs, key, p, a, a + w);
    SameWithoutCleanups(w, limit, evs, key, q, a, a + w);
    WindowCounts(w, limit, c, key, p);
    WindowCounts(w, limit, c, key, q);
    if -0x8000_0000 <= limit <= MAX_INT {
      LetIs(Requests(w, evs, key, p), limit);
      LetIs(Requests(w, evs, key, q), limit);
    }
  }
}
