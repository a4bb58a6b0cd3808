/** Properties of every run of the LRU cache. */
module LruProof {
  import opened Options
  import opened LruSpec

  datatype Op<V> =
    | GetOp(key: string, now: int)
    | PutOp(key: string, value: V, now: int)
    | ForceOp(now: int)
    | ClearOp(now: int)
    | TtlOp(ttl: int, now: int)
    | IntervalOp(interval: int, now: int)

  ghost function Step<V>(c: Cache<V>, o: Op<V>): Cache<V> {
    match o
    case GetOp(k, now) => Get(c, k, now).0
    case PutOp(k, v, now) => Put(c, k, v, now)
    case ForceOp(now) => ForceCleanup(c, now)
    case ClearOp(now) => Clear(c, now)
    case TtlOp(ttl, _) => c.(ttl := ttl)
    case IntervalOp(interval, _) => c.(interval := interval)
  }

  ghost function Start<V>(capacity: int, ttl: int, now: int): Cache<V> {
    Cache([], capacity, ttl, now, 300)
  }

  ghost function Run<V>(c: Cache<V>, ops: seq<Op<V>>): Cache<V> {
    if ops == [] then c else Step(Run(c, ops[..|ops| - 1]), ops[|ops| - 1])
  }

  /** The time of the last operation; the clock never goes back. */
  ghost function Time<V>(ops: seq<Op<V>>, start: int): int {
    if ops == [] then start else ops[|ops| - 1].now
  }

  ghost predicate Timely<V>(ops: seq<Op<V>>, start: int) {
    ops != [] ==> Timely(ops[..|ops| - 1], start) && Time(ops[..|ops| - 1], start) <= ops[|ops| - 1].now
  }

  // ----- entries of the results -----

  /** `t` is what is left of `s` after some entries have gone; `f` says where each came from. */
  ghost predicate Selects<V>(f: seq<nat>, t: seq<Entry<V>>, s: seq<Entry<V>>) {
    && |f| == |t|
    && (forall i, j :: 0 <= i < j < |f| ==> f[i] < f[j])
    && (forall i :: 0 <= i < |f| ==> f[i] < |s| && t[i] == s[f[i]])
  }

  lemma {:induction false} KeptPart<V>(s: seq<Entry<V>>, ttl: int, now: int) returns (f: seq<nat>)
    ensures Selects(f, Kept(s, ttl, now), s)
  {
    if s == [] {
      f := [];
    } else {
      var n := |s| - 1;
      f := KeptPart(s[..n], ttl, now);
      hide Kept, Expired;
      KeptLast(s, ttl, now);
      if !(Expired(s[n], ttl, now) && s[n].key != "") {
        f := f + [n];
      }
    }
  }

  lemma KeptLast<V>(s: seq<Entry<V>>, ttl: int, now: int)
    requires s != []
    ensures var (n, r) := (|s| - 1, Kept(s[..|s| - 1], ttl, now));
            Kept(s, ttl, now) == if Expired(s[n], ttl, now) && s[n].key != "" then r else r + [s[n]]
  {
  }

  lemma WithoutPart<V>(s: seq<Entry<V>>, i: nat) returns (f: seq<nat>)
    requires i < |s|
    ensures Selects(f, Without(s, i), s)
  {
    f := seq(|s| - 1, j requires 0 <= j < |s| - 1 => if j < i then j else j + 1);
  }

  lemma SamePart<V>(s: seq<Entry<V>>) returns (f: seq<nat>)
    ensures Selects(f, s, s)
  {
    f := seq(|s|, j requires 0 <= j < |s| => j);
  }

  lemma TidyPart<V>(c: Cache<V>, now: int) returns (f: seq<nat>)
    ensures Selects(f, Tidy(c, now).entries, c.entries)
  {
    if now - c.lastCleanup > c.interval {
      f := KeptPart(c.entries, c.ttl, now);
    } else {
      f := SamePart(c.entries);
    }
  }

  lemma DropPart<V>(s: seq<Entry<V>>, i: nat) returns (f: seq<nat>)
    requires i < |s|
    ensures Selects(f, Drop(s, i), s)
  {
    if s[i].key == "" {
      f := SamePart(s);
    } else {
      f := WithoutPart(s, i);
    }
  }

  // ----- recency order -----

  /** Most recently used first, and nothing used later than `now`. */
  ghost predicate Recent<V>(s: seq<Entry<V>>, now: int) {
    && (forall i, j :: 0 <= i < j < |s| ==> s[i].lastAccess >= s[j].lastAccess)
    && (forall i :: 0 <= i < |s| ==> s[i].lastAccess <= now)
  }

  lemma PartRecent<V>(f: seq<nat>, t: seq<Entry<V>>, s: seq<Entry<V>>, now: int)
    requires Selects(f, t, s)
    ensures Recent(s, now) ==> Recent(t, now)
    ensures Distinct(s) ==> Distinct(t)
    ensures |t| <= |s|
    ensures forall k :: Has(t, k) ==> Has(s, k)
  {
    if t != [] {
      PartLength(f, |f| - 1);
    }
    forall k | Has(t, k) ensures Has(s, k) {
      var i :| 0 <= i < |t| && t[i].key == k;
      assert s[f[i]].key == k;
    }
  }

  lemma {:induction false} PartLength(f: seq<nat>, i: nat)
    requires i < |f| && forall i, j :: 0 <= i < j < |f| ==> f[i] < f[j]
    ensures f[i] >= i
  {
    if i > 0 {
      PartLength(f, i - 1);
    }
  }

  /** What every operation keeps: distinct keys, and, while the clock does not go back, recency order. */
  ghost predicate Ok<V>(c: Cache<V>, now: int) {
    Distinct(c.entries) && Recent(c.entries, now)
  }

  lemma TidyOk<V>(c: Cache<V>, now: int)
    requires Ok(c, now)
    ensures Ok(Tidy(c, now), now) && |Tidy(c, now).entries| <= |c.entries|
    ensures forall k :: Has(Tidy(c, now).entries, k) ==> Has(c.entries, k)
  {
    var f := TidyPart(c, now);
    PartRecent(f, Tidy(c, now).entries, c.entries, now);
  }

  lemma TouchOk<V>(s: seq<Entry<V>>, i: nat, v: V, now: int)
    requires i < |s| && Distinct(s) && Recent(s, now)
    ensures Distinct(Touch(s, i, v, now)) && Recent(Touch(s, i, v, now), now) && |Touch(s, i, v, now)| == |s|
    ensures forall k :: Has(Touch(s, i, v, now), k) ==> Has(s, k)
  {
    var w := Without(s, i);
    var f := WithoutPart(s, i);
    PartRecent(f, w, s, now);
    forall j | 0 <= j < |w| ensures w[j].key != s[i].key {
      assert w[j] == s[if j < i then j else j + 1];
    }
    forall k | Has(Touch(s, i, v, now), k) ensures Has(s, k) {
      var j :| 0 <= j < |s| && Touch(s, i, v, now)[j].key == k;
      assert k == s[i].key || (j > 0 && w[j - 1].key == k);
    }
  }

  lemma EvictOk<V>(c: Cache<V>, now: int)
    requires Ok(c, now)
    ensures Distinct(Evict(c)) && Recent(Evict(c), now) && |Evict(c)| <= |c.entries|
    ensures forall k :: Has(Evict(c), k) ==> Has(c.entries, k)
  {
    hide Has, Distinct, Recent, Drop, Selects;
    if |c.entries| >= c.capacity && c.entries != [] {
      var f := DropPart(c.entries, |c.entries| - 1);
      PartRecent(f, Drop(c.entries, |c.entries| - 1), c.entries, now);
    }
  }

  lemma PushOk<V>(s: seq<Entry<V>>, k: string, v: V, now: int)
    requires Distinct(s) && Recent(s, now) && !Has(s, k)
    ensures Distinct([Entry(k, v, now)] + s) && Recent([Entry(k, v, now)] + s, now)
  {
  }

  lemma StepOk<V>(c: Cache<V>, o: Op<V>, before: int)
    requires Ok(c, before) && before <= o.now
    ensures Ok(Step(c, o), o.now)
  {
    hide Tidy, Kept, Evict, Without, Touch;
    assert Ok(c, o.now);
    match o
    case GetOp(k, now) =>
      TidyOk(c, now);
      var d := Tidy(c, now);
      if Has(d.entries, k) {
        var i := Index(d.entries, k);
        TouchOk(d.entries, i, d.entries[i].value, now);
        var f := DropPart(d.entries, i);
        PartRecent(f, Drop(d.entries, i), d.entries, now);
      }
    case PutOp(k, v, now) =>
      TidyOk(c, now);
      var d := Tidy(c, now);
      if Has(d.entries, k) {
        TouchOk(d.entries, Index(d.entries, k), v, now);
      } else {
        EvictOk(d, now);
        PushOk(Evict(d), k, v, now);
      }
    case ForceOp(now) =>
      var f := KeptPart(c.entries, c.ttl, now);
      PartRecent(f, Kept(c.entries, c.ttl, now), c.entries, now);
    case ClearOp(_) =>
    case TtlOp(_, _) =>
    case IntervalOp(_, _) =>
  }

  /** In every run in which the clock does not go back, the list is ordered by last access. */
  lemma {:induction false} RunOk<V>(capacity: int, ttl: int, start: int, ops: seq<Op<V>>)
    requires Timely(ops, start)
    ensures Ok(Run(Start(capacity, ttl, start), ops), Time(ops, start))
  {
    if ops != [] {
      var before := ops[..|ops| - 1];
      RunOk(capacity, ttl, start, before);
      StepOk(Run(Start(capacity, ttl, start), before), ops[|ops| - 1], Time(before, start));
    }
  }

  // ----- expiry -----

  /** In a recency-ordered list, whatever follows an expired entry has expired too. */
  lemma ExpiredSuffix<V>(s: seq<Entry<V>>, ttl: int, now: int, i: nat, j: nat)
    requires Recent(s, now) && i <= j < |s| && Expired(s[i], ttl, now)
    ensures Expired(s[j], ttl, now)
  {
  }

  /** So cleaning up cuts the list after its last fresh entry. */
  lemma {:induction false} KeptIsPrefix<V>(s: seq<Entry<V>>, ttl: int, now: int)
    requires Recent(s, now) && !Has(s, "")
    ensures Kept(s, ttl, now) <= s
    ensures forall i :: 0 <= i < |s| ==> (Expired(s[i], ttl, now) <==> i >= |Kept(s, ttl, now)|)
  {
    if s != [] {
      var n := |s| - 1;
      forall i | 0 <= i < n ensures s[..n][i].key != "" {
        assert s[i].key != "";
      }
      KeptIsPrefix(s[..n], ttl, now);
      assert s[n].key != "";
      if !Expired(s[n], ttl, now) {
        assert forall i :: 0 <= i < n ==> !Expired(s[i], ttl, now);
      }
    }
  }

  /** A value that get returns belongs to an entry of that key that has not expired. */
  lemma GetIsFresh<V>(c: Cache<V>, k: string, now: int)
    ensures var r := Get(c, k, now).1;
            r.Some? ==> exists i :: 0 <= i < |c.entries| && c.entries[i].key == k && c.entries[i].value == r.value
                                    && !Expired(c.entries[i], c.ttl, now)
  {
    if Get(c, k, now).1.Some? {
      var f := TidyPart(c, now);
      var i := Index(Tidy(c, now).entries, k);
      assert c.entries[f[i]] == Tidy(c, now).entries[i];
    }
  }

  // ----- eviction -----

  /** When a new key finds the cache full, the entry that goes was used least recently. */
  lemma EvictsLeastRecent<V>(c: Cache<V>, k: string, v: V, now: int)
    requires Recent(c.entries, now) && !Has(Tidy(c, now).entries, k)
    ensures var s := Tidy(c, now).entries;
            var t := Put(c, k, v, now).entries;
            && t[0] == Entry(k, v, now)
            && (|s| < c.capacity ==> t[1..] == s)
            && (|s| >= c.capacity && s != [] && s[|s| - 1].key != "" ==>
                  t[1..] == s[..|s| - 1] && forall i :: 0 <= i < |s| ==> s[|s| - 1].lastAccess <= s[i].lastAccess)
  {
    hide Put, Tidy, Has, Evict, Selects;
    var f := TidyPart(c, now);
    PartRecent(f, Tidy(c, now).entries, c.entries, now);
    PutNew(c, k, v, now);
    EvictLast(Tidy(c, now));
  }

  lemma PutNew<V>(c: Cache<V>, k: string, v: V, now: int)
    requires !Has(Tidy(c, now).entries, k)
    ensures Put(c, k, v, now).entries == [Entry(k, v, now)] + Evict(Tidy(c, now)) && Tidy(c, now).capacity == c.capacity
  {
    hide Has, Kept, Evict;
  }

  lemma EvictLast<V>(d: Cache<V>)
    ensures var (s, n) := (d.entries, |d.entries| - 1);
            && (n + 1 < d.capacity ==> Evict(d) == s)
            && (n + 1 >= d.capacity && s != [] && s[n].key != "" ==> Evict(d) == s[..n])
  {
  }

  // ----- capacity -----

  ghost predicate NeverEmptyKey<V>(ops: seq<Op<V>>) {
    forall i :: 0 <= i < |ops| && ops[i].PutOp? ==> ops[i].key != ""
  }

  lemma {:induction false} CapacityKept<V>(capacity: int, ttl: int, start: int, ops: seq<Op<V>>)
    requires capacity >= 1 && Timely(ops, start) && NeverEmptyKey(ops)
    ensures var c := Run(Start(capacity, ttl, start), ops);
            |c.entries| <= capacity && c.capacity == capacity && !Has(c.entries, "")
  {
    if ops != [] {
      var before, o := ops[..|ops| - 1], ops[|ops| - 1];
      CapacityKept(capacity, ttl, start, before);
      RunOk(capacity, ttl, start, before);
      var c := Run(Start(capacity, ttl, start), before);
      CapacityStep(c, o, Time(before, start));
    }
  }

  lemma CapacityStep<V>(c: Cache<V>, o: Op<V>, before: int)
    requires Ok(c, before) && before <= o.now && c.capacity >= 1
    requires |c.entries| <= c.capacity && !Has(c.entries, "") && (o.PutOp? ==> o.key != "")
    ensures var d := Step(c, o); |d.entries| <= d.capacity == c.capacity && !Has(d.entries, "")
  {
    hide Kept, Without, Touch, Has;
    assert Ok(c, o.now);
    var d := Tidy(c, o.now);
    TidyOk(c, o.now);
    match o
    case GetOp(k, now) =>
      if Has(d.entries, k) {
        var i := Index(d.entries, k);
        TouchOk(d.entries, i, d.entries[i].value, now);
        var f := DropPart(d.entries, i);
        PartRecent(f, Drop(d.entries, i), d.entries, now);
      }
    case PutOp(k, v, now) =>
      if Has(d.entries, k) {
        TouchOk(d.entries, Index(d.entries, k), v, now);
      } else {
        EvictOk(d, now);
        RoomMade(d);
        NoneIn(Evict(d), Entry(k, v, now));
      }
    case ForceOp(now) =>
      var f := KeptPart(c.entries, c.ttl, now);
      PartRecent(f, Kept(c.entries, c.ttl, now), c.entries, now);
    case ClearOp(_) => NothingIn<V>("");
    case TtlOp(_, _) =>
    case IntervalOp(_, _) =>
  }

  lemma NothingIn<V>(k: string)
    ensures !Has<V>([], k)
  {
  }

  lemma RoomMade<V>(c: Cache<V>)
    requires c.capacity >= 1 && |c.entries| <= c.capacity && !Has(c.entries, "")
    ensures |Evict(c)| < c.capacity
  {
  }

  lemma NoneIn<V>(s: seq<Entry<V>>, e: Entry<V>)
    requires !Has(s, "") && e.key != ""
    ensures !Has([e] + s, "")
  {
    assert forall i :: 0 < i < |[e] + s| ==> ([e] + s)[i] == s[i - 1];
  }

  /** Below capacity 1 the bound fails with the very first put. */
  lemma NoCapacity<V>(capacity: int, ttl: int, start: int, k: string, v: V)
    requires capacity < 1
    ensures |Run(Start(capacity, ttl, start), [PutOp(k, v, start)]).entries| == 1
  {
    assert [PutOp(k, v, start)][..0] == [];
    assert Run(Start<V>(capacity, ttl, start), []).entries == [];
  }

  /** So the bound holds in every run without empty keys if and only if the capacity is at least 1. */
  lemma CapacityExact<V(!new)>(capacity: int, ttl: int, start: int, v: V)
    ensures (forall ops: seq<Op<V>> :: Timely(ops, start) && NeverEmptyKey(ops) ==>
               |Run(Start(capacity, ttl, start), ops).entries| <= capacity)
            <==> capacity >= 1
  {
    if capacity >= 1 {
      forall ops: seq<Op<V>> | Timely(ops, start) && NeverEmptyKey(ops)
        ensures |Run(Start(capacity, ttl, start), ops).entries| <= capacity
      {
        CapacityKept(capacity, ttl, start, ops);
      }
    } else {
      var ops := [PutOp("k", v, start)];
      assert ops[..0] == [];
      assert Timely(ops[..0], start) && Timely(ops, start) && NeverEmptyKey(ops);
      NoCapacity(capacity, ttl, start, "k", v);
    }
  }

  // ----- capacity, whatever the keys -----

  ghost predicate PutsOnly<V>(ops: seq<Op<V>>, keys: set<string>) {
    forall i :: 0 <= i < |ops| && ops[i].PutOp? ==> ops[i].key in keys
  }

  ghost predicate KeysIn<V>(s: seq<Entry<V>>, keys: set<string>) {
    forall i :: 0 <= i < |s| ==> s[i].key in keys
  }

  lemma {:induction false} RunKeysIn<V>(capacity: int, ttl: int, start: int, ops: seq<Op<V>>, keys: set<string>)
    requires PutsOnly(ops, keys)
    ensures KeysIn(Run(Start(capacity, ttl, start), ops).entries, keys)
  {
    if ops != [] {
      var before, o := ops[..|ops| - 1], ops[|ops| - 1];
      RunKeysIn(capacity, ttl, start, before, keys);
      var c := Run(Start(capacity, ttl, start), before);
      var t := Step(c, o).entries;
      hide Step;
      forall i | 0 <= i < |t| ensures t[i].key in keys {
        assert Bound(t, t[i].key, t[i].value);
        StepBound(c, o, t[i].key, t[i].value);
      }
    }
  }

  /** Distinct keys from a set are no more than the set has. */
  lemma {:induction false} KeysFit<V>(s: seq<Entry<V>>, keys: set<string>)
    requires Distinct(s) && KeysIn(s, keys)
    ensures |s| <= |keys|
  {
    if s != [] {
      var n := |s| - 1;
      KeysFit(s[..n], keys - {s[n].key});
    }
  }

  /** Puts of the given keys, all at one time. */
  ghost function Puts<V>(q: seq<string>, v: V, now: int): seq<Op<V>> {
    seq(|q|, i requires 0 <= i < |q| => PutOp(q[i], v, now))
  }

  ghost function Reversed<V>(q: seq<string>, v: V, now: int): seq<Entry<V>> {
    seq(|q|, i requires 0 <= i < |q| => Entry(q[|q| - 1 - i], v, now))
  }

  /** With the empty key put first, the cache takes one entry more than its capacity. */
  lemma {:induction false} EmptyKeyFirst<V>(capacity: int, ttl: int, start: int, q: seq<string>, v: V)
    requires q != [] ==> q[0] == ""
    requires |q| <= capacity + 1 && forall i, j :: 0 <= i < j < |q| ==> q[i] != q[j]
    ensures Run(Start(capacity, ttl, start), Puts(q, v, start)) == Cache(Reversed(q, v, start), capacity, ttl, start, 300)
    ensures Timely(Puts(q, v, start), start)
  {
    hide Put;
    if q != [] {
      var n := |q| - 1;
      EmptyKeyFirst(capacity, ttl, start, q[..n], v);
      assert Puts(q, v, start)[..n] == Puts(q[..n], v, start);
      ReversedNext(q, v, start);
      OneMore(Cache(Reversed(q[..n], v, start), capacity, ttl, start, 300), q[n], v, start);
    } else {
      assert Reversed(q, v, start) == [];
    }
  }

  lemma ReversedNext<V>(q: seq<string>, v: V, now: int)
    requires q != [] && forall i, j :: 0 <= i < j < |q| ==> q[i] != q[j]
    ensures var (n, r) := (|q| - 1, Reversed(q[..|q| - 1], v, now));
            && Reversed(q, v, now) == [Entry(q[n], v, now)] + r && !Has(r, q[n])
            && (n > 0 ==> r[n - 1].key == q[0])
  {
  }

  /** A new key, while there is room or the last entry cannot go. */
  lemma OneMore<V>(c: Cache<V>, k: string, v: V, now: int)
    requires c.lastCleanup == now && c.interval == 300 && !Has(c.entries, k)
    requires |c.entries| >= c.capacity && c.entries != [] ==> c.entries[|c.entries| - 1].key == ""
    ensures Put(c, k, v, now) == c.(entries := [Entry(k, v, now)] + c.entries)
  {
    hide Has, Kept;
  }

  /** Any number of keys of a set, one given key first. */
  lemma {:induction false} Choose(keys: set<string>, first: string, n: nat) returns (q: seq<string>)
    requires first in keys && 0 < n <= |keys|
    ensures |q| == n && q[0] == first && (forall i :: 0 <= i < n ==> q[i] in keys)
    ensures forall i, j :: 0 <= i < j < n ==> q[i] != q[j]
    decreases n
  {
    if n == 1 {
      q := [first];
    } else {
      var r := Choose(keys, first, n - 1);
      var used := set k | k in r;
      UsedFit(r, used);
      NotAll(keys, used);
      var k :| k in keys && k !in used;
      q := r + [k];
      assert forall i :: 0 <= i < n - 1 ==> r[i] in used;
    }
  }

  lemma NotAll<T>(a: set<T>, b: set<T>)
    requires |b| < |a|
    ensures exists k :: k in a && k !in b
  {
    if forall k :: k in a ==> k in b {
      SubsetSize(a, b);
    }
  }

  lemma {:induction false} SubsetSize<T>(a: set<T>, b: set<T>)
    requires a <= b
    ensures |a| <= |b|
  {
    if k :| k in a {
      SubsetSize(a - {k}, b - {k});
    }
  }

  lemma {:induction false} UsedFit(r: seq<string>, used: set<string>)
    requires forall k :: k in used ==> k in r
    ensures |used| <= |r|
  {
    if r == [] {
      assert used == {};
    } else {
      var n := |r| - 1;
      UsedFit(r[..n], used - {r[n]});
    }
  }

  ghost predicate AlwaysFits<V(!new)>(capacity: int, ttl: int, start: int, keys: set<string>) {
    forall ops: seq<Op<V>> :: Timely(ops, start) && PutsOnly(ops, keys) ==> |Run(Start(capacity, ttl, start), ops).entries| <= capacity
  }

  /** Over all runs that put keys of a given set, the cache keeps to its capacity if and only if that is at
      least 1 and the empty key is not among them, or they all fit in anyway. */
  lemma CapacityByKeys<V(!new)>(capacity: int, ttl: int, start: int, keys: set<string>, v: V)
    requires keys != {}
    ensures AlwaysFits<V>(capacity, ttl, start, keys) <==> capacity >= 1 && ("" !in keys || |keys| <= capacity)
  {
    if capacity < 1 {
      var k :| k in keys;
      NoCapacity(capacity, ttl, start, k, v);
      var ops := [PutOp(k, v, start)];
      assert ops[..0] == [];
      assert Timely(ops[..0], start) && Timely(ops, start) && PutsOnly(ops, keys);
    } else if "" in keys && |keys| > capacity {
      var q := Choose(keys, "", capacity + 1);
      EmptyKeyFirst(capacity, ttl, start, q, v);
      assert PutsOnly(Puts(q, v, start), keys);
    } else {
      forall ops: seq<Op<V>> | Timely(ops, start) && PutsOnly(ops, keys)
        ensures |Run(Start(capacity, ttl, start), ops).entries| <= capacity
      {
        if "" !in keys {
          CapacityKept(capacity, ttl, start, ops);
        } else {
          RunOk(capacity, ttl, start, ops);
          RunKeysIn(capacity, ttl, start, ops, keys);
          KeysFit(Run(Start(capacity, ttl, start), ops).entries, keys);
        }
      }
    }
  }

  /** An entry under the empty key is never evicted, and each new key then makes the list longer. */
  lemma EmptyKeyBreaksBound<V>(ttl: int, start: int, v: V)
    ensures |Run(Start(1, ttl, start), [PutOp("", v, start), PutOp("a", v, start)]).entries| == 2
  {
    var ops := [PutOp("", v, start), PutOp("a", v, start)];
    assert ops[..1] == [PutOp("", v, start)] && ops[..1][..0] == [];
    assert Run(Start<V>(1, ttl, start), ops[..1][..0]).entries == [];
    var c := Run(Start(1, ttl, start), ops[..1]);
    assert c.entries == [Entry("", v, start)];
    assert !Has(c.entries, "a");
  }

  // ----- the cache against the map of last puts -----

  /** The value most recently put under `k` since the last clear. */
  ghost function LastPut<V>(ops: seq<Op<V>>, k: string): Option<V> {
    if ops == [] then None
    else
      var o := ops[|ops| - 1];
      if o.PutOp? && o.key == k then Some(o.value)
      else if o.ClearOp? then None
      else LastPut(ops[..|ops| - 1], k)
  }

  ghost predicate Agrees<V>(s: seq<Entry<V>>, ops: seq<Op<V>>) {
    forall i :: 0 <= i < |s| ==> LastPut(ops, s[i].key) == Some(s[i].value)
  }

  lemma PartAgrees<V>(f: seq<nat>, t: seq<Entry<V>>, s: seq<Entry<V>>, ops: seq<Op<V>>)
    requires Selects(f, t, s) && Agrees(s, ops)
    ensures Agrees(t, ops)
  {
  }

  lemma TouchAgrees<V>(s: seq<Entry<V>>, i: nat, v: V, now: int, ops: seq<Op<V>>, o: Op<V>)
    requires i < |s| && Distinct(s) && Agrees(s, ops)
    requires if o.PutOp? then o.key == s[i].key && o.value == v else o.GetOp? && v == s[i].value
    ensures Agrees(Touch(s, i, v, now), ops + [o])
  {
    var t := Touch(s, i, v, now);
    forall j | 0 <= j < |t| ensures LastPut(ops + [o], t[j].key) == Some(t[j].value) {
      LastPutNext(ops, o, t[j].key);
      if j > 0 {
        var h := if j - 1 < i then j - 1 else j;
        assert t[j] == s[h] && s[h].key != s[i].key;
      } else {
        assert LastPut(ops, s[i].key) == Some(s[i].value);
      }
    }
  }

  lemma LastPutNext<V>(ops: seq<Op<V>>, o: Op<V>, k: string)
    ensures LastPut(ops + [o], k) == if o.PutOp? && o.key == k then Some(o.value) else if o.ClearOp? then None else LastPut(ops, k)
  {
    assert (ops + [o])[..|ops|] == ops;
  }

  lemma OtherAgrees<V>(s: seq<Entry<V>>, ops: seq<Op<V>>, o: Op<V>)
    requires Agrees(s, ops) && !o.ClearOp? && (o.PutOp? ==> !Has(s, o.key))
    ensures Agrees(s, ops + [o])
  {
    forall i | 0 <= i < |s| ensures LastPut(ops + [o], s[i].key) == Some(s[i].value) {
      LastPutNext(ops, o, s[i].key);
    }
  }

  lemma StepAgrees<V>(c: Cache<V>, o: Op<V>, ops: seq<Op<V>>, before: int)
    requires Ok(c, before) && before <= o.now && Agrees(c.entries, ops)
    ensures Agrees(Step(c, o).entries, ops + [o])
  {
    hide Kept, Without, Touch, Agrees, Recent, Distinct;
    var d := Tidy(c, o.now);
    OkLater(c, before, o.now);
    TidyOk(c, o.now);
    var f := TidyPart(c, o.now);
    PartAgrees(f, d.entries, c.entries, ops);
    match o
    case GetOp(k, now) =>
      OtherAgrees(d.entries, ops, o);
      if Has(d.entries, k) {
        var i := Index(d.entries, k);
        TouchAgrees(d.entries, i, d.entries[i].value, now, ops, o);
        var g := DropPart(d.entries, i);
        PartAgrees(g, Drop(d.entries, i), d.entries, ops);
        OtherAgrees(Drop(d.entries, i), ops, o);
      }
    case PutOp(k, v, now) =>
      if Has(d.entries, k) {
        TouchAgrees(d.entries, Index(d.entries, k), v, now, ops, o);
      } else {
        EvictOk(d, now);
        if d.entries != [] {
          var g := DropPart(d.entries, |d.entries| - 1);
          PartAgrees(g, Drop(d.entries, |d.entries| - 1), d.entries, ops);
        }
        OtherAgrees(Evict(d), ops, o);
        PushAgrees(Evict(d), ops, o);
      }
    case ForceOp(now) =>
      var g := KeptPart(c.entries, c.ttl, now);
      PartAgrees(g, Kept(c.entries, c.ttl, now), c.entries, ops);
      OtherAgrees(Kept(c.entries, c.ttl, now), ops, o);
    case ClearOp(_) => NothingAgrees(ops + [o]);
    case TtlOp(_, _) => OtherAgrees(c.entries, ops, o);
    case IntervalOp(_, _) => OtherAgrees(c.entries, ops, o);
  }

  lemma OkLater<V>(c: Cache<V>, before: int, now: int)
    requires Ok(c, before) && before <= now
    ensures Ok(c, now)
  {
  }

  lemma NothingAgrees<V>(ops: seq<Op<V>>)
    ensures Agrees([], ops)
  {
  }

  lemma PushAgrees<V>(s: seq<Entry<V>>, ops: seq<Op<V>>, o: Op<V>)
    requires o.PutOp? && Agrees(s, ops + [o])
    ensures Agrees([Entry(o.key, o.value, o.now)] + s, ops + [o])
  {
    LastPutNext(ops, o, o.key);
  }

  lemma {:induction false} RunAgrees<V>(capacity: int, ttl: int, start: int, ops: seq<Op<V>>)
    requires Timely(ops, start)
    ensures Agrees(Run(Start(capacity, ttl, start), ops).entries, ops)
  {
    if ops != [] {
      var before := ops[..|ops| - 1];
      RunAgrees(capacity, ttl, start, before);
      RunOk(capacity, ttl, start, before);
      StepAgrees(Run(Start(capacity, ttl, start), before), ops[|ops| - 1], before, Time(before, start));
      assert ops == before + [ops[|ops| - 1]];
    }
  }

  /** The cache never lies: whatever get returns is the value last put under that key. */
  lemma GetIsLastPut<V>(capacity: int, ttl: int, start: int, ops: seq<Op<V>>, k: string, now: int)
    requires Timely(ops, start)
    ensures var r := Get(Run(Start(capacity, ttl, start), ops), k, now).1; r.Some? ==> r == LastPut(ops, k)
  {
    RunAgrees(capacity, ttl, start, ops);
    GetIsFresh(Run(Start(capacity, ttl, start), ops), k, now);
  }

  // ----- where entries come from -----

  ghost predicate Bound<V>(s: seq<Entry<V>>, k: string, v: V) {
    exists i :: 0 <= i < |s| && s[i].key == k && s[i].value == v
  }

  lemma PartBound<V>(f: seq<nat>, t: seq<Entry<V>>, s: seq<Entry<V>>, k: string, v: V)
    requires Selects(f, t, s) && Bound(t, k, v)
    ensures Bound(s, k, v)
  {
    var i :| 0 <= i < |t| && t[i].key == k && t[i].value == v;
    assert s[f[i]] == t[i];
  }

  /** No operation makes up an association: it was there before, or it is the one being put. */
  lemma StepBound<V>(c: Cache<V>, o: Op<V>, k: string, v: V)
    requires Bound(Step(c, o).entries, k, v)
    ensures Bound(c.entries, k, v) || (o.PutOp? && o.key == k && o.value == v)
  {
    var t := Step(c, o).entries;
    match o {
      case GetOp(key, now) =>
        var d := Tidy(c, now);
        var f := TidyPart(c, now);
        if Bound(d.entries, k, v) {
          PartBound(f, d.entries, c.entries, k, v);
        } else if Has(d.entries, key) {
          var i := Index(d.entries, key);
          var e := d.entries[i];
          if Expired(e, d.ttl, now) {
            var g := DropPart(d.entries, i);
            PartBound(g, t, d.entries, k, v);
          } else {
            TouchBound(d.entries, i, e.value, now, k, v);
          }
        }
      case PutOp(key, value, now) =>
        var d := Tidy(c, now);
        var f := TidyPart(c, now);
        if Bound(d.entries, k, v) {
          PartBound(f, d.entries, c.entries, k, v);
        } else if Has(d.entries, key) {
          TouchBound(d.entries, Index(d.entries, key), value, now, k, v);
        } else {
          EvictBound(d, key, value, now, k, v);
        }
      case ForceOp(now) =>
        var f := KeptPart(c.entries, c.ttl, now);
        PartBound(f, t, c.entries, k, v);
      case _ =>
    }
  }

  lemma TouchBound<V>(s: seq<Entry<V>>, i: nat, value: V, now: int, k: string, v: V)
    requires i < |s| && Bound(Touch(s, i, value, now), k, v)
    ensures Bound(s, k, v) || (s[i].key == k && value == v)
  {
    var t := Touch(s, i, value, now);
    var j :| 0 <= j < |t| && t[j].key == k && t[j].value == v;
    if j > 0 {
      assert t[j] == s[if j - 1 < i then j - 1 else j];
    }
  }

  lemma EvictBound<V>(d: Cache<V>, key: string, value: V, now: int, k: string, v: V)
    requires Bound([Entry(key, value, now)] + Evict(d), k, v)
    ensures Bound(d.entries, k, v) || (key == k && value == v)
  {
    var e := Evict(d);
    var t := [Entry(key, value, now)] + e;
    var j :| 0 <= j < |t| && t[j].key == k && t[j].value == v;
    if j > 0 {
      assert e[j - 1] == t[j];
      assert e[j - 1] == d.entries[j - 1];
    }
  }
}
