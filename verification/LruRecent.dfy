/** What the LRU cache is for: a key used recently is still there. */
module LruRecent {
  import opened LruSpec
  import opened LruProof

  /** The keys that the operations use. */
  ghost function Used<V>(ops: seq<Op<V>>): set<string> {
    if ops == [] then {}
    else
      var o := ops[|ops| - 1];
      Used(ops[..|ops| - 1]) + if o.GetOp? || o.PutOp? then {o.key} else {}
  }

  /** No clearing and no change of the time to live. */
  ghost predicate Lasting<V>(ops: seq<Op<V>>) {
    forall i :: 0 <= i < |ops| ==> !ops[i].ClearOp? && !ops[i].TtlOp?
  }

  /** The key stands at `i`, used no earlier than `u`, with nothing but keys of `others` before it. */
  ghost predicate Near<V>(s: seq<Entry<V>>, k: string, i: nat, others: set<string>, u: int) {
    i < |s| && s[i].key == k && s[i].lastAccess >= u && forall j :: 0 <= j < i ==> s[j].key in others
  }

  /** An entry that has not expired survives a cleanup, with all before it. */
  lemma {:induction false} KeptFront<V>(s: seq<Entry<V>>, ttl: int, now: int, i: nat)
    requires Recent(s, now) && i < |s| && !Expired(s[i], ttl, now)
    ensures i < |Kept(s, ttl, now)| && Kept(s, ttl, now)[..i + 1] == s[..i + 1]
  {
    hide Kept;
    var n := |s| - 1;
    KeptLast(s, ttl, now);
    if i < n {
      KeptFront(s[..n], ttl, now, i);
      var r := Kept(s[..n], ttl, now);
      assert (r + [s[n]])[..i + 1] == r[..i + 1] && s[..n][..i + 1] == s[..i + 1];
    } else {
      KeptWhole(s[..n], ttl, now);
      assert s == s[..n] + [s[n]];
    }
  }

  lemma {:induction false} KeptWhole<V>(s: seq<Entry<V>>, ttl: int, now: int)
    requires forall j :: 0 <= j < |s| ==> !Expired(s[j], ttl, now)
    ensures Kept(s, ttl, now) == s
  {
    if s != [] {
      KeptWhole(s[..|s| - 1], ttl, now);
    }
  }

  lemma NearKept<V>(s: seq<Entry<V>>, ttl: int, now: int, k: string, i: nat, others: set<string>, u: int)
    requires Recent(s, now) && Near(s, k, i, others, u) && (ttl <= 0 || now - u <= ttl)
    ensures Near(Kept(s, ttl, now), k, i, others, u)
  {
    hide Kept, Recent;
    KeptFront(s, ttl, now, i);
    var t := Kept(s, ttl, now);
    forall j | 0 <= j <= i ensures t[j] == s[j] {
      assert t[..i + 1][j] == s[..i + 1][j];
    }
  }

  lemma NearTidy<V>(c: Cache<V>, now: int, k: string, i: nat, others: set<string>, u: int)
    requires Recent(c.entries, now) && Near(c.entries, k, i, others, u) && (c.ttl <= 0 || now - u <= c.ttl)
    ensures Near(Tidy(c, now).entries, k, i, others, u)
    ensures Tidy(c, now).capacity == c.capacity && Tidy(c, now).ttl == c.ttl
  {
    hide Kept, Near, Recent;
    NearKept(c.entries, c.ttl, now, k, i, others, u);
  }

  lemma NearTouch<V>(s: seq<Entry<V>>, h: nat, v: V, now: int, k: string, i: nat, others: set<string>, u: int) returns (g: nat)
    requires Near(s, k, i, others, u) && h < |s| && u <= now && (h == i || s[h].key in others)
    ensures Near(Touch(s, h, v, now), k, g, others, u)
  {
    var t := Touch(s, h, v, now);
    g := if h == i then 0 else if h < i then i else i + 1;
    assert forall j :: 0 < j < |t| ==> t[j] == s[if j - 1 < h then j - 1 else j];
  }

  lemma NearDrop<V>(s: seq<Entry<V>>, h: nat, k: string, i: nat, others: set<string>, u: int)
    requires Near(s, k, i, others, u) && i < h < |s|
    ensures Near(Drop(s, h), k, i, others, u)
  {
  }

  /** A new key makes the last entry go, which is not the one of `k`. */
  lemma NearPush<V>(d: Cache<V>, key: string, v: V, now: int, k: string, i: nat, others: set<string>, u: int)
    requires Distinct(d.entries) && Near(d.entries, k, i, others, u) && key in others && !Has(d.entries, key)
    requires |others| < d.capacity
    ensures Near([Entry(key, v, now)] + Evict(d), k, i + 1, others, u)
  {
    var s := d.entries;
    forall j | 0 <= j < i ensures s[..i][j].key in others - {key} {
      assert s[j].key != key;
    }
    KeysFit(s[..i], others - {key});
    if |s| >= d.capacity {
      NearDrop(s, |s| - 1, k, i, others, u);
    }
  }

  lemma NearStep<V>(c: Cache<V>, o: Op<V>, before: int, k: string, i: nat, others: set<string>, u: int) returns (g: nat)
    requires Ok(c, before) && before <= o.now && !o.ClearOp? && !o.TtlOp?
    requires Near(c.entries, k, i, others, u) && |others| < c.capacity && (c.ttl <= 0 || o.now - u <= c.ttl)
    requires o.GetOp? || o.PutOp? ==> o.key == k || o.key in others
    ensures Near(Step(c, o).entries, k, g, others, u) && Step(c, o).capacity == c.capacity && Step(c, o).ttl == c.ttl
  {
    assert u <= o.now && Ok(c, o.now);
    hide Tidy, Kept, Evict, Touch, Drop, Near, Distinct;
    g := i;
    match o
    case GetOp(key, now) =>
      var d := Tidy(c, now);
      TidyOk(c, now);
      NearTidy(c, now, k, i, others, u);
      if Has(d.entries, key) {
        var h := Index(d.entries, key);
        WhereIs(d.entries, key, h, k, i, others, u);
        if Expired(d.entries[h], d.ttl, now) {
          StillFresh(d.entries, d.ttl, now, h, k, i, others, u);
          NearDrop(d.entries, h, k, i, others, u);
        } else {
          g := NearTouch(d.entries, h, d.entries[h].value, now, k, i, others, u);
        }
      }
    case PutOp(key, v, now) =>
      var d := Tidy(c, now);
      TidyOk(c, now);
      NearTidy(c, now, k, i, others, u);
      if Has(d.entries, key) {
        var h := Index(d.entries, key);
        WhereIs(d.entries, key, h, k, i, others, u);
        g := NearTouch(d.entries, h, v, now, k, i, others, u);
      } else {
        NotThere(d.entries, key, k, i, others, u);
        NearPush(d, key, v, now, k, i, others, u);
        g := i + 1;
      }
    case ForceOp(now) => NearKept(c.entries, c.ttl, now, k, i, others, u);
    case IntervalOp(_, _) =>
  }

  lemma WhereIs<V>(s: seq<Entry<V>>, key: string, h: nat, k: string, i: nat, others: set<string>, u: int)
    requires Distinct(s) && Near(s, k, i, others, u) && h < |s| && s[h].key == key && (key == k || key in others)
    ensures h == i || s[h].key in others
  {
  }

  lemma NotThere<V>(s: seq<Entry<V>>, key: string, k: string, i: nat, others: set<string>, u: int)
    requires Near(s, k, i, others, u) && !Has(s, key) && (key == k || key in others)
    ensures key in others
  {
  }

  /** What has expired stands behind an entry that has not. */
  lemma StillFresh<V>(s: seq<Entry<V>>, ttl: int, now: int, h: nat, k: string, i: nat, others: set<string>, u: int)
    requires Recent(s, now) && Near(s, k, i, others, u) && h < |s| && Expired(s[h], ttl, now) && (ttl <= 0 || now - u <= ttl)
    ensures i < h
  {
  }

  lemma {:induction false} RunNear<V>(c: Cache<V>, ops: seq<Op<V>>, u: int, k: string, others: set<string>, now: int) returns (i: nat)
    requires Ok(c, u) && Near(c.entries, k, 0, others, u) && |others| < c.capacity
    requires Timely(ops, u) && Time(ops, u) <= now && Lasting(ops) && (c.ttl <= 0 || now - u <= c.ttl)
    requires Used(ops) <= others + {k}
    ensures var d := Run(c, ops); Ok(d, Time(ops, u)) && Near(d.entries, k, i, others, u) && d.capacity == c.capacity && d.ttl == c.ttl
  {
    i := 0;
    if ops != [] {
      var before, o := ops[..|ops| - 1], ops[|ops| - 1];
      hide Near, Ok;
      i := RunNear(c, before, u, k, others, now);
      StepOk(Run(c, before), o, Time(before, u));
      i := NearStep(Run(c, before), o, Time(before, u), k, i, others, u);
    }
  }

  /** A key used at time `u` is found at time `now`, if it has not expired and fewer other keys than the
      capacity have been used since. */
  lemma RecentlyUsedIsFound<V>(c: Cache<V>, u: int, k: string, ops: seq<Op<V>>, now: int)
    requires Ok(c, u) && c.entries != [] && c.entries[0].key == k && c.entries[0].lastAccess == u
    requires Timely(ops, u) && Time(ops, u) <= now && Lasting(ops) && (c.ttl <= 0 || now - u <= c.ttl)
    requires |Used(ops) - {k}| < c.capacity
    ensures Get(Run(c, ops), k, now).1.Some?
  {
    var others := Used(ops) - {k};
    var i := RunNear(c, ops, u, k, others, now);
    var d := Run(c, ops);
    hide Run, Kept, Timely;
    NearTidy(d, now, k, i, others, u);
    TidyOk(d, now);
  }

  /** After put, and after get has found the key, it stands first, used just now. */
  lemma UsedIsFirst<V>(c: Cache<V>, o: Op<V>)
    requires o.PutOp? || (o.GetOp? && Get(c, o.key, o.now).1.Some?)
    ensures var d := Step(c, o); d.entries != [] && d.entries[0].key == o.key && d.entries[0].lastAccess == o.now
  {
    hide Tidy, Evict;
  }

  lemma {:induction false} RunSplit<V>(c: Cache<V>, a: seq<Op<V>>, b: seq<Op<V>>, start: int)
    requires Timely(a + b, start)
    ensures Run(c, a + b) == Run(Run(c, a), b)
    ensures Timely(a, start) && Timely(b, Time(a, start)) && Time(a + b, start) == Time(b, Time(a, start))
  {
    if b == [] {
      assert a + b == a;
    } else {
      var n := |b| - 1;
      assert (a + b)[..|a + b| - 1] == a + b[..n];
      RunSplit(c, a, b[..n], start);
    }
  }

  lemma {:induction false} CapacityStays<V>(c: Cache<V>, ops: seq<Op<V>>)
    ensures Run(c, ops).capacity == c.capacity
  {
    hide Kept, Evict, Has, Index;
    if ops != [] {
      CapacityStays(c, ops[..|ops| - 1]);
    }
  }

  /** What least recently used eviction promises, over all runs: a key put or found by `o` is found at a later
      time with the value last put, if it has not expired, nothing was cleared since, and fewer other keys than
      the capacity have been used since. */
  lemma UsedIsFound<V>(capacity: int, ttl: int, start: int, before: seq<Op<V>>, o: Op<V>, after: seq<Op<V>>, now: int)
    requires Timely(before + [o] + after, start) && Time(before + [o] + after, start) <= now && Lasting(after)
    requires o.PutOp? || (o.GetOp? && Get(Run(Start(capacity, ttl, start), before), o.key, o.now).1.Some?)
    requires var t := Run(Start<V>(capacity, ttl, start), before).ttl; t <= 0 || now - o.now <= t
    requires |Used(after) - {o.key}| < capacity
    ensures var r := Get(Run(Start(capacity, ttl, start), before + [o] + after), o.key, now).1;
            r.Some? && r == LastPut(before + [o] + after, o.key)
  {
    hide Get, Used, Lasting, Ok, Step;
    var c := Start<V>(capacity, ttl, start);
    var b := Run(c, before);
    RunSplit(c, before + [o], after, start);
    RunSplit(c, before, [o], start);
    var d := Run(c, before + [o]);
    assert [o][..0] == [] && d == Step(b, o);
    RunOk(capacity, ttl, start, before + [o]);
    CapacityStays(c, before + [o]);
    UsedIsFirst(b, o);
    TtlStays(b, o);
    RecentlyUsedIsFound(d, o.now, o.key, after, now);
    GetIsLastPut(capacity, ttl, start, before + [o] + after, o.key, now);
  }

  lemma TtlStays<V>(c: Cache<V>, o: Op<V>)
    requires o.PutOp? || o.GetOp?
    ensures Step(c, o).ttl == c.ttl
  {
    hide Kept, Evict, Has, Index;
  }
}
