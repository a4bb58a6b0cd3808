/** The time to live, over all runs of the LRU cache, with its numbers written out. */
module LruFresh {
  import opened Options
  import opened LruSpec
  import opened LruProof

  /** The operation puts the key, or finds it. */
  ghost predicate Uses<V>(c: Cache<V>, o: Op<V>, k: string) {
    (o.PutOp? || (o.GetOp? && Get(c, o.key, o.now).1.Some?)) && o.key == k
  }

  /** When the key was last put or found. */
  ghost function LastUse<V>(c: Cache<V>, ops: seq<Op<V>>, k: string): Option<int> {
    if ops == [] then None
    else
      var (before, o) := (ops[..|ops| - 1], ops[|ops| - 1]);
      if Uses(Run(c, before), o, k) then Some(o.now) else LastUse(c, before, k)
  }

  ghost predicate Stamped<V>(c: Cache<V>, ops: seq<Op<V>>, s: seq<Entry<V>>) {
    forall i :: 0 <= i < |s| ==> LastUse(c, ops, s[i].key) == Some(s[i].lastAccess)
  }

  /** Every entry after an operation is one that was there, or the one just used, at the time of its use. */
  ghost predicate FromStep<V>(c: Cache<V>, o: Op<V>, t: seq<Entry<V>>) {
    forall e :: e in t ==> if Uses(c, o, e.key) then e.lastAccess == o.now else e in c.entries
  }

  lemma PartIn<V>(f: seq<nat>, t: seq<Entry<V>>, s: seq<Entry<V>>)
    requires Selects(f, t, s)
    ensures forall e :: e in t ==> e in s
  {
  }

  lemma PartFrom<V>(c: Cache<V>, o: Op<V>, t: seq<Entry<V>>, s: seq<Entry<V>>)
    requires (forall e :: e in t ==> e in s) && forall e :: e in s ==> e in c.entries && !Uses(c, o, e.key)
    ensures FromStep(c, o, t)
  {
  }

  lemma TouchFrom<V>(c: Cache<V>, o: Op<V>, s: seq<Entry<V>>, i: nat, v: V)
    requires i < |s| && Distinct(s) && (forall e :: e in s ==> e in c.entries) && Uses(c, o, s[i].key)
    ensures FromStep(c, o, Touch(s, i, v, o.now))
  {
    var t := Touch(s, i, v, o.now);
    forall e | e in t ensures if Uses(c, o, e.key) then e.lastAccess == o.now else e in c.entries {
      var j :| 0 <= j < |t| && t[j] == e;
      if j > 0 {
        var h := if j - 1 < i then j - 1 else j;
        assert t[j] == s[h] && s[h] in s;
      }
    }
  }

  lemma PushFrom<V>(c: Cache<V>, o: Op<V>, v: V, t: seq<Entry<V>>, s: seq<Entry<V>>)
    requires o.PutOp? && !Has(s, o.key) && (forall e :: e in t ==> e in s) && forall e :: e in s ==> e in c.entries
    ensures FromStep(c, o, [Entry(o.key, v, o.now)] + t)
  {
    forall e | e in t ensures e in c.entries && e.key != o.key {
      var i :| 0 <= i < |s| && s[i] == e;
    }
  }

  lemma StepFrom<V>(c: Cache<V>, o: Op<V>, before: int)
    requires Ok(c, before) && before <= o.now
    ensures FromStep(c, o, Step(c, o).entries)
  {
    hide Kept, Tidy, Without, Drop, Touch, FromStep, Recent, Distinct, Has, Selects;
    var d := Tidy(c, o.now);
    OkLater(c, before, o.now);
    TidyOk(c, o.now);
    TidyIn(c, o.now);
    match o
    case GetOp(k, now) =>
      if !Has(d.entries, k) {
        PartFrom(c, o, d.entries, d.entries);
      } else {
        var i := Index(d.entries, k);
        if Get(c, k, now).1.Some? {
          TouchFrom(c, o, d.entries, i, d.entries[i].value);
        } else {
          DropIn(d.entries, i);
          PartFrom(c, o, Drop(d.entries, i), d.entries);
        }
      }
    case PutOp(k, v, now) =>
      if Has(d.entries, k) {
        TouchFrom(c, o, d.entries, Index(d.entries, k), v);
      } else {
        if d.entries != [] {
          DropIn(d.entries, |d.entries| - 1);
        }
        PushFrom(c, o, v, Evict(d), d.entries);
      }
    case ForceOp(now) =>
      var f := KeptPart(c.entries, c.ttl, now);
      PartIn(f, Kept(c.entries, c.ttl, now), c.entries);
      PartFrom(c, o, Kept(c.entries, c.ttl, now), c.entries);
    case ClearOp(_) => PartFrom(c, o, [], []);
    case TtlOp(_, _) => PartFrom(c, o, c.entries, c.entries);
    case IntervalOp(_, _) => PartFrom(c, o, c.entries, c.entries);
  }

  lemma TidyIn<V>(c: Cache<V>, now: int)
    ensures forall e :: e in Tidy(c, now).entries ==> e in c.entries
    ensures Tidy(c, now).ttl == c.ttl
  {
    var f := TidyPart(c, now);
    PartIn(f, Tidy(c, now).entries, c.entries);
  }

  lemma DropIn<V>(s: seq<Entry<V>>, i: nat)
    requires i < |s|
    ensures forall e :: e in Drop(s, i) ==> e in s
  {
    var f := DropPart(s, i);
    PartIn(f, Drop(s, i), s);
  }

  lemma StampedNext<V>(c: Cache<V>, ops: seq<Op<V>>, o: Op<V>, t: seq<Entry<V>>)
    requires Stamped(c, ops, Run(c, ops).entries) && FromStep(Run(c, ops), o, t)
    ensures Stamped(c, ops + [o], t)
  {
    hide Run, Uses;
    var all := ops + [o];
    assert all[..|all| - 1] == ops && all[|all| - 1] == o;
    var s := Run(c, ops).entries;
    forall i | 0 <= i < |t| ensures LastUse(c, all, t[i].key) == Some(t[i].lastAccess) {
      assert t[i] in t;
      if !Uses(Run(c, ops), o, t[i].key) {
        var j :| 0 <= j < |s| && s[j] == t[i];
      }
    }
  }

  lemma {:induction false} RunStamped<V>(capacity: int, ttl: int, start: int, ops: seq<Op<V>>)
    requires Timely(ops, start)
    ensures var c := Start(capacity, ttl, start); Stamped(c, ops, Run(c, ops).entries)
  {
    hide Stamped, FromStep, Step;
    var c := Start(capacity, ttl, start);
    if ops == [] {
      NothingStamped(c);
    } else {
      var (before, o) := (ops[..|ops| - 1], ops[|ops| - 1]);
      RunStamped(capacity, ttl, start, before);
      RunOk(capacity, ttl, start, before);
      StepFrom(Run(c, before), o, Time(before, start));
      StampedNext(c, before, o, Run(c, ops).entries);
      assert ops == before + [o];
    }
  }

  lemma NothingStamped<V>(c: Cache<V>)
    ensures Stamped(c, [], [])
  {
  }

  /** In every run a value is only found when the time to live is off, or no longer ago than the time to live the
      key was last put or found. */
  lemma FoundInTime<V>(capacity: int, ttl: int, start: int, ops: seq<Op<V>>, k: string, now: int)
    requires Timely(ops, start)
    ensures var (c, d) := (Start<V>(capacity, ttl, start), Run(Start<V>(capacity, ttl, start), ops));
            Get(d, k, now).1.Some? ==>
              && LastUse(c, ops, k).Some?
              && (d.ttl <= 0 || now - LastUse(c, ops, k).value <= d.ttl)
  {
    var c := Start<V>(capacity, ttl, start);
    var d := Run(c, ops);
    RunStamped(capacity, ttl, start, ops);
    hide Run;
    if Get(d, k, now).1.Some? {
      GetIsFresh(d, k, now);
      var i :| 0 <= i < |d.entries| && d.entries[i].key == k && !Expired(d.entries[i], d.ttl, now);
      assert LastUse(c, ops, d.entries[i].key) == Some(d.entries[i].lastAccess);
    }
  }

  /** Cleaning up keeps an entry with a key if and only if the time to live is off, or it was last used no
      longer ago than that. */
  lemma {:induction false} KeptExact<V>(s: seq<Entry<V>>, ttl: int, now: int, e: Entry<V>)
    ensures e in Kept(s, ttl, now) <==> e in s && (e.key == "" || ttl <= 0 || now - e.lastAccess <= ttl)
  {
    if s != [] {
      var n := |s| - 1;
      KeptExact(s[..n], ttl, now, e);
      assert s == s[..n] + [s[n]];
    }
  }

  /** The cleanup that every get and put begins with: once the interval is over, and only of what has expired. */
  lemma TidyExact<V>(c: Cache<V>, now: int)
    ensures now - c.lastCleanup <= c.interval ==> Tidy(c, now) == c
    ensures now - c.lastCleanup > c.interval ==>
              && Tidy(c, now).lastCleanup == now
              && forall e :: e in Tidy(c, now).entries <==>
                   e in c.entries && (e.key == "" || c.ttl <= 0 || now - e.lastAccess <= c.ttl)
  {
    hide Kept;
    if now - c.lastCleanup > c.interval {
      forall e ensures e in Tidy(c, now).entries <==> e in c.entries && (e.key == "" || c.ttl <= 0 || now - e.lastAccess <= c.ttl) {
        KeptExact(c.entries, c.ttl, now, e);
      }
    }
  }
}
