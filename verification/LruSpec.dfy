/** The LRU cache of cache.v as a recency-ordered list of entries, most recent first. */
module LruSpec {

  import opened Options

  datatype Entry<V> = Entry(key: string, value: V, lastAccess: int)

  datatype Cache<V> = Cache(entries: seq<Entry<V>>, capacity: int, ttl: int, lastCleanup: int, interval: int)

  ghost predicate Expired<V>(e: Entry<V>, ttl: int, now: int) {
    ttl > 0 && now - e.lastAccess > ttl
  }

  /** No key occurs twice. */
  ghost predicate Distinct<V>(s: seq<Entry<V>>) {
    forall i, j :: 0 <= i < j < |s| ==> s[i].key != s[j].key
  }

  ghost predicate Has<V>(s: seq<Entry<V>>, k: string) {
    exists i :: 0 <= i < |s| && s[i].key == k
  }

  ghost function Index<V>(s: seq<Entry<V>>, k: string): (i: nat)
    requires Has(s, k)
    ensures i < |s| && s[i].key == k
  {
    var i: nat :| i < |s| && s[i].key == k;
    i
  }

  ghost function Without<V>(s: seq<Entry<V>>, i: nat): seq<Entry<V>>
    requires i < |s|
  {
    s[..i] + s[i + 1..]
  }

  /** remove_node: the empty key is the mark of a node already removed, and stays. */
  ghost function Drop<V>(s: seq<Entry<V>>, i: nat): seq<Entry<V>>
    requires i < |s|
  {
    if s[i].key == "" then s else Without(s, i)
  }

  /** What cleanup_expired_entries keeps. */
  ghost function Kept<V>(s: seq<Entry<V>>, ttl: int, now: int): seq<Entry<V>> {
    if s == [] then []
    else
      var (r, e) := (Kept(s[..|s| - 1], ttl, now), s[|s| - 1]);
      if Expired(e, ttl, now) && e.key != "" then r else r + [e]
  }

  ghost function Tidy<V>(c: Cache<V>, now: int): Cache<V> {
    if now - c.lastCleanup > c.interval then c.(entries := Kept(c.entries, c.ttl, now), lastCleanup := now) else c
  }

  ghost function Touch<V>(s: seq<Entry<V>>, i: nat, v: V, now: int): seq<Entry<V>>
    requires i < |s|
  {
    [Entry(s[i].key, v, now)] + Without(s, i)
  }

  ghost function Get<V>(c: Cache<V>, k: string, now: int): (Cache<V>, Option<V>) {
    var d := Tidy(c, now);
    if !Has(d.entries, k) then (d, None)
    else
      var i := Index(d.entries, k);
      var e := d.entries[i];
      if Expired(e, d.ttl, now) then (d.(entries := Drop(d.entries, i)), None)
      else (d.(entries := Touch(d.entries, i, e.value, now)), Some(e.value))
  }

  /** Room for one more: the last entry goes when the capacity is reached. */
  ghost function Evict<V>(c: Cache<V>): seq<Entry<V>> {
    if |c.entries| >= c.capacity && c.entries != [] then Drop(c.entries, |c.entries| - 1) else c.entries
  }

  ghost function Put<V>(c: Cache<V>, k: string, v: V, now: int): Cache<V> {
    var d := Tidy(c, now);
    if Has(d.entries, k) then d.(entries := Touch(d.entries, Index(d.entries, k), v, now))
    else d.(entries := [Entry(k, v, now)] + Evict(d))
  }

  ghost function ForceCleanup<V>(c: Cache<V>, now: int): Cache<V> {
    c.(entries := Kept(c.entries, c.ttl, now))
  }

  ghost function Clear<V>(c: Cache<V>, now: int): Cache<V> {
    c.(entries := [], lastCleanup := now)
  }

  // ----- removing a set of keys -----

  ghost function Minus<V>(s: seq<Entry<V>>, gone: set<string>): seq<Entry<V>> {
    if s == [] then []
    else
      var (r, e) := (Minus(s[..|s| - 1], gone), s[|s| - 1]);
      if e.key in gone then r else r + [e]
  }

  lemma {:induction false} MinusFrom<V>(s: seq<Entry<V>>, gone: set<string>)
    ensures forall i :: 0 <= i < |Minus(s, gone)| ==> Minus(s, gone)[i].key !in gone && Minus(s, gone)[i] in s
  {
    if s != [] {
      MinusFrom(s[..|s| - 1], gone);
      assert s[|s| - 1] in s;
    }
  }

  lemma {:induction false} MinusDistinct<V>(s: seq<Entry<V>>, gone: set<string>)
    requires Distinct(s)
    ensures Distinct(Minus(s, gone))
  {
    if s != [] {
      var r := s[..|s| - 1];
      MinusDistinct(r, gone);
      MinusFrom(r, gone);
      forall i | 0 <= i < |Minus(r, gone)| ensures Minus(r, gone)[i].key != s[|s| - 1].key {
        var j :| 0 <= j < |r| && r[j] == Minus(r, gone)[i];
      }
    }
  }

  lemma {:induction false} MinusAbsent<V>(s: seq<Entry<V>>, gone: set<string>)
    requires forall i :: 0 <= i < |s| ==> s[i].key !in gone
    ensures Minus(s, gone) == s
  {
    if s != [] {
      MinusAbsent(s[..|s| - 1], gone);
    }
  }

  lemma {:induction false} MinusTwice<V>(s: seq<Entry<V>>, a: set<string>, b: set<string>)
    ensures Minus(s, a + b) == Minus(Minus(s, a), b)
  {
    if s != [] {
      MinusTwice(s[..|s| - 1], a, b);
      var m := Minus(s[..|s| - 1], a);
      assert (m + [s[|s| - 1]])[..|m|] == m;
    }
  }

  lemma {:induction false} MinusKey<V>(s: seq<Entry<V>>, i: nat)
    requires Distinct(s) && i < |s|
    ensures Minus(s, {s[i].key}) == Without(s, i)
  {
    var n := |s| - 1;
    var r := s[..n];
    if i == n {
      MinusAbsent(r, {s[n].key});
    } else {
      MinusKey(r, i);
      assert Without(s, i) == Without(r, i) + [s[n]];
    }
  }

  /** cleanup_expired_entries, as the removal of a set of keys. */
  lemma {:induction false} KeptIs<V>(s: seq<Entry<V>>, ttl: int, now: int, gone: set<string>)
    requires forall i :: 0 <= i < |s| ==> (s[i].key in gone <==> Expired(s[i], ttl, now) && s[i].key != "")
    ensures Kept(s, ttl, now) == Minus(s, gone)
  {
    if s != [] {
      KeptIs(s[..|s| - 1], ttl, now, gone);
    }
  }
}
