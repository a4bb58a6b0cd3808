/** Splitting a sequence at a separator, and joining it again. */
module Splitting {

  function Split<T(==)>(s: seq<T>, c: T): (r: seq<seq<T>>)
    ensures r != []
    decreases |s|
  {
    if s == [] then [[]]
    else
      var n := |s| - 1;
      var r := Split(s[..n], c);
      if s[n] == c then r + [[]]
      else r[..|r| - 1] + [r[|r| - 1] + [s[n]]]
  }

  function Join<T>(p: seq<seq<T>>, c: T): seq<T>
    requires p != []
  {
    if |p| == 1 then p[0] else Join(p[..|p| - 1], c) + [c] + p[|p| - 1]
  }

  ghost predicate Free<T>(s: seq<T>, c: T) {
    c !in s
  }

  /** A piece without separators at the end is the last piece. */
  lemma {:induction false} SplitLast<T>(a: seq<T>, c: T, b: seq<T>)
    requires Free(b, c)
    ensures Split(a + [c] + b, c) == Split(a, c) + [b]
  {
    var s := a + [c] + b;
    var n := |s| - 1;
    if b == [] {
      assert s[..n] == a;
    } else {
      var m := |b| - 1;
      assert s[n] == b[m] && b[m] in b;
      assert s[..n] == a + [c] + b[..m];
      SplitLast(a, c, b[..m]);
      var r := Split(s[..n], c);
      assert r == Split(a, c) + [b[..m]];
      assert r[..|r| - 1] == Split(a, c) && b[..m] + [b[m]] == b;
    }
  }

  lemma {:induction false} SplitNone<T>(b: seq<T>, c: T)
    requires Free(b, c)
    ensures Split(b, c) == [b]
  {
    if b != [] {
      var m := |b| - 1;
      assert b[m] in b;
      SplitNone(b[..m], c);
      assert b[..m] + [b[m]] == b;
    }
  }

  /** Splitting what was joined gives the pieces back. */
  lemma {:induction false} SplitJoin<T>(p: seq<seq<T>>, c: T)
    requires p != [] && forall x :: x in p ==> Free(x, c)
    ensures Split(Join(p, c), c) == p
  {
    var n := |p| - 1;
    assert p[n] in p;
    if n == 0 {
      SplitNone(p[0], c);
    } else {
      forall x | x in p[..n] ensures Free(x, c) {
        assert x in p;
      }
      SplitJoin(p[..n], c);
      SplitLast(Join(p[..n], c), c, p[n]);
    }
  }

  /** Joining what was split gives the sequence back, and no piece holds a separator. */
  lemma {:induction false} JoinSplit<T>(s: seq<T>, c: T)
    ensures Join(Split(s, c), c) == s
    ensures forall x :: x in Split(s, c) ==> Free(x, c)
  {
    if s != [] {
      var n := |s| - 1;
      var r := Split(s[..n], c);
      var k := |r| - 1;
      JoinSplit(s[..n], c);
      assert r[k] in r;
      if s[n] == c {
        assert (r + [[]])[..|r|] == r;
        assert s == s[..n] + [c] + [];
      } else {
        var t := r[..k] + [r[k] + [s[n]]];
        assert t[..k] == r[..k];
        assert s == s[..n] + [s[n]];
        if k > 0 {
          assert Join(r[..k], c) + [c] + (r[k] + [s[n]]) == (Join(r[..k], c) + [c] + r[k]) + [s[n]];
        }
        forall x | x in t ensures Free(x, c) {
          assert x in r[..k] ==> x in r;
        }
      }
    }
  }

  // ----- two pieces and a separator -----

  function Pair<T>(a: seq<T>, c: T, b: seq<T>): seq<T> {
    a + [c] + b
  }

  lemma ShorterFirst<T>(a: seq<T>, b: seq<T>, c: T, x: seq<T>, y: seq<T>) returns (z: seq<T>)
    requires Pair(a, c, x) == Pair(b, c, y) && |a| < |b|
    ensures b == Pair(a, c, z)
  {
    var k := Pair(a, c, x);
    assert k[..|b|] == b && k[..|a|] == a && k[|a|] == c;
    z := b[|a| + 1..];
    assert b == Pair(a, c, z);
  }

  lemma PairParts<T>(a: seq<T>, b: seq<T>, c: T, x: seq<T>, y: seq<T>)
    requires Pair(a, c, x) == Pair(b, c, y) && |a| == |b|
    ensures a == b && x == y
  {
    var k := Pair(a, c, x);
    assert a == k[..|a|] == b && x == k[|a| + 1..] == y;
  }

  /** Joined pairs tell their two parts, for a set of first parts, exactly when none of these is another one
      followed by the separator and more. */
  lemma PairsInjective<T(!new)>(firsts: set<seq<T>>, c: T)
    ensures (forall a, b, x, y :: a in firsts && b in firsts && Pair(a, c, x) == Pair(b, c, y) ==> a == b && x == y)
            <==> (forall a, b, x :: a in firsts && b in firsts ==> a != Pair(b, c, x))
  {
    hide Pair;
    if a, b, x :| a in firsts && b in firsts && a == Pair(b, c, x) {
      PairOfPair(b, c, x);
    } else {
      forall a, b, x, y | a in firsts && b in firsts && Pair(a, c, x) == Pair(b, c, y) ensures a == b && x == y {
        if |a| == |b| {
          PairParts(a, b, c, x, y);
        } else if |a| < |b| {
          var z := ShorterFirst(a, b, c, x, y);
        } else {
          var z := ShorterFirst(b, a, c, y, x);
        }
      }
    }
  }

  lemma PairOfPair<T>(b: seq<T>, c: T, x: seq<T>)
    ensures Pair(Pair(b, c, x), c, []) == Pair(b, c, x + [c]) && Pair(b, c, x) != b
  {
    assert |Pair(b, c, x)| > |b|;
  }

  /** So they do for first parts without the separator. */
  lemma PairFree<T>(a: seq<T>, b: seq<T>, c: T, x: seq<T>, y: seq<T>)
    requires Free(a, c) && Free(b, c)
    ensures Pair(a, c, x) == Pair(b, c, y) <==> a == b && x == y
  {
    if Pair(a, c, x) == Pair(b, c, y) {
      if |a| == |b| {
        PairParts(a, b, c, x, y);
      } else if |a| < |b| {
        var z := ShorterFirst(a, b, c, x, y);
      } else {
        var z := ShorterFirst(b, a, c, y, x);
      }
    }
  }
}
