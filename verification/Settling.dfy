/** When a cached answer survives a change of the table it came from (fast_router.v, router.v). A table is any
    list; `ans` is what an entry answers to one request, `score` what the table is sorted by. */
module Settling {
  import opened Options
  import opened Sorting

  /** The first answer of the table. */
  ghost function First<T, A>(s: seq<T>, ans: T -> Option<A>): Option<A> {
    if s == [] then None else if ans(s[0]).Some? then ans(s[0]) else First(s[1..], ans)
  }

  ghost predicate Answers<T, A>(s: seq<T>, ans: T -> Option<A>) {
    exists i :: 0 <= i < |s| && ans(s[i]).Some?
  }

  /** No entry of the table that answers has a smaller score. */
  ghost predicate Least<T, A>(all: seq<T>, ans: T -> Option<A>, score: T -> int, i: nat) {
    i < |all| && ans(all[i]).Some? && forall j :: 0 <= j < |all| && ans(all[j]).Some? ==> score(all[i]) <= score(all[j])
  }

  /** Among the entries that answer, all of least score answer `m`: no order of ties makes a difference. */
  ghost predicate Settled<T, A>(all: seq<T>, ans: T -> Option<A>, score: T -> int, m: A) {
    Answers(all, ans) && forall i: nat :: Least(all, ans, score, i) ==> ans(all[i]) == Some(m)
  }

  lemma {:induction false} FirstAt<T, A>(s: seq<T>, ans: T -> Option<A>, i: nat)
    requires i < |s| && ans(s[i]).Some? && forall j :: 0 <= j < i ==> ans(s[j]) == None
    ensures First(s, ans) == ans(s[i])
  {
    if i > 0 {
      FirstAt(s[1..], ans, i - 1);
    }
  }

  lemma {:induction false} FirstSame<T, A>(s: seq<T>, f: T -> Option<A>, g: T -> Option<A>)
    requires forall i :: 0 <= i < |s| ==> f(s[i]) == g(s[i])
    ensures First(s, f) == First(s, g)
  {
    if s != [] {
      FirstSame(s[1..], f, g);
    }
  }

  lemma {:induction false} FirstIs<T, A>(s: seq<T>, ans: T -> Option<A>) returns (i: nat)
    ensures if First(s, ans).Some? then i < |s| && ans(s[i]) == First(s, ans) && forall j :: 0 <= j < i ==> ans(s[j]) == None
            else forall j :: 0 <= j < |s| ==> ans(s[j]) == None
  {
    i := 0;
    if s != [] && ans(s[0]) == None {
      i := FirstIs(s[1..], ans);
      i := i + 1;
      assert forall j :: 1 <= j < |s| ==> s[j] == s[1..][j - 1];
    }
  }

  /** In every sorted order of a settled table the first answer is `m`. */
  lemma SettledGood<T, A>(all: seq<T>, ans: T -> Option<A>, score: T -> int, m: A, t: seq<T>)
    requires Settled(all, ans, score, m) && Ordered(t, score) && multiset(t) == multiset(all)
    ensures First(t, ans) == Some(m)
  {
    var i := FirstIs(t, ans);
    var k :| 0 <= k < |all| && ans(all[k]).Some?;
    var h := SameMember(all, t, k);
    var g := SameMember(t, all, i);
    forall j | 0 <= j < |all| && ans(all[j]).Some? ensures score(all[g]) <= score(all[j]) {
      var e := SameMember(all, t, j);
    }
    assert Least(all, ans, score, g);
  }

  /** And if the table is not settled, some sorted order gives another first answer, or none. */
  lemma UnsettledBad<T, A>(all: seq<T>, ans: T -> Option<A>, score: T -> int, m: A) returns (t: seq<T>)
    requires !Settled(all, ans, score, m)
    ensures Ordered(t, score) && multiset(t) == multiset(all) && First(t, ans) != Some(m)
  {
    if Answers(all, ans) {
      var i: nat :| Least(all, ans, score, i) && ans(all[i]) != Some(m);
      var j;
      t, j := SortedFirst(all, score, i);
      forall h | 0 <= h < j ensures ans(t[h]) == None {
        var g := SameMember(t, all, h);
      }
      FirstAt(t, ans, j);
    } else {
      t := SortedSome(all, score);
      var i := FirstIs(t, ans);
      if First(t, ans).Some? {
        var g := SameMember(t, all, i);
      }
    }
  }

  /** The answer survives every sort of the table if and only if the table is settled. */
  lemma SettledExact<T(!new), A(!new)>(all: seq<T>, ans: T -> Option<A>, score: T -> int, m: A)
    ensures (forall t: seq<T> :: Ordered(t, score) && multiset(t) == multiset(all) ==> First(t, ans) == Some(m))
            <==> Settled(all, ans, score, m)
  {
    if Settled(all, ans, score, m) {
      forall t: seq<T> | Ordered(t, score) && multiset(t) == multiset(all) ensures First(t, ans) == Some(m) {
        SettledGood(all, ans, score, m, t);
      }
    } else {
      var t := UnsettledBad(all, ans, score, m);
    }
  }

  /** An entry put in at one place changes the first answer unless an entry before it answers, or it does not,
      or it answers the same as those after it. */
  lemma {:induction false} InsertExact<T, A>(s: seq<T>, i: nat, r: T, ans: T -> Option<A>)
    requires i <= |s|
    ensures First(s[..i] + [r] + s[i..], ans) == First(s, ans)
            <==> First(s[..i], ans).Some? || ans(r) == None || ans(r) == First(s[i..], ans)
  {
    FirstOf(s[..i], s[i..], ans);
    FirstOf(s[..i], [r] + s[i..], ans);
    assert s == s[..i] + s[i..] && s[..i] + [r] + s[i..] == s[..i] + ([r] + s[i..]);
    assert ([r] + s[i..])[1..] == s[i..];
  }

  lemma {:induction false} FirstOf<T, A>(a: seq<T>, b: seq<T>, ans: T -> Option<A>)
    ensures First(a + b, ans) == if First(a, ans).Some? then First(a, ans) else First(b, ans)
  {
    if a == [] {
      assert a + b == b;
    } else {
      assert (a + b)[1..] == a[1..] + b;
      FirstOf(a[1..], b, ans);
    }
  }
}
