/** The library sort, by insertion. Callers rely only on an ordered permutation: V's sort need not be stable. */
module Sorting {

  ghost predicate Ordered<T>(s: seq<T>, score: T -> int) {
    forall i, j :: 0 <= i < j < |s| ==> score(s[i]) <= score(s[j])
  }

  method SortBy<T>(s: seq<T>, score: T -> int) returns (r: seq<T>)
    ensures Ordered(r, score) && multiset(r) == multiset(s)
  {
    hide Ordered;
    r := [];
    EmptyOrdered(score);
    for i := 0 to |s|
      invariant Ordered(r, score) && multiset(r) == multiset(s[..i])
    {
      r := Insert(r, s[i], score);
      assert s[..i + 1] == s[..i] + [s[i]];
    }
    assert s[..|s|] == s;
  }

  method Insert<T>(s: seq<T>, x: T, score: T -> int) returns (r: seq<T>)
    requires Ordered(s, score)
    ensures Ordered(r, score) && multiset(r) == multiset(s) + multiset{x}
  {
    hide Ordered;
    var i := |s|;
    while i > 0 && score(x) < score(s[i - 1])
      invariant 0 <= i <= |s|
      invariant i < |s| ==> score(x) < score(s[i])
    {
      i := i - 1;
    }
    r := s[..i] + [x] + s[i..];
    InsertedOrdered(s, i, x, score);
    InsertedSame(s, i, x);
  }

  lemma EmptyOrdered<T>(score: T -> int)
    ensures Ordered([], score)
  {
  }

  lemma InsertedOrdered<T>(s: seq<T>, i: nat, x: T, score: T -> int)
    requires Ordered(s, score) && i <= |s|
    requires i > 0 ==> score(s[i - 1]) <= score(x)
    requires i < |s| ==> score(x) <= score(s[i])
    ensures Ordered(s[..i] + [x] + s[i..], score)
  {
    var r := s[..i] + [x] + s[i..];
    forall h, j | 0 <= h < j < |r| ensures score(r[h]) <= score(r[j]) {
    }
  }

  lemma InsertedSame<T>(s: seq<T>, i: nat, x: T)
    requires i <= |s|
    ensures multiset(s[..i] + [x] + s[i..]) == multiset(s) + multiset{x}
  {
    assert s == s[..i] + s[i..];
  }

  // ----- which orders the sort may give -----

  /** Where an element goes that comes before all others of its score. */
  lemma {:induction false} Spot<T>(r: seq<T>, score: T -> int, x: T) returns (j: nat)
    ensures j <= |r| && (j < |r| ==> score(x) <= score(r[j])) && forall h :: 0 <= h < j ==> score(r[h]) < score(x)
  {
    j := 0;
    while j < |r| && score(r[j]) < score(x)
      invariant 0 <= j <= |r| && forall h :: 0 <= h < j ==> score(r[h]) < score(x)
    {
      j := j + 1;
    }
  }

  lemma {:induction false} SortedSome<T>(s: seq<T>, score: T -> int) returns (t: seq<T>)
    ensures Ordered(t, score) && multiset(t) == multiset(s)
  {
    if s == [] {
      t := [];
    } else {
      var r := SortedSome(s[1..], score);
      var j := Spot(r, score, s[0]);
      t := r[..j] + [s[0]] + r[j..];
      InsertedOrdered(r, j, s[0], score);
      InsertedSame(r, j, s[0]);
      assert s == [s[0]] + s[1..];
    }
  }

  /** Some ordered permutation has the element at `i` before all others of its score. */
  lemma SortedFirst<T>(s: seq<T>, score: T -> int, i: nat) returns (t: seq<T>, j: nat)
    requires i < |s|
    ensures Ordered(t, score) && multiset(t) == multiset(s)
    ensures j < |t| && t[j] == s[i] && forall h :: 0 <= h < j ==> score(t[h]) < score(s[i])
  {
    hide Ordered;
    var (u, x) := (s[..i] + s[i + 1..], s[i]);
    var r := SortedSome(u, score);
    j := Spot(r, score, x);
    t := r[..j] + [x] + r[j..];
    InsertedOrdered(r, j, x, score);
    InsertedSame(r, j, x);
    TakenOut(s, i);
  }

  lemma TakenOut<T>(s: seq<T>, i: nat)
    requires i < |s|
    ensures multiset(s) == multiset(s[..i] + s[i + 1..]) + multiset{s[i]}
  {
    var u := s[..i] + s[i + 1..];
    assert u[..i] + [s[i]] + u[i..] == s;
    InsertedSame(u, i, s[i]);
  }

  lemma SameMember<T>(s: seq<T>, t: seq<T>, i: nat) returns (h: nat)
    requires multiset(s) == multiset(t) && i < |s|
    ensures h < |t| && t[h] == s[i]
  {
    assert multiset(s)[s[i]] > 0;
    assert s[i] in t;
    h :| h < |t| && t[h] == s[i];
  }
}
