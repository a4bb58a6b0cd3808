/** The complexity score that orders routes (fast_router.v, router.v). */
module Complexity {
  import opened Splitting

  const SPECIAL: seq<char> := ['?', '+', '.', '(', ')', '[', ']', '{', '}', '^', '$', '|']

  /** What one character adds. */
  function Weight(c: char): int {
    if c == ':' then 10 else if c == '*' then 20 else if c == '/' then 1 else if c in SPECIAL then 5 else 0
  }

  /** The score: one for the first segment, and the weight of every character. */
  function Score(path: string): int
    decreases |path|
  {
    if path == "" then 1 else Score(path[..|path| - 1]) + Weight(path[|path| - 1])
  }

  /** V's string.count for one character. */
  function Count(s: string, c: char): nat
    decreases |s|
  {
    if s == "" then 0 else Count(s[..|s| - 1], c) + if s[|s| - 1] == c then 1 else 0
  }

  ghost function Specials(s: string, n: nat): nat
    requires n <= |SPECIAL|
  {
    if n == 0 then 0 else Specials(s, n - 1) + Count(s, SPECIAL[n - 1])
  }

  lemma {:induction false} SpecialsStep(s: string, n: nat)
    requires s != "" && n <= |SPECIAL|
    ensures Specials(s, n) == Specials(s[..|s| - 1], n) + if s[|s| - 1] in SPECIAL[..n] then 1 else 0
  {
    if n > 0 {
      SpecialsStep(s, n - 1);
      assert SPECIAL[..n] == SPECIAL[..n - 1] + [SPECIAL[n - 1]];
      assert SPECIAL[n - 1] !in SPECIAL[..n - 1];
    }
  }

  lemma {:induction false} ScoreIs(s: string)
    ensures Score(s) == Count(s, ':') * 10 + Count(s, '*') * 20 + |Split(s, '/')| + Specials(s, |SPECIAL|) * 5
    decreases |s|
  {
    if s == "" {
      NoSpecials(|SPECIAL|);
    } else {
      ScoreIs(s[..|s| - 1]);
      SpecialsStep(s, |SPECIAL|);
      assert SPECIAL[..|SPECIAL|] == SPECIAL;
    }
  }

  /** The twelve special characters, counted one by one. */
  lemma SpecialsAre(s: string)
    ensures Specials(s, |SPECIAL|) ==
            Count(s, '?') + Count(s, '+') + Count(s, '.') + Count(s, '(') + Count(s, ')') + Count(s, '[') + Count(s, ']')
            + Count(s, '{') + Count(s, '}') + Count(s, '^') + Count(s, '$') + Count(s, '|')
  {
    hide Count;
    assert Specials(s, 0) == 0;
    assert Specials(s, 2) == Count(s, '?') + Count(s, '+');
    assert Specials(s, 4) == Specials(s, 2) + Count(s, '.') + Count(s, '(');
    assert Specials(s, 6) == Specials(s, 4) + Count(s, ')') + Count(s, '[');
    assert Specials(s, 8) == Specials(s, 6) + Count(s, ']') + Count(s, '{');
    assert Specials(s, 10) == Specials(s, 8) + Count(s, '}') + Count(s, '^');
    assert Specials(s, 12) == Specials(s, 10) + Count(s, '$') + Count(s, '|');
  }

  lemma {:induction false} NoSpecials(n: nat)
    requires n <= |SPECIAL|
    ensures Specials("", n) == 0
  {
    if n > 0 {
      NoSpecials(n - 1);
    }
  }

  method Calculate(path: string) returns (score: int)
    ensures score == Score(path)
  {
    score := 0;
    score := score + Count(path, ':') * 10;
    score := score + Count(path, '*') * 20;
    score := score + |Split(path, '/')|;
    for i := 0 to |SPECIAL|
      invariant score == Count(path, ':') * 10 + Count(path, '*') * 20 + |Split(path, '/')| + Specials(path, i) * 5
    {
      score := score + Count(path, SPECIAL[i]) * 5;
    }
    ScoreIs(path);
  }
}
