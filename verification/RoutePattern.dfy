/** Patterns made of whole segments: what a match with its parameters means (fast_router.v, router.v). */
module RoutePattern {
  import opened Options
  import opened RouteModel
  import opened Splitting

  datatype Seg = Literal(text: string) | Param(name: string)

  /** A pattern as its segments. */
  type Pattern = p: seq<Seg> | p != [] witness [Literal("")]

  ghost predicate Fits(s: Seg, x: string) {
    match s
    case Literal(t) => x == t
    case Param(_) => x != ""
  }

  /** Segment by segment: literals are equal, parameters take a non-empty segment. */
  ghost predicate Matches(p: Pattern, path: string) {
    var x := Split(path, '/');
    |x| == |p| && forall i :: 0 <= i < |p| ==> Fits(p[i], x[i])
  }

  ghost predicate DistinctNames(p: Pattern) {
    forall i, j :: 0 <= i < j < |p| && p[i].Param? && p[j].Param? ==> p[i].name != p[j].name
  }

  ghost predicate HasParam(p: seq<Seg>, n: string) {
    exists i :: 0 <= i < |p| && p[i] == Param(n)
  }

  /** The named groups, read one by one; a later group of the same name would overwrite. */
  ghost function Groups(p: seq<Seg>, x: seq<string>): map<string, string>
    requires |p| == |x|
  {
    if p == [] then map[]
    else
      var n := |p| - 1;
      var m := Groups(p[..n], x[..n]);
      if p[n].Param? then m[p[n].name := x[n]] else m
  }

  /** The pattern with its parameters replaced. */
  ghost function Filled(p: seq<Seg>, m: map<string, string>): seq<string>
    requires forall i :: 0 <= i < |p| && p[i].Param? ==> p[i].name in m
  {
    seq(|p|, i requires 0 <= i < |p| => if p[i].Param? then m[p[i].name] else p[i].text)
  }

  ghost function Subst(p: Pattern, m: map<string, string>): string
    requires forall i :: 0 <= i < |p| && p[i].Param? ==> p[i].name in m
  {
    Join(Filled(p, m), '/')
  }

  lemma {:induction false} GroupsHave(p: seq<Seg>, x: seq<string>)
    requires |p| == |x|
    ensures forall n :: n in Groups(p, x) <==> HasParam(p, n)
  {
    if p != [] {
      var n := |p| - 1;
      GroupsHave(p[..n], x[..n]);
      assert p == p[..n] + [p[n]];
      forall k | HasParam(p, k) ensures HasParam(p[..n], k) || p[n] == Param(k) {
        var i :| 0 <= i < |p| && p[i] == Param(k);
        assert i < n ==> p[..n][i] == Param(k);
      }
      forall k | HasParam(p[..n], k) ensures HasParam(p, k) {
        var i :| 0 <= i < n && p[..n][i] == Param(k);
        assert p[i] == Param(k);
      }
    }
  }

  lemma {:induction false} GroupsAt(p: seq<Seg>, x: seq<string>, i: nat)
    requires |p| == |x| && i < |p| && p[i].Param?
    requires forall h, j :: 0 <= h < j < |p| && p[h].Param? && p[j].Param? ==> p[h].name != p[j].name
    ensures p[i].name in Groups(p, x) && Groups(p, x)[p[i].name] == x[i]
  {
    var n := |p| - 1;
    if i < n {
      GroupsAt(p[..n], x[..n], i);
    }
  }

  /** Putting the extracted parameters back into the pattern gives the path. */
  lemma SubstGroups(p: Pattern, path: string)
    requires Matches(p, path) && DistinctNames(p)
    ensures var m := Groups(p, Split(path, '/'));
            && (forall n :: n in m <==> HasParam(p, n))
            && (forall n :: n in m ==> m[n] != "" && '/' !in m[n])
            && Subst(p, m) == path
  {
    var x := Split(path, '/');
    var m := Groups(p, x);
    GroupsHave(p, x);
    JoinSplit(path, '/');
    forall i | 0 <= i < |p| && p[i].Param? ensures p[i].name in m && m[p[i].name] == x[i] {
      GroupsAt(p, x, i);
    }
    assert Filled(p, m) == x;
    forall n | n in m ensures m[n] != "" && '/' !in m[n] {
      var i :| 0 <= i < |p| && p[i] == Param(n);
      assert Fits(p[i], x[i]) && x[i] in x && Free(x[i], '/');
    }
  }

  ghost predicate Values(p: Pattern, m: map<string, string>) {
    && (forall i :: 0 <= i < |p| && p[i].Param? ==> p[i].name in m)
    && (forall n :: n in m ==> HasParam(p, n) && m[n] != "" && '/' !in m[n])
  }

  /** A path matches exactly when it is the pattern with some values for the parameters, and extraction gives
      those values: no others produce the path. */
  lemma MatchesExact(p: Pattern, path: string)
    requires DistinctNames(p) && forall i :: 0 <= i < |p| && p[i].Literal? ==> '/' !in p[i].text
    ensures Matches(p, path) <==> exists m :: Values(p, m) && Subst(p, m) == path
    ensures forall m :: Values(p, m) && Subst(p, m) == path ==> m == Groups(p, Split(path, '/'))
  {
    if Matches(p, path) {
      SubstGroups(p, path);
      var m := Groups(p, Split(path, '/'));
      forall i | 0 <= i < |p| && p[i].Param? ensures p[i].name in m {
        assert HasParam(p, p[i].name);
      }
      assert Values(p, m);
    }
    forall m | Values(p, m) && Subst(p, m) == path ensures Matches(p, path) && m == Groups(p, Split(path, '/')) {
      FilledMatches(p, m);
    }
  }

  lemma FilledMatches(p: Pattern, m: map<string, string>)
    requires DistinctNames(p) && (forall i :: 0 <= i < |p| && p[i].Literal? ==> '/' !in p[i].text) && Values(p, m)
    ensures Matches(p, Subst(p, m)) && m == Groups(p, Split(Subst(p, m), '/'))
  {
    hide Split, Join, Groups, DistinctNames;
    var x := Filled(p, m);
    forall y | y in x ensures Free(y, '/') {
      var i :| 0 <= i < |x| && x[i] == y;
      assert p[i].Param? ==> HasParam(p, p[i].name);
    }
    SplitJoin(x, '/');
    forall i | 0 <= i < |p| ensures Fits(p[i], x[i]) {
      assert p[i].Param? ==> HasParam(p, p[i].name);
    }
    FilledGroups(p, m);
  }

  lemma FilledGroups(p: Pattern, m: map<string, string>)
    requires DistinctNames(p) && Values(p, m)
    ensures Groups(p, Filled(p, m)) == m
  {
    hide Groups;
    var x := Filled(p, m);
    var g := Groups(p, x);
    GroupsHave(p, x);
    forall n | n in g ensures n in m && m[n] == g[n] {
      var i :| 0 <= i < |p| && p[i] == Param(n);
      GroupsAt(p, x, i);
    }
    assert g.Keys == m.Keys;
  }

  // ----- the text of a route -----

  predicate IsNameStart(c: char) {
    'a' <= c <= 'z' || 'A' <= c <= 'Z' || c == '_'
  }

  /** A parameter name, as the routers look for it. */
  predicate IsName(n: string) {
    n != "" && IsNameStart(n[0]) && forall i :: 0 <= i < |n| ==> IsNameStart(n[i]) || '0' <= n[i] <= '9'
  }

  /** A segment that is a parameter, or text without a colon, a wildcard or a backslash. */
  predicate WholeSegment(x: string) {
    if x != "" && x[0] == ':' then IsName(x[1..]) else ':' !in x && '*' !in x && '\\' !in x
  }

  /** The segments of a route path made of whole segments. */
  ghost function PatternOf(text: string): (p: Pattern)
    ensures |p| == |Split(text, '/')|
  {
    var x := Split(text, '/');
    seq(|x|, i requires 0 <= i < |x| => if x[i] != "" && x[i][0] == ':' then Param(x[i][1..]) else Literal(x[i]))
  }

  /** Whole segments, and no parameter name twice. */
  ghost predicate WholePattern(text: string) {
    (forall x :: x in Split(text, '/') ==> WholeSegment(x)) && DistinctNames(PatternOf(text))
  }

  /** A path matches the text of a route if and only if it is the pattern with some parameter values, and those
      are the ones extracted. */
  lemma RouteExact(text: string, path: string)
    requires WholePattern(text)
    ensures var p := PatternOf(text);
            && (Matches(p, path) <==> exists m :: Values(p, m) && Subst(p, m) == path)
            && (Matches(p, path) ==> var m := Groups(p, Split(path, '/')); Values(p, m) && Subst(p, m) == path)
            && (forall m :: Values(p, m) && Subst(p, m) == path ==> m == Groups(p, Split(path, '/')))
  {
    hide Split, Join, Groups, DistinctNames, Matches, Subst, WholeSegment;
    var p := PatternOf(text);
    JoinSplit(text, '/');
    forall i | 0 <= i < |p| && p[i].Literal? ensures '/' !in p[i].text {
      assert Split(text, '/')[i] in Split(text, '/');
    }
    MatchesExact(p, path);
    if Matches(p, path) {
      SubstGroups(p, path);
      ParamsNamed(p);
    }
  }

  lemma ParamsNamed(p: Pattern)
    ensures forall i :: 0 <= i < |p| && p[i].Param? ==> HasParam(p, p[i].name)
  {
  }

  // ----- the engine -----

  ghost function NamesOf(p: seq<Seg>): seq<string> {
    if p == [] then [] else NamesOf(p[..|p| - 1]) + if p[|p| - 1].Param? then [p[|p| - 1].name] else []
  }

  lemma {:induction false} NamesHave(p: seq<Seg>)
    ensures forall n :: n in NamesOf(p) <==> HasParam(p, n)
  {
    if p != [] {
      var k := |p| - 1;
      NamesHave(p[..k]);
      assert p == p[..k] + [p[k]];
      forall n | HasParam(p, n) ensures HasParam(p[..k], n) || p[k] == Param(n) {
        var i :| 0 <= i < |p| && p[i] == Param(n);
        assert i < k ==> p[..k][i] == Param(n);
      }
      forall n | HasParam(p[..k], n) ensures HasParam(p, n) {
        var i :| 0 <= i < k && p[..k][i] == Param(n);
        assert p[i] == Param(n);
      }
    }
  }

  /** The compiled expression and the names stand for the pattern of the text. */
  ghost predicate Means<R>(e: Engine<R>, text: string, r: R, names: seq<string>) {
    var p := PatternOf(text);
    && names == NamesOf(p)
    && forall path ::
      && (e.matches(r, path) <==> Matches(p, path))
      && (Matches(p, path) ==> GroupsRight(e, p, r, names, path))
  }

  ghost predicate GroupsRight<R>(e: Engine<R>, p: Pattern, r: R, names: seq<string>, path: string) {
    |Split(path, '/')| == |p|
    && var g := Groups(p, Split(path, '/')); forall n :: n in names ==> n in g && e.group(r, path, n) == g[n]
  }

  /** The engine gives route texts of whole segments their meaning. */
  ghost predicate Faithful<R>(e: Engine<R>) {
    forall text :: WholePattern(text) && e.compileNamed(text).Some? ==> Means(e, text, e.compileNamed(text).value, e.names(text))
  }

  /** Putting the parameters of an answer back into the pattern gives the path. */
  ghost predicate GivesPath(m: Match, path: string) {
    var p := PatternOf(m.path);
    Values(p, m.params) && Subst(p, m.params) == path
  }

  lemma ParamsAre<R>(e: Engine<R>, text: string, r: R, names: seq<string>, path: string)
    requires Means(e, text, r, names) && e.matches(r, path)
    ensures Matches(PatternOf(text), path)
    ensures ParamsOf(e, r, names, path) == Groups(PatternOf(text), Split(path, '/'))
  {
    hide Split, Groups, Matches, NamesOf, PatternOf;
    var p := PatternOf(text);
    NamesHave(p);
    assert Matches(p, path);
    assert GroupsRight(e, p, r, names, path);
    GroupsHave(p, Split(path, '/'));
  }

  /** An expression compiled from whole segments matches exactly the paths that are the pattern with some
      parameter values, and the parameters read off it put back give the path. */
  lemma CompiledExact<R>(e: Engine<R>, text: string, h: Handler, path: string)
    requires Faithful(e) && WholePattern(text) && e.compileNamed(text).Some?
    ensures var (r, p) := (e.compileNamed(text).value, PatternOf(text));
            && (e.matches(r, path) <==> exists m :: Values(p, m) && Subst(p, m) == path)
            && (e.matches(r, path) ==> GivesPath(Match(h, ParamsOf(e, r, e.names(text), path), text), path))
  {
    hide WholePattern, PatternOf, Values, Subst, Matches;
    RouteExact(text, path);
    var r := e.compileNamed(text).value;
    assert Means(e, text, r, e.names(text));
    if e.matches(r, path) {
      ParamsAre(e, text, r, e.names(text), path);
    }
  }

  /** Such an engine is possible: one that takes the pattern at its word. */
  lemma FaithfulExists() returns (e: Engine<string>)
    ensures Faithful(e) && forall text :: e.compileNamed(text) == Some(text)
  {
    e := Engine((t: string) => Some(t), (t: string) => Some(t), (t: string) => Some(t), (t: string) => NamesOf(PatternOf(t)),
                (r: string, path: string) => Matches(PatternOf(r), path), (r: string, path: string, n: string) => GroupAt(r, path, n));
    forall text: string, path: string | Matches(PatternOf(text), path)
      ensures GroupsRight(e, PatternOf(text), text, NamesOf(PatternOf(text)), path)
    {
      NamesHave(PatternOf(text));
      GroupsHave(PatternOf(text), Split(path, '/'));
    }
    hide Matches, NamesOf, Split;
    assert forall text: string :: Means(e, text, text, e.names(text));
  }

  ghost function GroupAt(text: string, path: string, n: string): string {
    var (p, x) := (PatternOf(text), Split(path, '/'));
    if |p| == |x| && n in Groups(p, x) then Groups(p, x)[n] else ""
  }
}
