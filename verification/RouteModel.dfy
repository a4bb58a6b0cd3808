/** Routes, and what matching a path against them means (fast_router.v, router.v). */
module RouteModel {
  import opened Options
  import opened Settling
  import opened Sorting
  import opened Splitting

  datatype Handler = Handler(path: string, id: int)

  datatype Match = Match(handler: Handler, params: map<string, string>, path: string)

  /** The regular-expression engine. The three compile functions include the rewriting of the
      pattern text; compiling may fail. */
  datatype Engine<!R> = Engine(
    compileDoubleStar: string -> Option<R>,
    compileStar: string -> Option<R>,
    compileNamed: string -> Option<R>,
    names: string -> seq<string>,
    matches: (R, string) -> bool,
    group: (R, string, string) -> string)

  datatype Route<R> = Route(verb: string, pattern: string, regex: R, names: seq<string>, handler: Handler, complexity: int)

  ghost function ParamsOf<R>(e: Engine<R>, r: R, names: seq<string>, path: string): map<string, string> {
    map n | n in names :: e.group(r, path, n)
  }

  /** The loop that reads the parameters off a matching expression. */
  method ExtractParams<R>(e: Engine<R>, r: R, names: seq<string>, path: string) returns (params: map<string, string>)
    ensures params == ParamsOf(e, r, names, path)
  {
    params := map[];
    for i := 0 to |names|
      invariant params == ParamsOf(e, r, names[..i], path)
    {
      params := params[names[i] := e.group(r, path, names[i])];
    }
    assert names[..|names|] == names;
  }

  /** What one route answers to a request. */
  ghost function Answer<R>(e: Engine<R>, r: Route<R>, verb: string, path: string): Option<Match> {
    if r.verb == verb && e.matches(r.regex, path)
    then Some(Match(r.handler, ParamsOf(e, r.regex, r.names, path), r.pattern))
    else None
  }

  ghost function Answering<R>(e: Engine<R>, verb: string, path: string): Route<R> -> Option<Match> {
    (r: Route<R>) => Answer(e, r, verb, path)
  }

  /** The plain scan: the first route that answers. */
  ghost function Scan<R>(e: Engine<R>, routes: seq<Route<R>>, verb: string, path: string): Option<Match> {
    First(routes, Answering(e, verb, path))
  }

  lemma ScanFirst<R>(e: Engine<R>, routes: seq<Route<R>>, verb: string, path: string) returns (i: nat)
    requires Scan(e, routes, verb, path).Some?
    ensures i < |routes| && Answer(e, routes[i], verb, path) == Scan(e, routes, verb, path)
    ensures forall j :: 0 <= j < i ==> Answer(e, routes[j], verb, path) == None
  {
    hide First, Answer;
    i := FirstIs(routes, Answering(e, verb, path));
    assert forall j :: 0 <= j < i ==> Answering(e, verb, path)(routes[j]) == None;
  }

  lemma ScanNone<R>(e: Engine<R>, routes: seq<Route<R>>, verb: string, path: string)
    ensures Scan(e, routes, verb, path) == None <==> forall j :: 0 <= j < |routes| ==> Answer(e, routes[j], verb, path) == None
  {
    hide First, Answer;
    var i := FirstIs(routes, Answering(e, verb, path));
    if Scan(e, routes, verb, path) == None {
      assert forall j :: 0 <= j < |routes| ==> Answering(e, verb, path)(routes[j]) == None;
    }
  }

  /** The scan in the source's own terms: it answers if and only if some route has the method and its
      expression matches, and then from the first such route, with its pattern and all its named groups. */
  lemma ScanIs<R>(e: Engine<R>, routes: seq<Route<R>>, verb: string, path: string)
    ensures Scan(e, routes, verb, path).Some?
            <==> exists i :: 0 <= i < |routes| && routes[i].verb == verb && e.matches(routes[i].regex, path)
    ensures forall i :: 0 <= i < |routes| && routes[i].verb == verb && e.matches(routes[i].regex, path)
                        && (forall j :: 0 <= j < i ==> !(routes[j].verb == verb && e.matches(routes[j].regex, path))) ==>
              Scan(e, routes, verb, path) ==
              Some(Match(routes[i].handler, map n | n in routes[i].names :: e.group(routes[i].regex, path, n), routes[i].pattern))
  {
    hide First, ParamsOf;
    var f := Answering(e, verb, path);
    var k := FirstIs(routes, f);
    forall i | 0 <= i < |routes| ensures AnswerIs(e, routes[i], verb, path, f(routes[i])) {
    }
    hide Answer;
    forall i | 0 <= i < |routes| && routes[i].verb == verb && e.matches(routes[i].regex, path)
               && (forall j :: 0 <= j < i ==> !(routes[j].verb == verb && e.matches(routes[j].regex, path)))
      ensures Scan(e, routes, verb, path) ==
              Some(Match(routes[i].handler, map n | n in routes[i].names :: e.group(routes[i].regex, path, n), routes[i].pattern))
    {
      FirstAt(routes, f, i);
      GroupsRead(e, routes[i].regex, routes[i].names, path);
    }
  }

  ghost predicate AnswerIs<R>(e: Engine<R>, r: Route<R>, verb: string, path: string, a: Option<Match>) {
    a == if r.verb == verb && e.matches(r.regex, path) then Some(Match(r.handler, ParamsOf(e, r.regex, r.names, path), r.pattern))
         else None
  }

  lemma GroupsRead<R>(e: Engine<R>, r: R, names: seq<string>, path: string)
    ensures ParamsOf(e, r, names, path) == map n | n in names :: e.group(r, path, n)
  {
  }

  /** No route answers a request of another method. */
  lemma OtherMethod<R>(e: Engine<R>, routes: seq<Route<R>>, verb: string, path: string)
    requires forall i :: 0 <= i < |routes| ==> routes[i].verb != verb
    ensures Scan(e, routes, verb, path) == None
  {
    ScanIs(e, routes, verb, path);
  }

  /** A route added at the end changes no answer that the others already give. */
  lemma ScanAppend<R>(e: Engine<R>, routes: seq<Route<R>>, more: seq<Route<R>>, verb: string, path: string)
    ensures Scan(e, routes + more, verb, path) ==
            if Scan(e, routes, verb, path).Some? then Scan(e, routes, verb, path) else Scan(e, more, verb, path)
  {
    FirstOf(routes, more, Answering(e, verb, path));
  }

  // ----- order by complexity -----

  ghost predicate Sorted<R>(routes: seq<Route<R>>) {
    forall i, j :: 0 <= i < j < |routes| ==> routes[i].complexity <= routes[j].complexity
  }

  /** In a sorted table the answer comes from a route of least complexity among all that match. */
  lemma LeastComplex<R>(e: Engine<R>, routes: seq<Route<R>>, verb: string, path: string) returns (i: nat)
    requires Sorted(routes) && Scan(e, routes, verb, path).Some?
    ensures i < |routes| && Answer(e, routes[i], verb, path) == Scan(e, routes, verb, path)
    ensures forall j :: 0 <= j < |routes| && Answer(e, routes[j], verb, path).Some? ==> routes[i].complexity <= routes[j].complexity
  {
    i := ScanFirst(e, routes, verb, path);
  }

  /** Two sorted tables of the same routes answer the same requests, from routes of equal complexity:
      the order of registration does not matter. */
  lemma OrderIrrelevant<R>(e: Engine<R>, s: seq<Route<R>>, t: seq<Route<R>>, verb: string, path: string)
    requires Sorted(s) && Sorted(t) && multiset(s) == multiset(t)
    ensures Scan(e, s, verb, path) == None <==> Scan(e, t, verb, path) == None
    ensures Scan(e, s, verb, path) != None ==>
              exists i, j :: 0 <= i < |s| && 0 <= j < |t| && s[i].complexity == t[j].complexity
                             && Answer(e, s[i], verb, path) == Scan(e, s, verb, path)
                             && Answer(e, t[j], verb, path) == Scan(e, t, verb, path)
  {
    hide Scan, Sorted, Answer;
    if Scan(e, s, verb, path).Some? {
      var i, j := NoWorse(e, s, t, verb, path);
      var h, g := NoWorse(e, t, s, verb, path);
      assert s[i].complexity == t[h].complexity;
    } else if Scan(e, t, verb, path).Some? {
      var h, g := NoWorse(e, t, s, verb, path);
    }
  }

  lemma NoWorse<R>(e: Engine<R>, s: seq<Route<R>>, t: seq<Route<R>>, verb: string, path: string) returns (i: nat, j: nat)
    requires Sorted(s) && Sorted(t) && multiset(s) == multiset(t) && Scan(e, s, verb, path).Some?
    ensures i < |s| && Answer(e, s[i], verb, path) == Scan(e, s, verb, path)
    ensures Scan(e, t, verb, path).Some?
    ensures j < |t| && t[j] == s[i]
    ensures forall h :: 0 <= h < |t| && Answer(e, t[h], verb, path).Some? ==> s[i].complexity <= t[h].complexity
  {
    hide Scan, Sorted, Answer;
    i := LeastComplex(e, s, verb, path);
    j := SameMember(s, t, i);
    ScanNone(e, t, verb, path);
    forall h | 0 <= h < |t| && Answer(e, t[h], verb, path).Some? ensures s[i].complexity <= t[h].complexity {
      var g := SameMember(t, s, h);
    }
  }

  // ----- cache keys -----

  function Key(verb: string, path: string): string {
    verb + ":" + path
  }

  ghost function FirstColon(k: string): (i: nat)
    ensures i <= |k| && ':' !in k[..i] && (i < |k| ==> k[i] == ':')
  {
    if k == "" || k[0] == ':' then 0
    else
      var i := FirstColon(k[1..]);
      assert k[..i + 1] == [k[0]] + k[1..][..i];
      i + 1
  }

  ghost function VerbOf(k: string): string {
    k[..FirstColon(k)]
  }

  ghost function PathOf(k: string): string {
    if FirstColon(k) < |k| then k[FirstColon(k) + 1..] else ""
  }

  /** A key tells its request when the method has no colon, as no token of HTTP has. */
  lemma KeyTells(verb: string, path: string)
    requires ':' !in verb
    ensures VerbOf(Key(verb, path)) == verb && PathOf(Key(verb, path)) == path
  {
    var k := Key(verb, path);
    var i := FirstColon(k);
    assert k[|verb|] == ':' && forall j :: 0 <= j < |verb| ==> k[j] == verb[j];
    assert forall j :: 0 <= j < i ==> k[j] == k[..i][j];
    assert i == |verb|;
    assert k[..i] == verb && k[i + 1..] == path;
  }

  /** Keys are unambiguous for a set of methods exactly when no method is another one followed by a colon
      and more. */
  lemma KeysInjective(verbs: set<string>)
    ensures (forall v, w, p, q :: v in verbs && w in verbs && Key(v, p) == Key(w, q) ==> v == w && p == q)
            <==> (forall v, w, x :: v in verbs && w in verbs ==> v != Key(w, x))
  {
    assert forall v, p :: Key(v, p) == Pair(v, ':', p);
    PairsInjective(verbs, ':');
    hide Key, Pair;
  }
}
