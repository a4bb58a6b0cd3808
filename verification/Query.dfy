/** The two one-pass query scanners: parse_query_string_app (app.v) and parse_path_and_query
    (picoev_server.v), against a specification by splitting. */
module Query {
  import opened Splitting

  // ----- specification -----

  ghost function FirstEquals(p: string): (i: nat)
    ensures i <= |p| && '=' !in p[..i] && (i < |p| ==> p[i] == '=')
  {
    if p == [] || p[0] == '=' then 0
    else
      var i := FirstEquals(p[1..]);
      assert p[..i + 1] == [p[0]] + p[1..][..i];
      i + 1
  }

  /** One piece between separators: key and value around the first '='; pieces with an empty key
      count for nothing. */
  ghost function AddPiece(m: map<string, string>, p: string): map<string, string> {
    var i := FirstEquals(p);
    if i == 0 then m
    else m[p[..i] := if i < |p| then p[i + 1..] else ""]
  }

  /** All pieces, the last value of a key winning. */
  ghost function AddAll(ps: seq<string>): map<string, string> {
    if ps == [] then map[] else AddPiece(AddAll(ps[..|ps| - 1]), ps[|ps| - 1])
  }

  ghost function QueryMap(s: string): map<string, string> {
    AddAll(Split(s, '&'))
  }

  lemma FirstEqualsIs(p: string, i: nat)
    requires i <= |p| && '=' !in p[..i] && (i < |p| ==> p[i] == '=')
    ensures FirstEquals(p) == i
  {
    var j := FirstEquals(p);
    assert forall k :: 0 <= k < j ==> p[k] == p[..j][k];
    assert forall k :: 0 <= k < i ==> p[k] == p[..i][k];
  }

  /** A piece in the source's terms: `key=value` with anything but '&' in the value, a key alone, no key. */
  lemma PieceIs(m: map<string, string>, k: string, v: string)
    requires '=' !in k
    ensures k != "" ==> AddPiece(m, k + "=" + v) == m[k := v] && AddPiece(m, k) == m[k := ""]
    ensures AddPiece(m, "=" + v) == m && AddPiece(m, "") == m
  {
    hide FirstEquals;
    var p := k + "=" + v;
    assert p[..|k|] == k && p[|k|] == '=' && p[|k| + 1..] == v;
    FirstEqualsIs(p, |k|);
    assert k[..|k|] == k;
    FirstEqualsIs(k, |k|);
    FirstEqualsIs("=" + v, 0);
    FirstEqualsIs("", 0);
  }

  /** The map of a list of pairs, a later value replacing an earlier one. */
  ghost function PairMap(ps: seq<(string, string)>): map<string, string> {
    if ps == [] then map[] else PairMap(ps[..|ps| - 1])[ps[|ps| - 1].0 := ps[|ps| - 1].1]
  }

  ghost function Pieces(ps: seq<(string, string)>): seq<string> {
    seq(|ps|, i requires 0 <= i < |ps| => ps[i].0 + "=" + ps[i].1)
  }

  /** A query string written from pairs is read as their map: keys that are not empty and have no '=' and no '&',
      values without '&'. */
  lemma PairsRead(ps: seq<(string, string)>)
    requires ps != []
    requires forall i :: 0 <= i < |ps| ==> ps[i].0 != "" && '=' !in ps[i].0 && '&' !in ps[i].0 && '&' !in ps[i].1
    ensures QueryMap(Join(Pieces(ps), '&')) == PairMap(ps)
  {
    hide Split, Join;
    forall i | 0 <= i < |ps| ensures Free(Pieces(ps)[i], '&') {
    }
    SplitJoin(Pieces(ps), '&');
    PiecesAdded(ps);
  }

  lemma {:induction false} PiecesAdded(ps: seq<(string, string)>)
    requires forall i :: 0 <= i < |ps| ==> ps[i].0 != "" && '=' !in ps[i].0
    ensures AddAll(Pieces(ps)) == PairMap(ps)
  {
    hide AddPiece;
    if ps != [] {
      var n := |ps| - 1;
      PiecesAdded(ps[..n]);
      assert Pieces(ps)[..n] == Pieces(ps[..n]);
      PieceIs(PairMap(ps[..n]), ps[n].0, ps[n].1);
    }
  }

  // ----- scanners -----

  /** What the scanner knows in the middle of a piece that starts at `start`. */
  ghost predicate Scanning(q: string, i: int, start: int, keyEnd: int, valueStart: int, m: map<string, string>) {
    && 0 <= start <= i <= |q| && '&' !in q[start..i]
    && m == (if start == 0 then map[] else QueryMap(q[..start - 1]))
    && (start > 0 ==> q[start - 1] == '&')
    && (if keyEnd == -1 then valueStart == -1 && '=' !in q[start..i]
        else start <= keyEnd < i && q[keyEnd] == '=' && '=' !in q[start..keyEnd] && valueStart == keyEnd + 1)
  }

  lemma ScanOn(q: string, i: int, start: int, keyEnd: int, valueStart: int, m: map<string, string>)
    requires Scanning(q, i, start, keyEnd, valueStart, m) && i < |q| && q[i] != '&'
    ensures if q[i] == '=' && keyEnd == -1 then Scanning(q, i + 1, start, i, i + 1, m)
            else Scanning(q, i + 1, start, keyEnd, valueStart, m)
  {
    assert q[start..i + 1] == q[start..i] + [q[i]];
  }

  /** What the scanner does to its map at the end of a piece. */
  ghost function Closed(q: string, i: int, start: int, keyEnd: int, valueStart: int, m: map<string, string>): map<string, string>
    requires 0 <= start <= i <= |q|
    requires if keyEnd == -1 then valueStart == -1 else start <= keyEnd < i && valueStart == keyEnd + 1
  {
    if keyEnd > start && valueStart > 0 then m[q[start..keyEnd] := if valueStart < i then q[valueStart..i] else ""]
    else if keyEnd == -1 && i > start then m[q[start..i] := ""]
    else m
  }

  lemma PieceValue(q: string, i: int, start: int, keyEnd: int, valueStart: int, m: map<string, string>)
    requires 0 <= start <= i <= |q|
    requires if keyEnd == -1 then valueStart == -1 && '=' !in q[start..i]
             else start <= keyEnd < i && q[keyEnd] == '=' && '=' !in q[start..keyEnd] && valueStart == keyEnd + 1
    ensures AddPiece(m, q[start..i]) == Closed(q, i, start, keyEnd, valueStart, m)
  {
    hide FirstEquals;
    var p := q[start..i];
    if keyEnd == -1 {
      assert p[..|p|] == p;
      FirstEqualsIs(p, |p|);
    } else {
      assert p[..keyEnd - start] == q[start..keyEnd] && p[keyEnd - start] == '=';
      FirstEqualsIs(p, keyEnd - start);
      assert p[keyEnd - start + 1..] == q[valueStart..i];
    }
  }

  /** The map at the end of a piece covers everything read so far. */
  lemma PieceDone(q: string, i: int, start: int, keyEnd: int, valueStart: int, m: map<string, string>)
    requires Scanning(q, i, start, keyEnd, valueStart, m)
    ensures QueryMap(q[..i]) == Closed(q, i, start, keyEnd, valueStart, m)
  {
    hide QueryMap, AddPiece, FirstEquals, Closed;
    PieceAdded(q, i, start, m);
    PieceValue(q, i, start, keyEnd, valueStart, m);
  }

  lemma PieceAdded(q: string, i: int, start: int, m: map<string, string>)
    requires 0 <= start <= i <= |q| && '&' !in q[start..i]
    requires m == (if start == 0 then map[] else QueryMap(q[..start - 1])) && (start > 0 ==> q[start - 1] == '&')
    ensures QueryMap(q[..i]) == AddPiece(m, q[start..i])
  {
    hide AddPiece;
    var p := q[start..i];
    if start == 0 {
      SplitNone(p, '&');
      assert q[..i] == p;
      assert AddAll([p]) == AddPiece(AddAll([p][..0]), p);
    } else {
      SplitLast(q[..start - 1], '&', p);
      assert q[..i] == q[..start - 1] + ['&'] + p;
      var r := Split(q[..start - 1], '&');
      assert (r + [p])[..|r|] == r;
    }
  }

  lemma NextPiece(q: string, i: int)
    requires 0 <= i < |q| && q[i] == '&'
    ensures Scanning(q, i + 1, i + 1, -1, -1, QueryMap(q[..i]))
  {
  }

  method ParseQueryStringApp(query: string) returns (m: map<string, string>)
    ensures m == QueryMap(query)
  {
    m := map[];
    if |query| == 0 {
      PieceDone(query, 0, 0, -1, -1, m);
      assert query[..0] == query;
      return;
    }
    var keyStart, keyEnd, valueStart := 0, -1, -1;
    var i := 0;
    while i <= |query|
      invariant 0 <= i <= |query| + 1
      invariant if i <= |query| then Scanning(query, i, keyStart, keyEnd, valueStart, m) else m == QueryMap(query)
    {
      var ch := if i < |query| then query[i] else '&';
      if ch == '=' && keyEnd == -1 {
        ScanOn(query, i, keyStart, keyEnd, valueStart, m);
        keyEnd := i;
        valueStart := i + 1;
      } else if ch == '&' {
        PieceDone(query, i, keyStart, keyEnd, valueStart, m);
        if keyEnd > keyStart && valueStart > 0 {
          var key := query[keyStart..keyEnd];
          var value := if valueStart < i then query[valueStart..i] else "";
          m := m[key := value];
        } else if keyEnd == -1 && i > keyStart {
          m := m[query[keyStart..i] := ""];
        }
        if i < |query| {
          NextPiece(query, i);
        } else {
          assert query[..i] == query;
        }
        keyStart, keyEnd, valueStart := i + 1, -1, -1;
      } else {
        ScanOn(query, i, keyStart, keyEnd, valueStart, m);
      }
      i := i + 1;
    }
  }

  /** The loop of parse_path_and_query: the same scan, on the part of `s` after position `off`. */
  method ScanQuery(s: string, off: nat) returns (m: map<string, string>)
    requires off <= |s|
    ensures m == QueryMap(s[off..])
  {
    hide QueryMap, AddPiece, FirstEquals, Closed, Scanning;
    m := map[];
    ghost var q := s[off..];
    var keyStart, keyEnd, valueStart := off, -1, -1;
    var i := off;
    ScanStart(q);
    while i <= |s|
      invariant off <= i <= |s| + 1
      invariant if i <= |s| then ScanningFrom(s, off, i, keyStart, keyEnd, valueStart, m) else m == QueryMap(q)
    {
      var ch := if i < |s| then s[i] else '&';
      ghost var ke, vs := Shifted(keyEnd, off), Shifted(valueStart, off);
      ScanRanges(q, i - off, keyStart - off, ke, vs, m);
      if ch == '=' && keyEnd == -1 {
        ScanOn(q, i - off, keyStart - off, ke, vs, m);
        keyEnd := i;
        valueStart := i + 1;
      } else if ch == '&' {
        PieceDone(q, i - off, keyStart - off, ke, vs, m);
        ClosedFrom(s, off, i, keyStart, keyEnd, valueStart, m);
        if keyEnd > keyStart && valueStart > 0 {
          var key := s[keyStart..keyEnd];
          var value := if valueStart < i then s[valueStart..i] else "";
          m := m[key := value];
        } else if keyEnd == -1 && i > keyStart {
          m := m[s[keyStart..i] := ""];
        }
        assert m == QueryMap(q[..i - off]);
        if i < |s| {
          NextPiece(q, i - off);
        } else {
          assert q[..i - off] == q;
        }
        keyStart, keyEnd, valueStart := i + 1, -1, -1;
      } else {
        ScanOn(q, i - off, keyStart - off, ke, vs, m);
      }
      i := i + 1;
    }
  }

  ghost function Shifted(x: int, off: nat): int {
    if x == -1 then -1 else x - off
  }

  /** `Scanning` for positions counted in the whole string, the query starting at `off`. */
  ghost predicate ScanningFrom(s: string, off: nat, i: int, start: int, keyEnd: int, valueStart: int, m: map<string, string>)
    requires off <= |s|
  {
    && Scanning(s[off..], i - off, start - off, Shifted(keyEnd, off), Shifted(valueStart, off), m)
    && (if keyEnd == -1 then valueStart == -1 else keyEnd >= off && valueStart > off)
  }

  lemma ScanStart(q: string)
    ensures Scanning(q, 0, 0, -1, -1, map[])
  {
  }

  lemma ScanRanges(q: string, i: int, start: int, keyEnd: int, valueStart: int, m: map<string, string>)
    requires Scanning(q, i, start, keyEnd, valueStart, m)
    ensures 0 <= start <= i <= |q|
    ensures if keyEnd == -1 then valueStart == -1 else start <= keyEnd < i && valueStart == keyEnd + 1
  {
  }

  lemma ClosedFrom(s: string, off: nat, i: int, start: int, keyEnd: int, valueStart: int, m: map<string, string>)
    requires off <= start <= i <= |s|
    requires if keyEnd == -1 then valueStart == -1 else start <= keyEnd < i && valueStart == keyEnd + 1
    ensures Closed(s[off..], i - off, start - off, Shifted(keyEnd, off), Shifted(valueStart, off), m) ==
            if keyEnd > start && valueStart > 0 then m[s[start..keyEnd] := if valueStart < i then s[valueStart..i] else ""]
            else if keyEnd == -1 && i > start then m[s[start..i] := ""]
            else m
  {
    var q := s[off..];
    if keyEnd == -1 {
      assert q[start - off..i - off] == s[start..i];
    } else {
      assert q[start - off..keyEnd - off] == s[start..keyEnd];
      assert q[valueStart - off..i - off] == s[valueStart..i];
    }
  }

  /** The backward search for the last '?'; -1 when there is none. */
  method FindMark(s: string) returns (start: int)
    ensures -1 <= start < |s|
    ensures if start == -1 then '?' !in s else s[start] == '?' && '?' !in s[start + 1..]
  {
    start := -1;
    var i := |s| - 1;
    while i >= 0
      invariant -1 <= i < |s| && '?' !in s[i + 1..]
    {
      if s[i] == '?' {
        return i;
      }
      assert s[i..] == [s[i]] + s[i + 1..];
      i := i - 1;
    }
    assert s[0..] == s;
  }

  /** The last '?' separates path and query. */
  method ParsePathAndQuery(fullPath: string) returns (path: string, m: map<string, string>)
    ensures '?' !in fullPath ==> path == fullPath && m == map[]
    ensures forall p, q :: fullPath == p + "?" + q && '?' !in q ==> path == p && m == QueryMap(q)
  {
    hide QueryMap;
    m := map[];
    if |fullPath| == 0 {
      return fullPath, m;
    }
    var start := FindMark(fullPath);
    if start == -1 {
      return fullPath, m;
    }
    path := fullPath[..start];
    m := ScanQuery(fullPath, start + 1);
    forall p, q | fullPath == p + "?" + q && '?' !in q
      ensures path == p && m == QueryMap(q)
    {
      LastMark(fullPath, start, p, q);
    }
  }

  lemma LastMark(s: string, k: nat, p: string, q: string)
    requires k < |s| && s[k] == '?' && '?' !in s[k + 1..]
    requires s == p + "?" + q && '?' !in q
    ensures p == s[..k] && q == s[k + 1..]
  {
    assert s[|p|] == '?';
    assert forall j :: |p| < j < |s| ==> s[j] == q[j - |p| - 1];
    assert forall j :: k < j < |s| ==> s[j] == s[k + 1..][j - k - 1];
  }
}
