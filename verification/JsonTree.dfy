/** JSON values as trees, and the objects that openapi.v writes and reads. */
module JsonTree {
  import opened Options
  import opened JsonKeys

  datatype Json =
    | Str(text: string)
    | Number(number: real)
    | Whole(whole: int)
    | Flag(flag: bool)
    | Arr(elements: seq<Json>)
    | Obj(fields: Fields)

  type Fields = map<string, Json>

  // ----- writing an object -----

  /** One assignment to the object being built, and whether it takes place. */
  datatype Row = Row(key: Key, kept: bool, value: Json)

  /** An assignment under a condition; the value counts only when it takes place. */
  function When(k: Key, kept: bool, value: Json): Row {
    Row(k, kept, if kept then value else Str(""))
  }

  function ObjectOf(rows: seq<Row>): Fields {
    if rows == [] then map[]
    else
      var (o, r) := (ObjectOf(rows[..|rows| - 1]), rows[|rows| - 1]);
      if r.kept then o[Text(r.key) := r.value] else o
  }

  ghost predicate DistinctKeys(rows: seq<Row>) {
    forall i, j :: 0 <= i < j < |rows| ==> rows[i].key != rows[j].key
  }

  function At(j: Json, k: Key): (r: Option<Json>)
    ensures r.Some? ==> r.value < j
  {
    if j.Obj? && Text(k) in j.fields then Some(j.fields[Text(k)]) else None
  }

  lemma {:induction false} AbsentKey(rows: seq<Row>, k: Key)
    requires forall i :: 0 <= i < |rows| ==> rows[i].key != k
    ensures At(Obj(ObjectOf(rows)), k) == None
  {
    hide Text;
    if rows != [] {
      AbsentKey(rows[..|rows| - 1], k);
      NamesDiffer(rows[|rows| - 1].key, k);
    }
  }

  /** What was written under a key is read under it. */
  lemma {:induction false} RowAt(rows: seq<Row>, i: nat)
    requires DistinctKeys(rows) && i < |rows|
    ensures At(Obj(ObjectOf(rows)), rows[i].key) == if rows[i].kept then Some(rows[i].value) else None
  {
    hide Text;
    var n := |rows| - 1;
    if i < n {
      RowAt(rows[..n], i);
      NamesDiffer(rows[n].key, rows[i].key);
    } else {
      AbsentKey(rows[..n], rows[n].key);
    }
  }

  // ----- reading -----

  function TextAt(j: Json, k: Key): string {
    match At(j, k)
    case Some(Str(t)) => t
    case _ => ""
  }

  function NumberAt(j: Json, k: Key): real {
    match At(j, k)
    case Some(Number(x)) => x
    case _ => 0.0
  }

  function WholeAt(j: Json, k: Key): int {
    match At(j, k)
    case Some(Whole(x)) => x
    case _ => 0
  }

  function FlagAt(j: Json, k: Key): bool {
    match At(j, k)
    case Some(Flag(b)) => b
    case _ => false
  }

  function FieldsAt(j: Json, k: Key): (r: Fields)
    ensures forall n :: n in r ==> r[n] < j
  {
    match At(j, k)
    case Some(Obj(o)) => o
    case _ => map[]
  }

  function ElementsAt(j: Json, k: Key): seq<Json> {
    match At(j, k)
    case Some(Arr(a)) => a
    case _ => []
  }

  // ----- maps and arrays -----

  function MapOver<V, W>(m: map<string, V>, f: V -> W): map<string, W> {
    map k | k in m :: f(m[k])
  }

  function SeqOver<V, W>(s: seq<V>, f: V -> W): seq<W> {
    seq(|s|, i requires 0 <= i < |s| => f(s[i]))
  }

  lemma MapBack<V, W, X>(m: map<string, V>, to: V -> W, back: W -> X, trim: V -> X)
    requires forall k :: k in m ==> back(to(m[k])) == trim(m[k])
    ensures MapOver(MapOver(m, to), back) == MapOver(m, trim)
    ensures |MapOver(m, to)| == 0 <==> |m| == 0
  {
    SameSize(m, MapOver(m, to));
  }

  lemma SeqBack<V, W, X>(s: seq<V>, to: V -> W, back: W -> X, trim: V -> X)
    requires forall i :: 0 <= i < |s| ==> back(to(s[i])) == trim(s[i])
    ensures SeqOver(SeqOver(s, to), back) == SeqOver(s, trim)
  {
  }

  lemma SameSize<V, W>(m: map<string, V>, n: map<string, W>)
    requires m.Keys == n.Keys
    ensures |m| == |n|
  {
    assert |m| == |m.Keys| && |n| == |n.Keys|;
  }

  function TextOf(j: Json): string {
    match j
    case Str(t) => t
    case _ => ""
  }

  function Texts(s: seq<string>): Json {
    Arr(SeqOver(s, (t: string) => Str(t)))
  }

  function TextsOf(a: seq<Json>): seq<string> {
    SeqOver(a, TextOf)
  }

  lemma TextsBack(s: seq<string>)
    ensures Texts(s).Arr? && TextsOf(Texts(s).elements) == s && TextsOf([]) == []
  {
    var a := Texts(s).elements;
    forall i | 0 <= i < |s| ensures TextsOf(a)[i] == s[i] {
      assert a[i] == Str(s[i]);
      assert TextOf(a[i]) == s[i];
    }
  }

  /** The loops that fill a map, for any conversion of the values. */
  method FillMap<V, W>(m: map<string, V>, f: V -> W) returns (r: map<string, W>)
    ensures r == MapOver(m, f)
  {
    r := map[];
    var left := m.Keys;
    while left != {}
      invariant left <= m.Keys && r == map k | k in m && k !in left :: f(m[k])
      decreases |left|
    {
      var k :| k in left;
      r := r[k := f(m[k])];
      left := left - {k};
    }
    assert r == MapOver(m, f);
  }

  /** The loops that append to an array. */
  method FillArray<V, W>(s: seq<V>, f: V -> W) returns (r: seq<W>)
    ensures r == SeqOver(s, f)
  {
    r := [];
    for i := 0 to |s|
      invariant r == SeqOver(s[..i], f)
    {
      r := r + [f(s[i])];
    }
    assert s[..|s|] == s;
  }
}
