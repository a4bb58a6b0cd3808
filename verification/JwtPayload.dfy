/** The payload of a token, as a record and as the members of a JSON object (jwt.v). */
module JwtPayload {
  import opened Options
  import opened Base64
  import opened Splitting
  import opened JsonText
  import opened Decimals
  import opened VInt

  datatype Payload = Payload(sub: Bytes, iss: Bytes, aud: Bytes, exp: I64, nbf: I64, iat: I64, jti: Bytes, claims: map<Bytes, Bytes>)

  /** A JSON value, as far as the payload looks at it: a string, a whole number of 64 bits, or what the library
      makes of any other value when it is asked for a text or a number. */
  datatype Json = Str(text: Bytes) | Num(number: I64) | Other(asText: Bytes, asNumber: I64) {
    function Text(): Bytes {
      match this
      case Str(t) => t
      case Num(n) => Decimal(n)
      case Other(t, _) => t
    }
  }

  /** The JSON library, and how V reads a whole number in a text. */
  datatype Library = Library(parse: Bytes -> Option<map<Bytes, Json>>, toNumber: Bytes -> I64) {
    function Number(j: Json): I64 {
      match j
      case Str(t) => toNumber(t)
      case Num(n) => n
      case Other(_, n) => n
    }
  }

  type Member = (Bytes, Json)

  const SUB: Bytes := [115, 117, 98]
  const ISS: Bytes := [105, 115, 115]
  const AUD: Bytes := [97, 117, 100]
  const EXP: Bytes := [101, 120, 112]
  const NBF: Bytes := [110, 98, 102]
  const IAT: Bytes := [105, 97, 116]
  const JTI: Bytes := [106, 116, 105]
  const STANDARD: seq<Bytes> := [SUB, ISS, AUD, EXP, NBF, IAT, JTI]

  /** `order` is the order in which V walks the map of claims. */
  ghost predicate Orders(order: seq<Bytes>, claims: map<Bytes, Bytes>) {
    && (forall i :: 0 <= i < |order| ==> order[i] in claims)
    && (forall k :: k in claims ==> k in order)
    && (forall i, j :: 0 <= i < j < |order| ==> order[i] != order[j])
  }

  // ----- members -----

  /** Empty strings and zeros are left out. */
  ghost predicate Default(j: Json) {
    j == Str([]) || j == Num(0)
  }

  ghost function Kept(ms: seq<Member>): seq<Member> {
    if ms == [] then []
    else
      var r := Kept(ms[..|ms| - 1]);
      if Default(ms[|ms| - 1].1) then r else r + [ms[|ms| - 1]]
  }

  ghost function Fields(p: Payload): seq<Member> {
    [(SUB, Str(p.sub)), (ISS, Str(p.iss)), (AUD, Str(p.aud)), (EXP, Num(p.exp)), (NBF, Num(p.nbf)), (IAT, Num(p.iat)), (JTI, Str(p.jti))]
  }

  ghost function ClaimMembers(claims: map<Bytes, Bytes>, order: seq<Bytes>): seq<Member>
    requires forall i :: 0 <= i < |order| ==> order[i] in claims
  {
    seq(|order|, i requires 0 <= i < |order| => (order[i], Str(claims[order[i]])))
  }

  ghost function Members(p: Payload, order: seq<Bytes>): seq<Member>
    requires Orders(order, p.claims)
  {
    Kept(Fields(p)) + ClaimMembers(p.claims, order)
  }

  /** The object of a list of members: the last one of a name counts. */
  ghost function ObjectOf(ms: seq<Member>): map<Bytes, Json> {
    if ms == [] then map[] else ObjectOf(ms[..|ms| - 1])[ms[|ms| - 1].0 := ms[|ms| - 1].1]
  }

  // ----- text -----

  ghost function MemberText(m: Member): Bytes {
    if m.1.Num? then Quoted(m.0) + [COLON] + Decimal(m.1.number)
    else StringMember(Escape(m.0), Escape(m.1.Text()))
  }

  ghost function Texts(ms: seq<Member>): seq<Bytes> {
    seq(|ms|, i requires 0 <= i < |ms| => MemberText(ms[i]))
  }

  function Braced(parts: seq<Bytes>): Bytes {
    [OPEN] + (if parts == [] then [] else Join(parts, COMMA)) + [CLOSE]
  }

  ghost function PayloadText(p: Payload, order: seq<Bytes>): Bytes
    requires Orders(order, p.claims)
  {
    Braced(Texts(Members(p, order)))
  }

  lemma KeptNext(ms: seq<Member>, m: Member)
    ensures Texts(Kept(ms + [m])) == Texts(Kept(ms)) + if Default(m.1) then [] else [MemberText(m)]
  {
    hide MemberText, Default;
    assert (ms + [m])[..|ms|] == ms;
    assert Texts(Kept(ms) + [m]) == Texts(Kept(ms)) + [MemberText(m)];
  }

  method AddText(parts: seq<Bytes>, key: Bytes, value: Bytes, ghost ms: seq<Member>) returns (r: seq<Bytes>)
    requires parts == Texts(Kept(ms)) && Escape(key) == key
    ensures r == Texts(Kept(ms + [(key, Str(value))]))
  {
    hide Escape, Texts, Kept;
    KeptNext(ms, (key, Str(value)));
    r := parts;
    if |value| > 0 {
      var escaped := EscapeJsonString(value);
      r := r + [StringMember(key, escaped)];
    }
  }

  method AddNumber(parts: seq<Bytes>, key: Bytes, value: I64, ghost ms: seq<Member>) returns (r: seq<Bytes>)
    requires parts == Texts(Kept(ms))
    ensures r == Texts(Kept(ms + [(key, Num(value))]))
  {
    hide Escape, Texts, Kept;
    KeptNext(ms, (key, Num(value)));
    r := parts;
    if value != 0 {
      r := r + [Quoted(key) + [COLON] + Decimal(value)];
    }
  }

  lemma PlainKey(k: Bytes)
    requires |k| == 3 && forall i :: 0 <= i < 3 ==> EscapeByte(k[i]) == [k[i]]
    ensures Escape(k) == k
  {
    assert k[1..][1..] == k[2..] && k[2..][1..] == [];
    assert k == [k[0]] + [k[1]] + [k[2]];
    assert Escape(k[2..]) == [k[2]];
  }

  method EncodePayload(p: Payload, order: seq<Bytes>) returns (r: Bytes)
    requires Orders(order, p.claims)
    ensures r == PayloadText(p, order)
  {
    hide Escape, Texts, Kept, MemberText, Braced, Orders;
    PlainKey(SUB);
    PlainKey(ISS);
    PlainKey(AUD);
    PlainKey(JTI);
    ghost var f := Fields(p);
    assert f[..0] == [] && f[..7] == f;
    assert forall k :: 0 <= k < 7 ==> f[..k] + [f[k]] == f[..k + 1];
    NoTexts();
    var parts: seq<Bytes> := [];
    parts := AddText(parts, SUB, p.sub, f[..0]);
    parts := AddText(parts, ISS, p.iss, f[..1]);
    parts := AddText(parts, AUD, p.aud, f[..2]);
    parts := AddNumber(parts, EXP, p.exp, f[..3]);
    parts := AddNumber(parts, NBF, p.nbf, f[..4]);
    parts := AddNumber(parts, IAT, p.iat, f[..5]);
    parts := AddText(parts, JTI, p.jti, f[..6]);
    assert parts == Texts(Kept(f));
    parts := AddClaims(parts, Kept(f), p, order);
    r := Braced(parts);
  }

  lemma NoTexts()
    ensures Texts(Kept([])) == []
  {
  }

  method AddClaims(before: seq<Bytes>, ghost ms: seq<Member>, p: Payload, order: seq<Bytes>) returns (parts: seq<Bytes>)
    requires Orders(order, p.claims) && before == Texts(ms)
    ensures parts == Texts(ms + ClaimMembers(p.claims, order))
  {
    hide Escape, MemberText;
    parts := before;
    for i := 0 to |order|
      invariant parts == Texts(ms + ClaimMembers(p.claims, order[..i]))
    {
      var key, value := order[i], p.claims[order[i]];
      var escapedKey := EscapeJsonString(key);
      var escapedValue := EscapeJsonString(value);
      ClaimsNext(ms, p.claims, order, i);
      parts := parts + [StringMember(escapedKey, escapedValue)];
      assert StringMember(escapedKey, escapedValue) == MemberText((key, Str(value))) by {
        StringText(key, value);
      }
    }
    assert order[..|order|] == order;
  }

  lemma StringText(k: Bytes, v: Bytes)
    ensures MemberText((k, Str(v))) == StringMember(Escape(k), Escape(v))
  {
  }

  lemma ClaimsNext(ms: seq<Member>, claims: map<Bytes, Bytes>, order: seq<Bytes>, n: nat)
    requires n < |order| && forall i :: 0 <= i < |order| ==> order[i] in claims
    ensures Texts(ms + ClaimMembers(claims, order[..n + 1])) ==
            Texts(ms + ClaimMembers(claims, order[..n])) + [MemberText((order[n], Str(claims[order[n]])))]
  {
    hide MemberText;
    assert ms + ClaimMembers(claims, order[..n + 1]) == (ms + ClaimMembers(claims, order[..n])) + [(order[n], Str(claims[order[n]]))];
  }

  // ----- reading -----

  function TextAt(obj: map<Bytes, Json>, k: Bytes): Bytes {
    if k in obj then obj[k].Text() else []
  }

  function NumberAt(lib: Library, obj: map<Bytes, Json>, k: Bytes): I64 {
    if k in obj then lib.Number(obj[k]) else 0
  }

  /** The payload of an object. */
  ghost function PayloadOf(lib: Library, obj: map<Bytes, Json>): Payload {
    Payload(TextAt(obj, SUB), TextAt(obj, ISS), TextAt(obj, AUD), NumberAt(lib, obj, EXP), NumberAt(lib, obj, NBF),
            NumberAt(lib, obj, IAT), TextAt(obj, JTI), map k | k in obj && k !in STANDARD :: obj[k].Text())
  }

  method ParsePayload(lib: Library, text: Bytes) returns (r: Option<Payload>)
    ensures r == var o := lib.parse(text); if o.None? then None else Some(PayloadOf(lib, o.value))
  {
    var raw := lib.parse(text);
    if raw.None? {
      return None;
    }
    var obj := raw.value;
    var claims: map<Bytes, Bytes> := map[];
    var left := obj.Keys;
    while left != {}
      invariant left <= obj.Keys
      invariant claims == map k | k in obj && k !in STANDARD && k !in left :: obj[k].Text()
      decreases |left|
    {
      var key :| key in left;
      if key !in STANDARD {
        claims := claims[key := obj[key].Text()];
      }
      left := left - {key};
    }
    assert claims == PayloadOf(lib, obj).claims;
    return Some(Payload(TextAt(obj, SUB), TextAt(obj, ISS), TextAt(obj, AUD), NumberAt(lib, obj, EXP),
                        NumberAt(lib, obj, NBF), NumberAt(lib, obj, IAT), TextAt(obj, JTI), claims));
  }

  // ----- round trip -----

  ghost predicate DistinctNames(ms: seq<Member>) {
    forall i, j :: 0 <= i < j < |ms| ==> ms[i].0 != ms[j].0
  }

  /** What is left out reads back as its default. */
  lemma {:induction false} KeptAt(ms: seq<Member>, i: nat)
    requires DistinctNames(ms) && i < |ms|
    ensures var o := ObjectOf(Kept(ms)); if Default(ms[i].1) then ms[i].0 !in o else ms[i].0 in o && o[ms[i].0] == ms[i].1
  {
    var n := |ms| - 1;
    var r := Kept(ms[..n]);
    assert (r + [ms[n]])[..|r|] == r;
    if i < n {
      KeptAt(ms[..n], i);
    } else {
      KeptNames(ms[..n], ms[n].0);
    }
  }

  lemma {:induction false} KeptNames(ms: seq<Member>, k: Bytes)
    requires forall i :: 0 <= i < |ms| ==> ms[i].0 != k
    ensures k !in ObjectOf(Kept(ms))
  {
    if ms != [] {
      var n := |ms| - 1;
      var r := Kept(ms[..n]);
      KeptNames(ms[..n], k);
      assert (r + [ms[n]])[..|r|] == r;
    }
  }

  lemma {:induction false} WithClaims(ms: seq<Member>, claims: map<Bytes, Bytes>, order: seq<Bytes>, k: Bytes)
    requires forall i :: 0 <= i < |order| ==> order[i] in claims
    ensures var (o, a) := (ObjectOf(ms), ObjectOf(ms + ClaimMembers(claims, order)));
            && (k in a <==> k in o || k in order)
            && (k in order ==> a[k] == Str(claims[k]))
            && (k in o && k !in order ==> a[k] == o[k])
  {
    if order == [] {
      assert ms + ClaimMembers(claims, order) == ms;
    } else {
      var n := |order| - 1;
      var all := ms + ClaimMembers(claims, order);
      assert all[..|all| - 1] == ms + ClaimMembers(claims, order[..n]);
      WithClaims(ms, claims, order[..n], k);
      assert order == order[..n] + [order[n]];
    }
  }

  ghost predicate NoStandardClaim(p: Payload) {
    forall k :: k in p.claims ==> k !in STANDARD
  }

  lemma FieldNames(p: Payload)
    ensures DistinctNames(Fields(p)) && forall i :: 0 <= i < 7 ==> Fields(p)[i].0 == STANDARD[i]
  {
    forall i, j | 0 <= i < j < 7 ensures STANDARD[i] != STANDARD[j] {
      assert STANDARD[i][0] != STANDARD[j][0] || STANDARD[i][1] != STANDARD[j][1];
    }
  }

  /** One member of the object that was written. */
  ghost predicate Holds(o: map<Bytes, Json>, m: Member) {
    if Default(m.1) then m.0 !in o else m.0 in o && o[m.0] == m.1
  }

  lemma StandardHolds(p: Payload, order: seq<Bytes>, i: nat)
    requires Orders(order, p.claims) && NoStandardClaim(p) && i < 7
    ensures Holds(ObjectOf(Members(p, order)), Fields(p)[i])
  {
    hide Kept, ObjectOf;
    FieldNames(p);
    KeptAt(Fields(p), i);
    assert STANDARD[i] in STANDARD;
    WithClaims(Kept(Fields(p)), p.claims, order, STANDARD[i]);
  }

  lemma ClaimHolds(p: Payload, order: seq<Bytes>, k: Bytes)
    requires Orders(order, p.claims) && k !in STANDARD
    ensures var a := ObjectOf(Members(p, order)); if k in p.claims then k in a && a[k] == Str(p.claims[k]) else k !in a
  {
    hide Kept, ObjectOf;
    FieldNames(p);
    WithClaims(Kept(Fields(p)), p.claims, order, k);
    forall i | 0 <= i < |Fields(p)| ensures Fields(p)[i].0 != k {
      assert STANDARD[i] in STANDARD;
    }
    KeptNames(Fields(p), k);
  }

  /** Reading the members of a payload gives the payload back exactly when no custom claim has the name of a
      standard one. */
  lemma PayloadExact(lib: Library, p: Payload, order: seq<Bytes>)
    requires Orders(order, p.claims)
    ensures PayloadOf(lib, ObjectOf(Members(p, order))) == p <==> NoStandardClaim(p)
  {
    hide Orders, Members, ObjectOf, Fields, Kept;
    var a := ObjectOf(Members(p, order));
    var q := PayloadOf(lib, a);
    if NoStandardClaim(p) {
      StandardBack(lib, p, order);
      forall k ensures k in q.claims <==> k in p.claims {
        if k !in STANDARD {
          ClaimHolds(p, order, k);
        }
      }
      forall k | k in p.claims ensures q.claims[k] == p.claims[k] {
        ClaimHolds(p, order, k);
      }
      assert q.claims == p.claims;
    } else {
      var k :| k in p.claims && k in STANDARD;
      assert k !in q.claims;
    }
  }

  lemma StandardBack(lib: Library, p: Payload, order: seq<Bytes>)
    requires Orders(order, p.claims) && NoStandardClaim(p)
    ensures PayloadOf(lib, ObjectOf(Members(p, order))) == p.(claims := PayloadOf(lib, ObjectOf(Members(p, order))).claims)
  {
    hide Orders, Members, ObjectOf;
    StandardHolds(p, order, 0);
    StandardHolds(p, order, 1);
    StandardHolds(p, order, 2);
    StandardHolds(p, order, 3);
    StandardHolds(p, order, 4);
    StandardHolds(p, order, 5);
    StandardHolds(p, order, 6);
  }
}
