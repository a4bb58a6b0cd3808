/** A reader of JSON objects of strings and whole numbers (RFC 8259), what it makes of the texts that jwt.v
    writes, and what a JSON library must do to read them. */
module JsonReader {
  import opened Options
  import opened Base64
  import opened Splitting
  import opened JsonText
  import opened JwtPayload
  import opened Decimals

  /** Reads a string from its opening quote. */
  ghost function ReadQuoted(t: Bytes): (r: Option<(Bytes, Bytes)>)
    ensures r.Some? ==> |r.value.1| < |t|
  {
    if t == [] || t[0] != QUOTE then None
    else
      ReadShorter(t[1..]);
      ReadString(t[1..])
  }

  lemma {:induction false} ReadShorter(t: Bytes)
    ensures ReadString(t).Some? ==> |ReadString(t).value.1| < |t|
    decreases |t|
  {
    if t != [] && t[0] == BACKSLASH && |t| > 1 {
      ReadShorter(t[2..]);
    } else if t != [] {
      ReadShorter(t[1..]);
    }
  }

  ghost function ReadMember(t: Bytes): (r: Option<(Member, Bytes)>)
    ensures r.Some? ==> |r.value.1| < |t|
  {
    var k := ReadQuoted(t);
    if k.None? || k.value.1 == [] || k.value.1[0] != COLON then None
    else
      var u := k.value.1[1..];
      var s := ReadQuoted(u);
      if u != [] && u[0] == QUOTE then
        if s.None? then None else Some(((k.value.0, Str(s.value.0)), s.value.1))
      else
        var n := ReadNumber(u);
        if n.None? then None else Some(((k.value.0, Num(n.value.0)), n.value.1))
  }

  /** Members up to the closing brace, which ends the text. */
  ghost function ReadMembers(t: Bytes): Option<seq<Member>>
    decreases |t|
  {
    var m := ReadMember(t);
    if m.None? then None
    else if m.value.1 == [CLOSE] then Some([m.value.0])
    else if m.value.1 == [] || m.value.1[0] != COMMA then None
    else
      var r := ReadMembers(m.value.1[1..]);
      if r.None? then None else Some([m.value.0] + r.value)
  }

  ghost function ReadObject(t: Bytes): Option<map<Bytes, Json>> {
    if t == [] || t[0] != OPEN then None
    else if t[1..] == [CLOSE] then Some(map[])
    else
      var ms := ReadMembers(t[1..]);
      if ms.None? then None else Some(ObjectOf(ms.value))
  }

  // ----- reading back -----

  /** A member as jwt.v writes it: numbers only under plain names. */
  ghost predicate Written(m: Member) {
    m.1.Str? || (m.1.Num? && Escape(m.0) == m.0 && Escapable(m.0))
  }

  ghost predicate Readable(m: Member) {
    m.1.Str? ==> Escapable(m.0) && Escapable(m.1.text)
  }

  lemma QuotedRead(s: Bytes, rest: Bytes)
    ensures ReadQuoted(Quoted(Escape(s)) + rest) == if Escapable(s) then Some((s, rest)) else None
  {
    hide Escape, Escapable, ReadString;
    var t := Quoted(Escape(s)) + rest;
    assert t[0] == QUOTE && t[1..] == Escape(s) + [QUOTE] + rest;
    EscapeExact(s, rest);
  }

  /** A member reads back as it is, if and only if its strings have no control character without an escape. */
  lemma MemberRead(m: Member, rest: Bytes)
    requires Written(m) && rest != [] && !IsDigit(rest[0])
    ensures ReadMember(MemberText(m) + rest) == if Readable(m) then Some((m, rest)) else None
  {
    hide Escape, Escapable, ReadQuoted, Quoted, ReadNumber, Decimal;
    var t := MemberText(m) + rest;
    if m.1.Num? {
      var d := Decimal(m.1.number);
      var u := d + rest;
      assert t == Quoted(Escape(m.0)) + ([COLON] + u);
      QuotedRead(m.0, [COLON] + u);
      assert ([COLON] + u)[1..] == u;
      DecimalRead(m.1.number, rest);
    } else {
      var u := Quoted(Escape(m.1.text)) + rest;
      assert t == Quoted(Escape(m.0)) + ([COLON] + u);
      QuotedRead(m.0, [COLON] + u);
      assert ([COLON] + u)[1..] == u;
      QuotedRead(m.1.text, rest);
      OpensQuoted(Escape(m.1.text), rest);
    }
  }

  lemma OpensQuoted(s: Bytes, rest: Bytes)
    ensures Quoted(s) + rest != [] && (Quoted(s) + rest)[0] == QUOTE
  {
  }

  lemma {:induction false} JoinFirst<T>(p: seq<seq<T>>, c: T)
    requires |p| > 1
    ensures Join(p, c) == p[0] + [c] + Join(p[1..], c)
  {
    var n := |p| - 1;
    if n > 1 {
      JoinFirst(p[..n], c);
      assert p[..n][1..] == p[1..][..n - 1];
      assert p[0] + [c] + Join(p[..n][1..], c) + [c] + p[n] == p[0] + [c] + (Join(p[..n][1..], c) + [c] + p[n]);
    } else {
      assert p[..n] == [p[0]] && p[1..] == [p[1]];
    }
  }

  ghost predicate AllWritten(ms: seq<Member>) {
    forall i :: 0 <= i < |ms| ==> Written(ms[i])
  }

  ghost predicate AllReadable(ms: seq<Member>) {
    forall i :: 0 <= i < |ms| ==> Readable(ms[i])
  }

  lemma {:induction false} MembersRead(ms: seq<Member>)
    requires ms != [] && AllWritten(ms)
    ensures ReadMembers(Join(Texts(ms), COMMA) + [CLOSE]) == if AllReadable(ms) then Some(ms) else None
    decreases |ms|
  {
    hide ReadMember, MemberText, Written, Readable;
    var (x, tail) := (Texts(ms), Join(Texts(ms), COMMA) + [CLOSE]);
    if |ms| == 1 {
      assert tail == MemberText(ms[0]) + [CLOSE];
      MemberRead(ms[0], [CLOSE]);
      assert ms == [ms[0]];
    } else {
      JoinFirst(x, COMMA);
      assert x[1..] == Texts(ms[1..]);
      var u := Join(x[1..], COMMA) + [CLOSE];
      assert tail == MemberText(ms[0]) + ([COMMA] + u);
      MemberRead(ms[0], [COMMA] + u);
      assert ([COMMA] + u)[1..] == u && |[COMMA] + u| > 1;
      MembersRead(ms[1..]);
      assert ms == [ms[0]] + ms[1..];
      assert AllReadable(ms) <==> Readable(ms[0]) && AllReadable(ms[1..]) by {
        assert forall i :: 1 <= i < |ms| ==> ms[i] == ms[1..][i - 1];
      }
    }
  }

  /** An object of such members reads back, if and only if no string in it has a control character without an
      escape. */
  lemma ObjectRead(ms: seq<Member>)
    requires AllWritten(ms)
    ensures ReadObject(Braced(Texts(ms))) == if AllReadable(ms) then Some(ObjectOf(ms)) else None
  {
    hide ReadMembers, MemberText, Written, Readable;
    var t := Braced(Texts(ms));
    if ms == [] {
      assert t == [OPEN] + [CLOSE];
    } else {
      var u := Join(Texts(ms), COMMA) + [CLOSE];
      assert t[0] == OPEN && t[1..] == u;
      MembersRead(ms);
      NotEmptyObject(ms);
    }
  }

  lemma NotEmptyObject(ms: seq<Member>)
    requires ms != []
    ensures Join(Texts(ms), COMMA) != []
  {
    hide Escape, Decimal;
    var x := Texts(ms);
    assert x[|x| - 1] == MemberText(ms[|ms| - 1]) && x[|x| - 1] != [];
  }

  // ----- payloads -----

  lemma {:induction false} PlainText(k: Bytes)
    requires forall i :: 0 <= i < |k| ==> EscapeByte(k[i]) == [k[i]] && k[i] >= 32
    ensures Escape(k) == k && Escapable(k)
  {
    if k != [] {
      PlainText(k[1..]);
      assert k == [k[0]] + k[1..];
    }
  }

  lemma {:induction false} KeptWritten(ms: seq<Member>)
    requires AllWritten(ms)
    ensures AllWritten(Kept(ms))
  {
    hide Written, Default;
    if ms != [] {
      KeptWritten(ms[..|ms| - 1]);
    }
  }

  lemma PayloadWritten(p: Payload, order: seq<Bytes>)
    requires Orders(order, p.claims)
    ensures AllWritten(Members(p, order))
  {
    hide Escape, Escapable, Kept;
    PlainText(EXP);
    PlainText(NBF);
    PlainText(IAT);
    assert AllWritten(Fields(p));
    KeptWritten(Fields(p));
  }

  /** No string of the payload has a control character other than tab, newline and carriage return. */
  ghost predicate AllEscapable(p: Payload) {
    && Escapable(p.sub) && Escapable(p.iss) && Escapable(p.aud) && Escapable(p.jti)
    && forall k :: k in p.claims ==> Escapable(k) && Escapable(p.claims[k])
  }

  lemma {:induction false} KeptReadable(ms: seq<Member>)
    requires forall i :: 0 <= i < |ms| ==> Escapable(ms[i].0)
    ensures AllReadable(Kept(ms)) <==> AllReadable(ms)
  {
    if ms != [] {
      var (n, r) := (|ms| - 1, Kept(ms[..|ms| - 1]));
      KeptReadable(ms[..n]);
      ReadableLast(ms);
      if !Default(ms[n].1) {
        ReadableLast(Kept(ms));
        assert Kept(ms)[..|r|] == r;
      } else {
        KeyReadable(ms[n]);
      }
    }
  }

  lemma ReadableLast(ms: seq<Member>)
    requires ms != []
    ensures AllReadable(ms) <==> AllReadable(ms[..|ms| - 1]) && Readable(ms[|ms| - 1])
  {
    hide Readable;
  }

  lemma KeyReadable(m: Member)
    requires Default(m.1) && Escapable(m.0)
    ensures Readable(m)
  {
  }

  lemma FieldsReadable(p: Payload)
    ensures forall i :: 0 <= i < |Fields(p)| ==> Escapable(Fields(p)[i].0)
    ensures AllReadable(Fields(p)) <==> Escapable(p.sub) && Escapable(p.iss) && Escapable(p.aud) && Escapable(p.jti)
  {
    hide Escape, Escapable;
    PlainText(SUB);
    PlainText(ISS);
    PlainText(AUD);
    PlainText(EXP);
    PlainText(NBF);
    PlainText(IAT);
    PlainText(JTI);
    var f := Fields(p);
    assert AllReadable(f) ==> Readable(f[0]) && Readable(f[1]) && Readable(f[2]) && Readable(f[6]);
  }

  lemma ClaimsReadable(claims: map<Bytes, Bytes>, order: seq<Bytes>)
    requires Orders(order, claims)
    ensures AllReadable(ClaimMembers(claims, order)) <==> forall k :: k in claims ==> Escapable(k) && Escapable(claims[k])
  {
    hide Escapable;
    var m := ClaimMembers(claims, order);
    if AllReadable(m) {
      forall k | k in claims ensures Escapable(k) && Escapable(claims[k]) {
        var i :| 0 <= i < |order| && order[i] == k;
        assert Readable(m[i]);
      }
    }
  }

  lemma ReadableBoth(a: seq<Member>, b: seq<Member>)
    ensures AllReadable(a + b) <==> AllReadable(a) && AllReadable(b)
  {
    hide Readable;
    if AllReadable(a + b) {
      assert forall i :: 0 <= i < |a| ==> (a + b)[i] == a[i];
      assert forall i :: 0 <= i < |b| ==> (a + b)[|a| + i] == b[i];
    }
  }

  lemma PayloadMembers(p: Payload, order: seq<Bytes>)
    requires Orders(order, p.claims)
    ensures AllWritten(Members(p, order)) && (AllReadable(Members(p, order)) <==> AllEscapable(p))
  {
    hide Escapable, Kept, AllReadable, AllWritten, Fields, ClaimMembers;
    FieldsReadable(p);
    KeptReadable(Fields(p));
    ClaimsReadable(p.claims, order);
    ReadableBoth(Kept(Fields(p)), ClaimMembers(p.claims, order));
    PayloadWritten(p, order);
  }

  /** The payload text reads back as the members that were written, if and only if no string of the payload
      has a control character other than tab, newline and carriage return. */
  lemma PayloadRead(p: Payload, order: seq<Bytes>)
    requires Orders(order, p.claims)
    ensures ReadObject(PayloadText(p, order)) == if AllEscapable(p) then Some(ObjectOf(Members(p, order))) else None
  {
    hide AllReadable, AllWritten, AllEscapable, ReadObject, ObjectOf, Braced, Texts, Members;
    PayloadMembers(p, order);
    ObjectRead(Members(p, order));
  }

  // ----- what a JSON library must do -----

  /** Printable ASCII. */
  ghost predicate Plain(s: Bytes) {
    forall i :: 0 <= i < |s| ==> 32 <= s[i] < 127
  }

  ghost predicate AllTaken(ms: seq<Member>, takes: Bytes -> bool) {
    forall i :: 0 <= i < |ms| ==> takes(ms[i].0) && (ms[i].1.Str? ==> takes(ms[i].1.text))
  }

  /** The library reads the objects that jwt.v writes: nothing is asked about any other text, about repeated
      names, or about strings that the library does not take (not all have to take bytes that are no UTF-8). */
  ghost predicate Conforming(lib: Library, takes: Bytes -> bool) {
    && (forall s :: Plain(s) ==> takes(s))
    && forall ms :: AllWritten(ms) && DistinctNames(ms) && AllReadable(ms) && AllTaken(ms, takes) ==>
         lib.parse(Braced(Texts(ms))) == Some(ObjectOf(ms))
  }

  /** The library refuses a control character that stands for itself in a string. */
  ghost predicate Strict(lib: Library) {
    forall ms :: AllWritten(ms) && !AllReadable(ms) ==> lib.parse(Braced(Texts(ms))) == None
  }

  /** Such a library exists, whichever strings it takes: the reader is one. */
  lemma ConformingExists(takes: Bytes -> bool) returns (lib: Library)
    requires forall s :: Plain(s) ==> takes(s)
    ensures Conforming(lib, takes) && Strict(lib)
  {
    hide AllWritten, AllReadable, AllTaken, DistinctNames, ReadObject, ObjectOf, Braced, Texts;
    lib := Library(t => ReadObject(t), t => 0);
    forall ms | AllWritten(ms)
      ensures lib.parse(Braced(Texts(ms))) == if AllReadable(ms) then Some(ObjectOf(ms)) else None
    {
      ObjectRead(ms);
    }
  }

  lemma {:induction false} KeptDistinct(ms: seq<Member>)
    requires DistinctNames(ms)
    ensures DistinctNames(Kept(ms)) && forall m :: m in Kept(ms) ==> m in ms
  {
    if ms != [] {
      var (n, r) := (|ms| - 1, Kept(ms[..|ms| - 1]));
      KeptDistinct(ms[..n]);
      forall i | 0 <= i < |r| ensures r[i].0 != ms[n].0 {
        assert r[i] in ms[..n];
      }
    }
  }

  lemma MembersDistinct(p: Payload, order: seq<Bytes>)
    requires Orders(order, p.claims) && NoStandardClaim(p)
    ensures DistinctNames(Members(p, order))
  {
    hide Kept;
    var (f, k, c) := (Fields(p), Kept(Fields(p)), ClaimMembers(p.claims, order));
    FieldNames(p);
    KeptDistinct(f);
    forall i, j | 0 <= i < |k| && 0 <= j < |c| ensures k[i].0 != c[j].0 {
      assert k[i] in k && c[j].0 in p.claims;
    }
  }

  /** The strings of the payload are ones that the library takes. */
  ghost predicate PayloadTaken(p: Payload, takes: Bytes -> bool) {
    && takes(p.sub) && takes(p.iss) && takes(p.aud) && takes(p.jti)
    && forall k :: k in p.claims ==> takes(k) && takes(p.claims[k])
  }

  lemma MembersTaken(p: Payload, order: seq<Bytes>, takes: Bytes -> bool)
    requires Orders(order, p.claims) && PayloadTaken(p, takes) && forall s :: Plain(s) ==> takes(s)
    ensures AllTaken(Members(p, order), takes)
  {
    hide Kept;
    FieldNames(p);
    assert forall i :: 0 <= i < 7 ==> Plain(STANDARD[i]);
    assert AllTaken(Fields(p), takes);
    KeptDistinct(Fields(p));
    forall i | 0 <= i < |Kept(Fields(p))| ensures Kept(Fields(p))[i] in Fields(p) {
    }
  }

  /** A conforming library reads the text of a payload without standard names among its claims back as the
      members that were written. */
  lemma PayloadParsed(lib: Library, takes: Bytes -> bool, p: Payload, order: seq<Bytes>)
    requires Orders(order, p.claims) && Conforming(lib, takes)
    ensures AllEscapable(p) && PayloadTaken(p, takes) && NoStandardClaim(p) ==>
              lib.parse(PayloadText(p, order)) == Some(ObjectOf(Members(p, order)))
    ensures Strict(lib) && !AllEscapable(p) ==> lib.parse(PayloadText(p, order)) == None
  {
    hide AllEscapable, AllWritten, AllReadable, AllTaken, DistinctNames, NoStandardClaim, Members, ObjectOf, Braced, Texts, Plain;
    PayloadMembers(p, order);
    if AllEscapable(p) && PayloadTaken(p, takes) && NoStandardClaim(p) {
      MembersDistinct(p, order);
      MembersTaken(p, order, takes);
    }
  }
}
