/** The texts of a token with their letters and names written out (jwt.v; section 4 of RFC 4648). */
module TokenTexts {
  import opened Base64
  import opened JwtPayload
  import opened Jwt

  function Ascii(s: string): Bytes
    requires forall i :: 0 <= i < |s| ==> s[i] < 128 as char
  {
    seq(|s|, i requires 0 <= i < |s| => s[i] as bv8)
  }

  // ----- base64 -----

  /** The alphabet: capital letters, small letters, digits, '+' and '/'; both directions. */
  lemma LetterIs(i: bv8)
    requires i < 64
    ensures Letter(i) as int == if i < 26 then 'A' as int + i as int else if i < 52 then 'a' as int + i as int - 26
                                else if i < 62 then '0' as int + i as int - 52 else if i == 62 then '+' as int else '/' as int
    ensures Index(Letter(i)) == i
  {
  }

  /** Bits 6j to 6j + 5 of 24, counted from the left. */
  function Sextet(n: bv24, j: int): bv8 {
    ((if j == 0 then n >> 18 else if j == 1 then n >> 12 else if j == 2 then n >> 6 else n) & 63) as bv8
  }

  function Bits(a: bv8, b: bv8, c: bv8): bv24 {
    (a as bv24 << 16) | (b as bv24 << 8) | c as bv24
  }

  lemma QuadIs(a: bv8, b: bv8, c: bv8)
    ensures var n := Bits(a, b, c);
            Quad(a, b, c) == [Letter(Sextet(n, 0)), Letter(Sextet(n, 1)), Letter(Sextet(n, 2)), Letter(Sextet(n, 3))]
  {
  }

  /** The letter at place `i` of encoded text: six bits of its group of three bytes, missing bytes counting as
      zero, and '=' where the bytes are missing. */
  function LetterAt(d: Bytes, i: nat): bv8
    requires i / 4 * 3 < |d|
  {
    var g := i / 4 * 3;
    var n := Bits(d[g], if g + 1 < |d| then d[g + 1] else 0, if g + 2 < |d| then d[g + 2] else 0);
    if g + i % 4 > |d| then '=' as bv8 else Letter(Sextet(n, i % 4))
  }

  lemma LetterBehind(d: Bytes, i: nat)
    requires 4 <= i && i / 4 * 3 < |d|
    ensures (i - 4) / 4 * 3 < |d[3..]| && LetterAt(d, i) == LetterAt(d[3..], i - 4)
  {
    hide Letter, Sextet, Bits;
    var (r, g) := (d[3..], i / 4 * 3);
    assert (i - 4) / 4 == i / 4 - 1 && (i - 4) % 4 == i % 4;
    assert forall k :: 0 <= k < |r| ==> r[k] == d[k + 3];
  }

  lemma {:induction false} EncodeIs(d: Bytes, i: nat)
    requires i < |Encode(d)|
    ensures i / 4 * 3 < |d| && Encode(d)[i] == LetterAt(d, i)
    decreases |d|
  {
    if |d| > 3 && i >= 4 {
      hide Quad, LetterAt;
      QuadLength(d[0], d[1], d[2]);
      EncodeIs(d[3..], i - 4);
      LetterBehind(d, i);
    } else {
      FirstFour(d, i);
    }
  }

  lemma FirstFour(d: Bytes, i: nat)
    requires i < |Encode(d)| && (i < 4 || |d| <= 3)
    ensures i < 4 && |d| > 0 && Encode(d)[i] == LetterAt(d, i)
  {
    hide Letter, Sextet, Bits, Quad;
    if |d| > 0 {
      var (b, c) := (if |d| > 1 then d[1] else 0, if |d| > 2 then d[2] else 0);
      QuadIs(d[0], b, c);
      QuadLength(d[0], b, c);
    }
  }

  lemma {:induction false} EncodeLength(d: Bytes)
    ensures |Encode(d)| == (|d| + 2) / 3 * 4
    decreases |d|
  {
    hide Quad;
    if |d| > 2 {
      EncodeLength(d[3..]);
      QuadLength(d[0], d[1], d[2]);
    } else if d != [] {
      QuadLength(d[0], if |d| > 1 then d[1] else 0, 0);
    }
  }

  /** The URL form: '-' for '+', '_' for '/', and no '=' at the end. */
  lemma UrlIs(d: Bytes)
    ensures |UrlEncode(d)| <= |Encode(d)|
    ensures forall i :: 0 <= i < |UrlEncode(d)| ==>
              Encode(d)[i] != '=' as bv8
              && UrlEncode(d)[i] == if Encode(d)[i] == '+' as bv8 then '-' as bv8
                                    else if Encode(d)[i] == '/' as bv8 then '_' as bv8 else Encode(d)[i]
    ensures forall i :: |UrlEncode(d)| <= i < |Encode(d)| ==> Encode(d)[i] == '=' as bv8
  {
    hide Encode, TrimRight;
    var body, n := EncodeShape(d);
    var u := Replace(Replace(body, PLUS, MINUS), SLASH, UNDERSCORE);
    assert Replace(Replace(Encode(d), PLUS, MINUS), SLASH, UNDERSCORE) == u + Pads(n);
    TrimPads(u, n);
  }

  // ----- names -----

  lemma AsciiIs(b: Bytes, s: string)
    requires |b| == |s| && forall i :: 0 <= i < |s| ==> s[i] < 128 as char && b[i] as int == s[i] as int
    ensures b == Ascii(s)
  {
  }

  function NameOf(alg: Alg): string {
    match alg
    case HS256 => "HS256"
    case HS384 => "HS384"
    case HS512 => "HS512"
  }

  lemma HeaderNames(alg: Alg)
    ensures HeaderText(alg) == Ascii("{\"alg\":\"") + Ascii(NameOf(alg)) + Ascii("\",\"typ\":\"JWT\"}")
  {
    hide Ascii;
    AsciiIs([123, 34, 97, 108, 103, 34, 58, 34], "{\"alg\":\"");
    AsciiIs([34, 44, 34, 116, 121, 112, 34, 58, 34, 74, 87, 84, 34, 125], "\",\"typ\":\"JWT\"}");
    AlgNames(alg);
    HeaderBytes(alg);
  }

  lemma AlgNames(alg: Alg)
    ensures AlgToString(alg) == Ascii(NameOf(alg))
  {
    hide Ascii;
    match alg
    case HS256 => AsciiIs(HS256_TEXT, "HS256");
    case HS384 => AsciiIs(HS384_TEXT, "HS384");
    case HS512 => AsciiIs(HS512_TEXT, "HS512");
  }

  lemma HeaderBytes(alg: Alg)
    ensures HeaderText(alg) == [123, 34, 97, 108, 103, 34, 58, 34] + AlgToString(alg) + [34, 44, 34, 116, 121, 112, 34, 58, 34, 74, 87, 84, 34, 125]
  {
    hide AlgToString;
  }

  lemma ClaimNames()
    ensures SUB == Ascii("sub") && ISS == Ascii("iss") && AUD == Ascii("aud") && EXP == Ascii("exp")
    ensures NBF == Ascii("nbf") && IAT == Ascii("iat") && JTI == Ascii("jti")
  {
    hide Ascii;
    AsciiIs(SUB, "sub");
    AsciiIs(ISS, "iss");
    AsciiIs(AUD, "aud");
    AsciiIs(EXP, "exp");
    AsciiIs(NBF, "nbf");
    AsciiIs(IAT, "iat");
    AsciiIs(JTI, "jti");
  }

  ghost predicate Named(o: map<Bytes, Json>, name: string, kept: bool, value: Json)
    requires forall i :: 0 <= i < |name| ==> name[i] < 128 as char
  {
    (Ascii(name) in o <==> kept) && (kept ==> o[Ascii(name)] == value)
  }

  /** The object whose members a payload is written as, name by name; nothing else is in it. */
  lemma PayloadNames(p: Payload, order: seq<Bytes>)
    requires Orders(order, p.claims) && NoStandardClaim(p)
    ensures var o := ObjectOf(Members(p, order));
            && Named(o, "sub", p.sub != [], Str(p.sub)) && Named(o, "iss", p.iss != [], Str(p.iss))
            && Named(o, "aud", p.aud != [], Str(p.aud)) && Named(o, "exp", p.exp != 0, Num(p.exp))
            && Named(o, "nbf", p.nbf != 0, Num(p.nbf)) && Named(o, "iat", p.iat != 0, Num(p.iat))
            && Named(o, "jti", p.jti != [], Str(p.jti))
            && (forall k :: k in p.claims ==> k in o && o[k] == Str(p.claims[k]))
            && forall k :: k in o && k !in p.claims ==>
                 k in [Ascii("sub"), Ascii("iss"), Ascii("aud"), Ascii("exp"), Ascii("nbf"), Ascii("iat"), Ascii("jti")]
  {
    hide Orders, Members, ObjectOf, Ascii;
    ClaimNames();
    var o := ObjectOf(Members(p, order));
    StandardHolds(p, order, 0);
    StandardHolds(p, order, 1);
    StandardHolds(p, order, 2);
    StandardHolds(p, order, 3);
    StandardHolds(p, order, 4);
    StandardHolds(p, order, 5);
    StandardHolds(p, order, 6);
    forall k | k in p.claims ensures k in o && o[k] == Str(p.claims[k]) {
      ClaimHolds(p, order, k);
    }
    forall k | k in o && k !in p.claims ensures k in STANDARD {
      if k !in STANDARD {
        ClaimHolds(p, order, k);
      }
    }
  }

  function TextUnder(o: map<Bytes, Json>, name: string): Bytes
    requires forall i :: 0 <= i < |name| ==> name[i] < 128 as char
  {
    if Ascii(name) in o then o[Ascii(name)].Text() else []
  }

  function NumberUnder(lib: Library, o: map<Bytes, Json>, name: string): int
    requires forall i :: 0 <= i < |name| ==> name[i] < 128 as char
  {
    if Ascii(name) in o then lib.Number(o[Ascii(name)]) else 0
  }

  /** What is read from any object, name by name. */
  lemma PayloadReads(lib: Library, o: map<Bytes, Json>)
    ensures var p := PayloadOf(lib, o);
            && p.sub == TextUnder(o, "sub") && p.iss == TextUnder(o, "iss") && p.aud == TextUnder(o, "aud")
            && p.exp == NumberUnder(lib, o, "exp") && p.nbf == NumberUnder(lib, o, "nbf") && p.iat == NumberUnder(lib, o, "iat")
            && p.jti == TextUnder(o, "jti")
            && forall k :: k in p.claims <==>
                 k in o && k !in [Ascii("sub"), Ascii("iss"), Ascii("aud"), Ascii("exp"), Ascii("nbf"), Ascii("iat"), Ascii("jti")]
    ensures forall k :: k in PayloadOf(lib, o).claims ==> PayloadOf(lib, o).claims[k] == o[k].Text()
  {
    hide Ascii;
    ClaimNames();
  }
}
