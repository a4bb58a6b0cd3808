/** Signing and verifying tokens (jwt.v). */
module Jwt {
  import opened Options
  import opened Base64
  import opened Splitting
  import opened Hmac
  import opened JsonReader
  import opened JsonText
  import opened JwtPayload

  datatype Alg = HS256 | HS384 | HS512

  datatype Error = SecretRequired | InvalidFormat | InvalidHeader | Unsupported | Mismatch | InvalidSignature | InvalidPayload

  datatype Result<T> = Ok(value: T) | Err(error: Error)

  /** The hash functions, the library decoder on text that is not base64, and the JSON library. */
  datatype World = World(sha256: Bytes -> Bytes, sha384: Bytes -> Bytes, sha512: Bytes -> Bytes,
                         junk: Bytes -> Bytes, json: Library)
  {
    ghost predicate Proper() {
      Sized(sha256, 32) && Sized(sha384, 48) && Sized(sha512, 64)
    }
  }

  const HS256_TEXT: Bytes := [72, 83, 50, 53, 54]
  const HS384_TEXT: Bytes := [72, 83, 51, 56, 52]
  const HS512_TEXT: Bytes := [72, 83, 53, 49, 50]
  const ALG_KEY: Bytes := [97, 108, 103]
  const TYP_KEY: Bytes := [116, 121, 112]
  const JWT_TEXT: Bytes := [74, 87, 84]

  function AlgToString(alg: Alg): Bytes {
    match alg
    case HS256 => HS256_TEXT
    case HS384 => HS384_TEXT
    case HS512 => HS512_TEXT
  }

  function StringToAlg(s: Bytes): Option<Alg> {
    if s == HS256_TEXT then Some(HS256)
    else if s == HS384_TEXT then Some(HS384)
    else if s == HS512_TEXT then Some(HS512)
    else None
  }

  lemma AlgRoundTrip(alg: Alg)
    ensures StringToAlg(AlgToString(alg)) == Some(alg)
  {
    assert HS256_TEXT[2] != HS384_TEXT[2] && HS256_TEXT[2] != HS512_TEXT[2] && HS384_TEXT[2] != HS512_TEXT[2];
  }

  // ----- signing -----

  /** The keyed hash of the algorithm (RFC 2104). */
  ghost function Signature(w: World, alg: Alg, message: Bytes, secret: Bytes): Bytes {
    match alg
    case HS256 => HmacOf(w.sha256, 64, message, secret)
    case HS384 => HmacOf(w.sha384, 128, message, secret)
    case HS512 => HmacOf(w.sha512, 128, message, secret)
  }

  method SignMessage(w: World, alg: Alg, message: Bytes, secret: Bytes) returns (r: Bytes)
    requires w.Proper()
    ensures r == Signature(w, alg, message, secret)
    ensures var (hash, block) := match alg case HS256 => (w.sha256, 64) case HS384 => (w.sha384, 128) case HS512 => (w.sha512, 128);
            var key := if |secret| > block then hash(secret) else secret;
            && |key| <= block
            && r == hash(seq(block, k requires 0 <= k < block => (if k < |key| then key[k] else 0) ^ 0x5c)
                         + hash(seq(block, k requires 0 <= k < block => (if k < |key| then key[k] else 0) ^ 0x36) + message))
  {
    SignatureIs(w, alg, message, secret);
    hide HmacOf;
    match alg {
      case HS256 => r := ComputeHmac(w.sha256, 64, 32, message, secret);
      case HS384 => r := ComputeHmac(w.sha384, 128, 48, message, secret);
      case HS512 => r := ComputeHmac(w.sha512, 128, 64, message, secret);
    }
  }

  function HeaderText(alg: Alg): Bytes {
    [OPEN] + StringMember(ALG_KEY, AlgToString(alg)) + [COMMA] + StringMember(TYP_KEY, JWT_TEXT) + [CLOSE]
  }

  ghost function SigningInput(header: Bytes, payload: Bytes): Bytes {
    UrlEncode(header) + [DOT] + UrlEncode(payload)
  }

  ghost function Token(w: World, input: Bytes, secret: Bytes, alg: Alg): Bytes {
    input + [DOT] + UrlEncode(Signature(w, alg, input, secret))
  }

  method SignJwt(w: World, p: Payload, order: seq<Bytes>, secret: Bytes, alg: Alg) returns (r: Result<Bytes>)
    requires w.Proper() && Orders(order, p.claims)
    ensures r == if secret == [] then Err(SecretRequired)
                 else Ok(Token(w, SigningInput(HeaderText(alg), PayloadText(p, order)), secret, alg))
  {
    hide PayloadText, Signature, UrlEncode;
    if |secret| == 0 {
      return Err(SecretRequired);
    }
    var headerEncoded := UrlEncode(HeaderText(alg));
    var payloadJson := EncodePayload(p, order);
    var payloadEncoded := UrlEncode(payloadJson);
    var signingInput := headerEncoded + [DOT] + payloadEncoded;
    var signature := SignMessage(w, alg, signingInput, secret);
    return Ok(signingInput + [DOT] + UrlEncode(signature));
  }

  // ----- verifying -----

  ghost function Decoded(w: World, part: Bytes): Bytes {
    DecodeAny(Standard(part), w.junk)
  }

  /** What verification answers. */
  ghost function Verdict(w: World, token: Bytes, secret: Bytes, alg: Alg): Result<Payload> {
    var parts := Split(token, DOT);
    if secret == [] then Err(SecretRequired)
    else if |parts| != 3 then Err(InvalidFormat)
    else
      var header := w.json.parse(Decoded(w, parts[0]));
      if header.None? then Err(InvalidHeader)
      else
        var named := StringToAlg(if ALG_KEY in header.value then header.value[ALG_KEY].Text() else []);
        if named.None? then Err(Unsupported)
        else if named.value != alg then Err(Mismatch)
        else if parts[2] != UrlEncode(Signature(w, alg, parts[0] + [DOT] + parts[1], secret)) then Err(InvalidSignature)
        else PayloadVerdict(w, parts[1])
  }

  ghost function PayloadVerdict(w: World, part: Bytes): Result<Payload> {
    var o := w.json.parse(Decoded(w, part));
    if o.None? then Err(InvalidPayload) else Ok(PayloadOf(w.json, o.value))
  }

  method DecodeJwt(w: World, token: Bytes) returns (r: Result<Payload>)
    ensures var parts := Split(token, DOT); r == if |parts| != 3 then Err(InvalidFormat) else PayloadVerdict(w, parts[1])
  {
    var parts := Split(token, DOT);
    if |parts| != 3 {
      return Err(InvalidFormat);
    }
    var payloadBytes := UrlDecode(parts[1], w.junk);
    var p := ParsePayload(w.json, payloadBytes);
    return if p.None? then Err(InvalidPayload) else Ok(p.value);
  }

  /** Looks at every byte, and answers true exactly on equal strings. */
  method ConstantTimeCompare(a: Bytes, b: Bytes) returns (same: bool)
    ensures same <==> a == b
  {
    if |a| != |b| {
      return false;
    }
    var result: bv8 := 0;
    for i := 0 to |a|
      invariant result == 0 <==> a[..i] == b[..i]
    {
      DifferenceBits(result, a[i], b[i]);
      assert a[..i + 1] == a[..i] + [a[i]] && b[..i + 1] == b[..i] + [b[i]];
      assert a[..i + 1] == b[..i + 1] <==> a[..i] == b[..i] && a[i] == b[i] by {
        if a[..i + 1] == b[..i + 1] {
          assert a[..i + 1][i] == a[i] && b[..i + 1][i] == b[i];
          assert a[..i] == a[..i + 1][..i] && b[..i] == b[..i + 1][..i];
        }
      }
      result := result | (a[i] ^ b[i]);
    }
    assert a[..|a|] == a && b[..|b|] == b;
    return result == 0;
  }

  lemma DifferenceBits(r: bv8, x: bv8, y: bv8)
    ensures r | (x ^ y) == 0 <==> r == 0 && x == y
  {
  }

  method VerifyJwt(w: World, token: Bytes, secret: Bytes, alg: Alg) returns (r: Result<Payload>)
    requires w.Proper()
    ensures r == Verdict(w, token, secret, alg)
  {
    hide PayloadVerdict, Signature, UrlEncode, Split, StringToAlg, Standard, DecodeAny;
    if |secret| == 0 {
      return Err(SecretRequired);
    }
    var parts := Split(token, DOT);
    if |parts| != 3 {
      return Err(InvalidFormat);
    }
    var headerBytes := UrlDecode(parts[0], w.junk);
    var header := w.json.parse(headerBytes);
    if header.None? {
      return Err(InvalidHeader);
    }
    var tokenAlgText := if ALG_KEY in header.value then header.value[ALG_KEY].Text() else [];
    var tokenAlg := StringToAlg(tokenAlgText);
    if tokenAlg.None? {
      return Err(Unsupported);
    }
    if tokenAlg.value != alg {
      return Err(Mismatch);
    }
    var signingInput := parts[0] + [DOT] + parts[1];
    var expected := SignMessage(w, alg, signingInput, secret);
    var same := ConstantTimeCompare(parts[2], UrlEncode(expected));
    if !same {
      return Err(InvalidSignature);
    }
    r := DecodeJwt(w, token);
  }

  /** Exactly when verification fails, and how. */
  lemma VerdictExact(w: World, token: Bytes, secret: Bytes, alg: Alg)
    ensures var (r, parts) := (Verdict(w, token, secret, alg), Split(token, DOT));
            && (r == Err(SecretRequired) <==> secret == [])
            && (r == Err(InvalidFormat) <==> secret != [] && |parts| != 3)
            && (secret != [] && |parts| == 3 ==>
                  var header := w.json.parse(Decoded(w, parts[0]));
                  && (r == Err(InvalidHeader) <==> header.None?)
                  && (header.Some? ==>
                        var name := if ALG_KEY in header.value then header.value[ALG_KEY].Text() else [];
                        var signed := parts[2] == UrlEncode(Signature(w, alg, parts[0] + [DOT] + parts[1], secret));
                        var payload := w.json.parse(Decoded(w, parts[1]));
                        && (r == Err(Unsupported) <==> forall a :: name != AlgToString(a))
                        && (r == Err(Mismatch) <==> name != AlgToString(alg) && exists a :: name == AlgToString(a))
                        && (r == Err(InvalidSignature) <==> name == AlgToString(alg) && !signed)
                        && (r == Err(InvalidPayload) <==> name == AlgToString(alg) && signed && payload.None?)
                        && (r.Ok? <==> name == AlgToString(alg) && signed && payload.Some?)
                        && (r.Ok? ==> r.value == PayloadOf(w.json, payload.value))))
  {
    hide Split, UrlEncode, Signature, Decoded, PayloadOf, AlgToString, StringToAlg;
    forall a: Alg, name: Bytes ensures name == AlgToString(a) <==> StringToAlg(name) == Some(a) {
      NameOnly(name, a);
    }
    var parts := Split(token, DOT);
    if secret != [] && |parts| == 3 {
      var header := w.json.parse(Decoded(w, parts[0]));
      if header.Some? {
        var name := if ALG_KEY in header.value then header.value[ALG_KEY].Text() else [];
        assert StringToAlg(name).Some? ==> name == AlgToString(StringToAlg(name).value);
      }
    }
  }

  lemma NameOnly(name: Bytes, a: Alg)
    ensures name == AlgToString(a) <==> StringToAlg(name) == Some(a)
  {
    AlgRoundTrip(a);
  }

  // ----- what verification means -----

  lemma UrlFree(d: Bytes)
    ensures Free(UrlEncode(d), DOT)
  {
    hide UrlEncode;
    UrlRoundTrip(d);
  }

  /** A signed token splits into exactly its three parts. */
  lemma ThreeParts(h: Bytes, p: Bytes, s: Bytes)
    ensures Split(UrlEncode(h) + [DOT] + UrlEncode(p) + [DOT] + UrlEncode(s), DOT) == [UrlEncode(h), UrlEncode(p), UrlEncode(s)]
  {
    hide UrlEncode, Split, Free;
    UrlFree(h);
    UrlFree(p);
    UrlFree(s);
    SplitNone(UrlEncode(h), DOT);
    SplitLast(UrlEncode(h), DOT, UrlEncode(p));
    SplitLast(UrlEncode(h) + [DOT] + UrlEncode(p), DOT, UrlEncode(s));
  }

  /** Decoding the parts of a token restores header and payload byte for byte. */
  lemma PartsDecode(w: World, h: Bytes)
    ensures Decoded(w, UrlEncode(h)) == h
  {
    hide UrlEncode, Standard, DecodeAny;
    UrlRoundTrip(h);
  }

  ghost function HeaderObject(alg: Alg): map<Bytes, Json> {
    map[ALG_KEY := Str(AlgToString(alg)), TYP_KEY := Str(JWT_TEXT)]
  }

  ghost function Signed(w: World, p: Payload, order: seq<Bytes>, secret: Bytes, alg: Alg): Bytes
    requires Orders(order, p.claims)
  {
    Token(w, SigningInput(HeaderText(alg), PayloadText(p, order)), secret, alg)
  }

  /** For every payload and every secret that is not empty, the signature of a signed token is accepted under
      the same secret and algorithm: what remains is to read the payload. Under another algorithm the token is
      rejected. All this takes is that the header reads back. */
  lemma SignatureAccepted(w: World, p: Payload, order: seq<Bytes>, secret: Bytes, alg: Alg, other: Alg)
    requires secret != [] && Orders(order, p.claims) && w.json.parse(HeaderText(alg)) == Some(HeaderObject(alg))
    ensures Verdict(w, Signed(w, p, order, secret, alg), secret, alg) == PayloadVerdict(w, UrlEncode(PayloadText(p, order)))
    ensures other != alg ==> Verdict(w, Signed(w, p, order, secret, alg), secret, other) == Err(Mismatch)
  {
    hide PayloadText, HeaderText, Signature, UrlEncode, Split, PayloadVerdict, Decoded, AlgToString, StringToAlg;
    var (h, t) := (HeaderText(alg), PayloadText(p, order));
    var input := SigningInput(h, t);
    ThreeParts(h, t, Signature(w, alg, input, secret));
    assert Split(Signed(w, p, order, secret, alg), DOT) == [UrlEncode(h), UrlEncode(t), UrlEncode(Signature(w, alg, input, secret))];
    PartsDecode(w, h);
    AlgRoundTrip(alg);
    KeysDiffer();
  }

  /** The JSON library reads back what this file writes. */
  ghost predicate ReadsBack(w: World, p: Payload, order: seq<Bytes>, alg: Alg)
    requires Orders(order, p.claims)
  {
    && w.json.parse(HeaderText(alg)) == Some(HeaderObject(alg))
    && w.json.parse(PayloadText(p, order)) == Some(ObjectOf(Members(p, order)))
  }

  /** A signed token verifies under the same secret and algorithm. The payload that comes back is the one
      signed, unless a custom claim has the name of a standard one; under another algorithm it is rejected. */
  lemma SignVerify(w: World, p: Payload, order: seq<Bytes>, secret: Bytes, alg: Alg, other: Alg)
    requires secret != [] && Orders(order, p.claims) && ReadsBack(w, p, order, alg)
    ensures var r := Verdict(w, Signed(w, p, order, secret, alg), secret, alg);
            r.Ok? && (r.value == p <==> NoStandardClaim(p))
    ensures other != alg ==> Verdict(w, Signed(w, p, order, secret, alg), secret, other) == Err(Mismatch)
  {
    hide PayloadText, HeaderText, Signed, Verdict, UrlEncode, PayloadOf, Decoded, ObjectOf, Members, NoStandardClaim;
    SignatureAccepted(w, p, order, secret, alg, other);
    PartsDecode(w, PayloadText(p, order));
    PayloadExact(w.json, p, order);
  }

  // ----- with a library that reads what is written here -----

  ghost function HeaderMembers(alg: Alg): seq<Member> {
    [(ALG_KEY, Str(AlgToString(alg))), (TYP_KEY, Str(JWT_TEXT))]
  }

  lemma HeaderRead(lib: Library, takes: Bytes -> bool, alg: Alg)
    requires Conforming(lib, takes)
    ensures lib.parse(HeaderText(alg)) == Some(HeaderObject(alg))
  {
    hide AllWritten, AllReadable, AllTaken, DistinctNames, HeaderMembers, HeaderText, HeaderObject, ObjectOf, Texts, Braced;
    HeaderWritten(takes, alg);
    HeaderIs(alg);
    HeaderIsObject(alg);
  }

  lemma HeaderIsObject(alg: Alg)
    ensures ObjectOf(HeaderMembers(alg)) == HeaderObject(alg)
  {
    hide AlgToString;
    var ms := HeaderMembers(alg);
    assert ms[..1] == [ms[0]] && ms[..1][..0] == [];
    assert ObjectOf(ms[..1]) == map[ALG_KEY := Str(AlgToString(alg))];
  }

  lemma HeaderPlain(alg: Alg)
    ensures forall s :: s in [ALG_KEY, TYP_KEY, JWT_TEXT, AlgToString(alg)] ==> Plain(s) && Escapable(s) && Escape(s) == s
  {
    hide Escape, Escapable;
    PlainText(ALG_KEY);
    PlainText(TYP_KEY);
    PlainText(JWT_TEXT);
    PlainText(AlgToString(alg));
  }

  lemma HeaderWritten(takes: Bytes -> bool, alg: Alg)
    requires forall s :: Plain(s) ==> takes(s)
    ensures var ms := HeaderMembers(alg); AllWritten(ms) && DistinctNames(ms) && AllReadable(ms) && AllTaken(ms, takes)
  {
    hide Escape, Escapable, Plain, AlgToString;
    HeaderPlain(alg);
    KeysDiffer();
  }

  lemma HeaderIs(alg: Alg)
    ensures HeaderText(alg) == Braced(Texts(HeaderMembers(alg)))
  {
    hide Escape, AlgToString;
    HeaderPlain(alg);
    var x := Texts(HeaderMembers(alg));
    assert x == [StringMember(ALG_KEY, AlgToString(alg)), StringMember(TYP_KEY, JWT_TEXT)];
    assert x[..1] == [x[0]];
    var (a, b) := (x[0], x[1]);
    assert Join(x, COMMA) == a + [COMMA] + b;
    assert [OPEN] + (a + [COMMA] + b) + [CLOSE] == [OPEN] + a + [COMMA] + b + [CLOSE];
  }

  /** No token gives back a payload with a claim of a standard name, whatever the library does. */
  lemma NeverStandard(w: World, token: Bytes, secret: Bytes, alg: Alg)
    requires Verdict(w, token, secret, alg).Ok?
    ensures NoStandardClaim(Verdict(w, token, secret, alg).value)
  {
    hide Signature, UrlEncode, Split, Decoded, StringToAlg;
  }

  /** With a conforming library nothing need be assumed of the text: the token of every payload passes the
      signature check, and a payload whose strings have an escape for every control character in them comes
      back as it was signed, if and only if no custom claim has the name of a standard one. If the library is
      strict, the other payloads are refused. */
  lemma SignVerifyConforming(w: World, takes: Bytes -> bool, p: Payload, order: seq<Bytes>, secret: Bytes, alg: Alg, other: Alg)
    requires secret != [] && Orders(order, p.claims) && Conforming(w.json, takes)
    ensures Verdict(w, Signed(w, p, order, secret, alg), secret, alg) == PayloadVerdict(w, UrlEncode(PayloadText(p, order)))
    ensures AllEscapable(p) && PayloadTaken(p, takes) ==>
              (Verdict(w, Signed(w, p, order, secret, alg), secret, alg) == Ok(p) <==> NoStandardClaim(p))
    ensures Strict(w.json) && !AllEscapable(p) ==> Verdict(w, Signed(w, p, order, secret, alg), secret, alg) == Err(InvalidPayload)
    ensures other != alg ==> Verdict(w, Signed(w, p, order, secret, alg), secret, other) == Err(Mismatch)
  {
    hide PayloadText, HeaderText, HeaderObject, Signed, Verdict, UrlEncode, AllEscapable, PayloadTaken, Conforming, Strict,
      ObjectOf, Members, NoStandardClaim, PayloadOf, Decoded;
    HeaderRead(w.json, takes, alg);
    SignatureAccepted(w, p, order, secret, alg, other);
    PartsDecode(w, PayloadText(p, order));
    PayloadParsed(w.json, takes, p, order);
    PayloadExact(w.json, p, order);
    if Verdict(w, Signed(w, p, order, secret, alg), secret, alg).Ok? {
      NeverStandard(w, Signed(w, p, order, secret, alg), secret, alg);
    }
  }

  lemma KeysDiffer()
    ensures ALG_KEY != TYP_KEY
  {
    assert ALG_KEY[0] != TYP_KEY[0];
  }

  /** Whatever verifies is a message followed by its own signature: two accepted tokens with the same
      message are the same token. */
  lemma AcceptedIsSigned(w: World, token: Bytes, secret: Bytes, alg: Alg)
    requires Verdict(w, token, secret, alg).Ok?
    ensures secret != [] && exists input :: token == Token(w, input, secret, alg)
  {
    hide Signature, UrlEncode, Split, StringToAlg, PayloadVerdict, Decoded;
    var parts := Split(token, DOT);
    ThreeJoined(token);
    assert token == Token(w, parts[0] + [DOT] + parts[1], secret, alg);
  }

  // ----- what a forgery takes -----

  function HashOf(w: World, alg: Alg): Bytes -> Bytes {
    match alg
    case HS256 => w.sha256
    case HS384 => w.sha384
    case HS512 => w.sha512
  }

  function BlockOf(alg: Alg): nat {
    match alg
    case HS256 => 64
    case HS384 => 128
    case HS512 => 128
  }

  lemma SizeOf(w: World, alg: Alg) returns (size: nat)
    requires w.Proper()
    ensures Sized(HashOf(w, alg), size) && size <= BlockOf(alg)
  {
    size := match alg case HS256 => 32 case HS384 => 48 case HS512 => 64;
  }

  /** The signature with everything written out: hash and block size by algorithm, the secret in both pads. */
  lemma SignatureIs(w: World, alg: Alg, message: Bytes, secret: Bytes)
    requires w.Proper()
    ensures var (hash, block) := match alg case HS256 => (w.sha256, 64) case HS384 => (w.sha384, 128) case HS512 => (w.sha512, 128);
            var key := if |secret| > block then hash(secret) else secret;
            && |key| <= block
            && Signature(w, alg, message, secret) ==
               hash(seq(block, k requires 0 <= k < block => (if k < |key| then key[k] else 0) ^ 0x5c)
                    + hash(seq(block, k requires 0 <= k < block => (if k < |key| then key[k] else 0) ^ 0x36) + message))
  {
    hide HmacOf;
    var size := SizeOf(w, alg);
    HmacIs(HashOf(w, alg), BlockOf(alg), size, message, secret);
  }

  /** Where a token that is accepted has its signature. */
  lemma SignatureAt(w: World, token: Bytes, secret: Bytes, alg: Alg)
    requires Verdict(w, token, secret, alg).Ok?
    ensures var parts := Split(token, DOT);
            && |parts| == 3
            && Decoded(w, parts[2]) == Signature(w, alg, parts[0] + [DOT] + parts[1], secret)
  {
    hide Signature, UrlEncode, Split, StringToAlg, PayloadVerdict, Decoded;
    var parts := Split(token, DOT);
    PartsDecode(w, Signature(w, alg, parts[0] + [DOT] + parts[1], secret));
  }

  /** If one token is accepted under two secrets with different key blocks, two texts have the same hash. */
  lemma TwoSecrets(w: World, token: Bytes, s: Bytes, t: Bytes, alg: Alg) returns (x: Bytes, y: Bytes)
    requires w.Proper() && Verdict(w, token, s, alg).Ok? && Verdict(w, token, t, alg).Ok?
    requires KeyBlock(HashOf(w, alg), BlockOf(alg), s) != KeyBlock(HashOf(w, alg), BlockOf(alg), t)
    ensures x != y && HashOf(w, alg)(x) == HashOf(w, alg)(y)
  {
    hide Verdict, Decoded, Split, HmacOf, KeyBlock;
    SignatureAt(w, token, s, alg);
    SignatureAt(w, token, t, alg);
    var parts := Split(token, DOT);
    var size := SizeOf(w, alg);
    x, y := SecretsCollide(HashOf(w, alg), BlockOf(alg), size, parts[0] + [DOT] + parts[1], s, t);
  }

  /** In particular a token signed under one secret is not accepted under another of the same length. */
  lemma SignedUnderAnother(w: World, p: Payload, order: seq<Bytes>, s: Bytes, t: Bytes, alg: Alg) returns (x: Bytes, y: Bytes)
    requires w.Proper() && Orders(order, p.claims) && s != t && |s| == |t| <= BlockOf(alg)
    requires Verdict(w, Signed(w, p, order, s, alg), t, alg).Ok?
    ensures x != y && HashOf(w, alg)(x) == HashOf(w, alg)(y)
  {
    hide Verdict, Decoded, Split, HmacOf, KeyBlock, PayloadText, HeaderText, UrlEncode, Signature;
    var (h, q) := (HeaderText(alg), PayloadText(p, order));
    var input := SigningInput(h, q);
    var signature := Signature(w, alg, input, s);
    ThreeParts(h, q, signature);
    SignatureAt(w, Signed(w, p, order, s, alg), t, alg);
    PartsDecode(w, signature);
    BlocksDiffer(HashOf(w, alg), BlockOf(alg), s, t);
    var size := SizeOf(w, alg);
    SignatureIsHmac(w, alg, input, s);
    SignatureIsHmac(w, alg, input, t);
    x, y := SecretsCollide(HashOf(w, alg), BlockOf(alg), size, input, s, t);
  }

  lemma SignatureIsHmac(w: World, alg: Alg, message: Bytes, secret: Bytes)
    ensures Signature(w, alg, message, secret) == HmacOf(HashOf(w, alg), BlockOf(alg), message, secret)
  {
    hide HmacOf;
  }

  /** If two different messages are accepted with one signature, two texts have the same hash. */
  lemma TwoMessages(w: World, a: Bytes, b: Bytes, secret: Bytes, alg: Alg) returns (x: Bytes, y: Bytes)
    requires Verdict(w, a, secret, alg).Ok? && Verdict(w, b, secret, alg).Ok?
    requires a != b && Split(a, DOT)[|Split(a, DOT)| - 1] == Split(b, DOT)[|Split(b, DOT)| - 1]
    ensures x != y && HashOf(w, alg)(x) == HashOf(w, alg)(y)
  {
    hide Verdict, Decoded, Split, HmacOf, Signature;
    SignatureAt(w, a, secret, alg);
    SignatureAt(w, b, secret, alg);
    var (p, q) := (Split(a, DOT), Split(b, DOT));
    var (m, n) := (p[0] + [DOT] + p[1], q[0] + [DOT] + q[1]);
    ThreeJoined(a);
    ThreeJoined(b);
    SignatureIsHmac(w, alg, m, secret);
    SignatureIsHmac(w, alg, n, secret);
    x, y := MessagesCollide(HashOf(w, alg), BlockOf(alg), m, n, secret);
  }

  lemma ThreeJoined(token: Bytes)
    requires |Split(token, DOT)| == 3
    ensures var parts := Split(token, DOT); token == parts[0] + [DOT] + parts[1] + [DOT] + parts[2]
  {
    hide Split;
    var parts := Split(token, DOT);
    JoinSplit(token, DOT);
    assert parts[..2][..1] == [parts[0]] && parts[..2][1] == parts[1];
    assert Join(parts, DOT) == Join(parts[..2], DOT) + [DOT] + parts[2];
    assert Join(parts[..2], DOT) == parts[0] + [DOT] + parts[1];
  }
}
