/** Standard base64 (section 4 of RFC 4648) and the URL form of jwt.v. */
module Base64 {

  import opened Options

  type Bytes = seq<bv8>

  const PLUS: bv8 := 43
  const SLASH: bv8 := 47
  const MINUS: bv8 := 45
  const UNDERSCORE: bv8 := 95
  const PAD: bv8 := 61
  const DOT: bv8 := 46

  // ----- the alphabet -----

  function Letter(i: bv8): bv8 {
    if i < 26 then i + 65 else if i < 52 then i + 71 else if i < 62 then i - 4 else if i == 62 then PLUS else SLASH
  }

  predicate InAlphabet(c: bv8) {
    65 <= c <= 90 || 97 <= c <= 122 || 48 <= c <= 57 || c == PLUS || c == SLASH
  }

  function Index(c: bv8): bv8 {
    if 65 <= c <= 90 then c - 65 else if 97 <= c <= 122 then c - 71 else if 48 <= c <= 57 then c + 4
    else if c == PLUS then 62 else 63
  }

  lemma LetterIndex(i: bv8)
    requires i < 64
    ensures InAlphabet(Letter(i)) && Index(Letter(i)) == i && Letter(i) != PAD
  {
  }

  // ----- encoding -----

  // The six-bit groups of three bytes, and the bytes of four groups.
  function S0(a: bv8): bv8 { a >> 2 }
  function S1(a: bv8, b: bv8): bv8 { ((a & 3) << 4) | (b >> 4) }
  function S2(b: bv8, c: bv8): bv8 { ((b & 15) << 2) | (c >> 6) }
  function S3(c: bv8): bv8 { c & 63 }
  function T0(i: bv8, j: bv8): bv8 { (i << 2) | (j >> 4) }
  function T1(j: bv8, k: bv8): bv8 { ((j & 15) << 4) | (k >> 2) }
  function T2(k: bv8, l: bv8): bv8 { ((k & 3) << 6) | l }

  lemma Sextets(a: bv8, b: bv8, c: bv8)
    ensures S0(a) < 64 && S1(a, b) < 64 && S2(b, c) < 64 && S3(c) < 64
    ensures T0(S0(a), S1(a, b)) == a && T1(S1(a, b), S2(b, c)) == b && T2(S2(b, c), S3(c)) == c
  {
  }

  /** The four letters of three bytes. */
  function Quad(a: bv8, b: bv8, c: bv8): Bytes {
    [Letter(S0(a)), Letter(S1(a, b)), Letter(S2(b, c)), Letter(S3(c))]
  }

  function Encode(d: Bytes): Bytes {
    if d == [] then []
    else if |d| == 1 then Quad(d[0], 0, 0)[..2] + [PAD, PAD]
    else if |d| == 2 then Quad(d[0], d[1], 0)[..3] + [PAD]
    else Quad(d[0], d[1], d[2]) + Encode(d[3..])
  }

  /** The three bytes of four letters. */
  function Triple(q: Bytes): Bytes
    requires |q| == 4
  {
    var (i, j, k, l) := (Index(q[0]), Index(q[1]), Index(q[2]), Index(q[3]));
    [T0(i, j), T1(j, k), T2(k, l)]
  }

  /** Decoding; None for text that is not base64. */
  function Decode(s: Bytes): Option<Bytes> {
    if s == [] then Some([])
    else if |s| < 4 || !InAlphabet(s[0]) || !InAlphabet(s[1]) then None
    else if |s| == 4 && s[2] == PAD && s[3] == PAD then Some(Triple(s)[..1])
    else if !InAlphabet(s[2]) then None
    else if |s| == 4 && s[3] == PAD then Some(Triple(s)[..2])
    else if !InAlphabet(s[3]) then None
    else
      var r := Decode(s[4..]);
      if r.None? then None else Some(Triple(s[..4]) + r.value)
  }

  lemma QuadTriple(a: bv8, b: bv8, c: bv8)
    ensures Triple(Quad(a, b, c)) == [a, b, c]
    ensures forall i :: 0 <= i < 4 ==> InAlphabet(Quad(a, b, c)[i]) && Quad(a, b, c)[i] != PAD
  {
    hide Letter, Index, InAlphabet, S0, S1, S2, S3, T0, T1, T2;
    Sextets(a, b, c);
    LetterIndex(S0(a));
    LetterIndex(S1(a, b));
    LetterIndex(S2(b, c));
    LetterIndex(S3(c));
  }

  /** Decoding undoes encoding. */
  lemma {:induction false} EncodeDecode(d: Bytes)
    ensures Decode(Encode(d)) == Some(d)
    decreases |d|
  {
    hide Letter, Index, InAlphabet;
    if d == [] {
    } else if |d| == 1 {
      TailOne(d[0]);
      assert d == [d[0]];
    } else if |d| == 2 {
      TailTwo(d[0], d[1]);
      assert d == [d[0], d[1]];
    } else {
      hide Triple, Quad;
      var q := Quad(d[0], d[1], d[2]);
      QuadTriple(d[0], d[1], d[2]);
      EncodeDecode(d[3..]);
      var s := Encode(d);
      QuadLength(d[0], d[1], d[2]);
      assert s[..4] == q && s[4..] == Encode(d[3..]);
      assert s[0] == q[0] && s[1] == q[1] && s[2] == q[2] && s[3] == q[3];
      assert Decode(s) == Some(Triple(q) + d[3..]);
      assert d == [d[0], d[1], d[2]] + d[3..];
    }
  }

  lemma QuadLength(a: bv8, b: bv8, c: bv8)
    ensures |Quad(a, b, c)| == 4
  {
  }

  lemma TailOne(a: bv8)
    ensures Decode(Quad(a, 0, 0)[..2] + [PAD, PAD]) == Some([a])
  {
    hide Letter, Index, InAlphabet, S0, S1, S2, S3, T0, T1, T2;
    var s := Quad(a, 0, 0)[..2] + [PAD, PAD];
    Sextets(a, 0, 0);
    LetterIndex(S0(a));
    LetterIndex(S1(a, 0));
    assert Triple(s)[..1] == [a];
  }

  lemma TailTwo(a: bv8, b: bv8)
    ensures Decode(Quad(a, b, 0)[..3] + [PAD]) == Some([a, b])
  {
    hide Letter, Index, InAlphabet, S0, S1, S2, S3, T0, T1, T2;
    var s := Quad(a, b, 0)[..3] + [PAD];
    Sextets(a, b, 0);
    LetterIndex(S0(a));
    LetterIndex(S1(a, b));
    LetterIndex(S2(b, 0));
    assert Triple(s)[..2] == [a, b];
  }

  // ----- shape of encoded text -----

  ghost predicate Letters(s: Bytes) {
    forall i :: 0 <= i < |s| ==> InAlphabet(s[i])
  }

  function Pads(n: nat): Bytes {
    seq(n, _ => PAD)
  }

  /** Encoded text is letters and up to two pads, four to a group. */
  lemma {:induction false} EncodeShape(d: Bytes) returns (body: Bytes, n: nat)
    ensures n < 3 && Encode(d) == body + Pads(n) && Letters(body) && (|body| + n) % 4 == 0
    decreases |d|
  {
    hide InAlphabet, Letter, Quad;
    if d == [] {
      body, n := [], 0;
      assert [] + Pads(0) == Encode(d);
    } else {
      var (a, b, c) := (d[0], if |d| > 1 then d[1] else 0, if |d| > 2 then d[2] else 0);
      QuadTriple(a, b, c);
      QuadLength(a, b, c);
      var q := Quad(a, b, c);
      if |d| == 1 {
        body, n := q[..2], 2;
        assert Pads(2) == [PAD, PAD];
      } else if |d| == 2 {
        body, n := q[..3], 1;
        assert Pads(1) == [PAD];
      } else {
        var r;
        r, n := EncodeShape(d[3..]);
        body := q + r;
        assert Encode(d) == body + Pads(n);
      }
    }
  }

  // ----- the URL form -----

  /** V's string.replace for single characters. */
  function Replace(s: Bytes, a: bv8, b: bv8): Bytes {
    seq(|s|, i requires 0 <= i < |s| => if s[i] == a then b else s[i])
  }

  /** V's trim_right. */
  function TrimRight(s: Bytes, c: bv8): Bytes {
    if s != [] && s[|s| - 1] == c then TrimRight(s[..|s| - 1], c) else s
  }

  /** base64url_encode */
  function UrlEncode(d: Bytes): Bytes {
    TrimRight(Replace(Replace(Encode(d), PLUS, MINUS), SLASH, UNDERSCORE), PAD)
  }

  /** The library's decoder: `junk` stands for what it makes of text that is not base64. */
  function DecodeAny(s: Bytes, junk: Bytes -> Bytes): Bytes {
    var r := Decode(s);
    if r.Some? then r.value else junk(s)
  }

  function Padding(n: nat): nat {
    (4 - n % 4) % 4
  }

  function Standard(data: Bytes): Bytes {
    var s := Replace(Replace(data, MINUS, PLUS), UNDERSCORE, SLASH);
    s + Pads(Padding(|s|))
  }

  /** base64url_decode */
  method UrlDecode(data: Bytes, junk: Bytes -> Bytes) returns (d: Bytes)
    ensures d == DecodeAny(Standard(data), junk)
  {
    hide Decode, Replace;
    var standard := Replace(Replace(data, MINUS, PLUS), UNDERSCORE, SLASH);
    ghost var s := standard;
    var padding := Padding(|standard|);
    for i := 0 to padding
      invariant standard == s + Pads(i)
    {
      standard := standard + [PAD];
    }
    d := DecodeAny(standard, junk);
  }

  lemma {:induction false} TrimPads(body: Bytes, n: nat)
    requires body != [] ==> body[|body| - 1] != PAD
    ensures TrimRight(body + Pads(n), PAD) == body
  {
    var s := body + Pads(n);
    if n == 0 {
      assert s == body;
    } else {
      assert s[..|s| - 1] == body + Pads(n - 1);
      TrimPads(body, n - 1);
    }
  }

  /** The URL alphabet: no '+', '/', '=' and no '.'. */
  predicate InUrlAlphabet(c: bv8) {
    65 <= c <= 90 || 97 <= c <= 122 || 48 <= c <= 57 || c == MINUS || c == UNDERSCORE
  }

  /** Re-padding and decoding restores the bytes; encoded text stays within the URL alphabet. */
  lemma UrlRoundTrip(d: Bytes)
    ensures Standard(UrlEncode(d)) == Encode(d)
    ensures forall junk: Bytes -> Bytes :: DecodeAny(Standard(UrlEncode(d)), junk) == d
    ensures forall i :: 0 <= i < |UrlEncode(d)| ==> InUrlAlphabet(UrlEncode(d)[i])
  {
    hide Encode, Decode, TrimRight;
    var body, n := EncodeShape(d);
    var u := Replace(Replace(body, PLUS, MINUS), SLASH, UNDERSCORE);
    assert Replace(Replace(Encode(d), PLUS, MINUS), SLASH, UNDERSCORE) == u + Pads(n);
    TrimPads(u, n);
    assert Replace(Replace(u, MINUS, PLUS), UNDERSCORE, SLASH) == body;
    assert Padding(|body|) == n;
    EncodeDecode(d);
  }
}
