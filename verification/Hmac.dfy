/** The keyed hash of jwt.v: hmac_sha256, hmac_sha384 and hmac_sha512 are one algorithm with three hashes. */
module Hmac {
  import opened Base64

  ghost predicate Sized(hash: Bytes -> Bytes, n: nat) {
    forall b :: |hash(b)| == n
  }

  ghost function Masked(k: Bytes, mask: bv8): Bytes {
    seq(|k|, i requires 0 <= i < |k| => k[i] ^ mask)
  }

  /** The key as one block: hashed when too long, then filled with zeros. */
  ghost function KeyBlock(hash: Bytes -> Bytes, block: nat, secret: Bytes): Bytes {
    var k := if |secret| > block then hash(secret) else secret;
    if |k| > block then k else k + seq(block - |k|, _ => 0)
  }

  /** Section 2 of RFC 2104. */
  ghost function HmacOf(hash: Bytes -> Bytes, block: nat, message: Bytes, secret: Bytes): Bytes {
    var k := KeyBlock(hash, block, secret);
    hash(Masked(k, 0x5c) + hash(Masked(k, 0x36) + message))
  }

  /** The keyed hash with everything written out: the key, hashed if it is longer than a block and filled with
      zeros, goes byte by byte into the two pads. */
  lemma HmacIs(hash: Bytes -> Bytes, block: nat, size: nat, message: Bytes, secret: Bytes)
    requires Sized(hash, size) && size <= block
    ensures var key := if |secret| > block then hash(secret) else secret;
            && |key| <= block
            && HmacOf(hash, block, message, secret) ==
               hash(seq(block, k requires 0 <= k < block => (if k < |key| then key[k] else 0) ^ 0x5c)
                    + hash(seq(block, k requires 0 <= k < block => (if k < |key| then key[k] else 0) ^ 0x36) + message))
  {
    var key := if |secret| > block then hash(secret) else secret;
    var k := KeyBlock(hash, block, secret);
    assert Masked(k, 0x5c) == seq(block, k requires 0 <= k < block => (if k < |key| then key[k] else 0) ^ 0x5c);
    assert Masked(k, 0x36) == seq(block, k requires 0 <= k < block => (if k < |key| then key[k] else 0) ^ 0x36);
  }

  // ----- what a forgery takes -----

  lemma MaskedDiffer(k: Bytes, l: Bytes, mask: bv8)
    requires |k| == |l| && k != l
    ensures |Masked(k, mask)| == |Masked(l, mask)| && Masked(k, mask) != Masked(l, mask)
  {
    var i :| 0 <= i < |k| && k[i] != l[i];
    XorDiffers(k[i], l[i], mask);
    assert Masked(k, mask)[i] != Masked(l, mask)[i];
  }

  lemma XorDiffers(a: bv8, b: bv8, mask: bv8)
    requires a != b
    ensures a ^ mask != b ^ mask
  {
  }

  lemma FrontsDiffer(a: Bytes, b: Bytes, x: Bytes, y: Bytes)
    requires |a| == |b| && (a != b || x != y)
    ensures a + x != b + y
  {
    assert a == (a + x)[..|a|] && b == (b + y)[..|b|];
    assert x == (a + x)[|a|..] && y == (b + y)[|b|..];
  }

  /** Different secrets of one length, at most a block, have different key blocks. */
  lemma BlocksDiffer(hash: Bytes -> Bytes, block: nat, s: Bytes, t: Bytes)
    requires |s| == |t| <= block && s != t
    ensures KeyBlock(hash, block, s) != KeyBlock(hash, block, t)
  {
    FrontsDiffer(s, t, seq(block - |s|, _ => 0), seq(block - |t|, _ => 0));
  }

  /** The same keyed hash under secrets with different key blocks gives two texts with the same hash. */
  lemma SecretsCollide(hash: Bytes -> Bytes, block: nat, size: nat, message: Bytes, s: Bytes, t: Bytes) returns (x: Bytes, y: Bytes)
    requires Sized(hash, size) && size <= block && KeyBlock(hash, block, s) != KeyBlock(hash, block, t)
    requires HmacOf(hash, block, message, s) == HmacOf(hash, block, message, t)
    ensures x != y && hash(x) == hash(y)
  {
    var (k, l) := (KeyBlock(hash, block, s), KeyBlock(hash, block, t));
    MaskedDiffer(k, l, 0x5c);
    x := Masked(k, 0x5c) + hash(Masked(k, 0x36) + message);
    y := Masked(l, 0x5c) + hash(Masked(l, 0x36) + message);
    FrontsDiffer(Masked(k, 0x5c), Masked(l, 0x5c), hash(Masked(k, 0x36) + message), hash(Masked(l, 0x36) + message));
  }

  /** So does the same keyed hash of different messages. */
  lemma MessagesCollide(hash: Bytes -> Bytes, block: nat, m: Bytes, n: Bytes, secret: Bytes) returns (x: Bytes, y: Bytes)
    requires m != n && HmacOf(hash, block, m, secret) == HmacOf(hash, block, n, secret)
    ensures x != y && hash(x) == hash(y)
  {
    var k := KeyBlock(hash, block, secret);
    x, y := Masked(k, 0x36) + m, Masked(k, 0x36) + n;
    FrontsDiffer(Masked(k, 0x36), Masked(k, 0x36), m, n);
    if hash(x) != hash(y) {
      FrontsDiffer(Masked(k, 0x5c), Masked(k, 0x5c), hash(x), hash(y));
      x, y := Masked(k, 0x5c) + hash(x), Masked(k, 0x5c) + hash(y);
    }
  }

  method ComputeHmac(hash: Bytes -> Bytes, block: nat, size: nat, message: Bytes, secret: Bytes) returns (r: Bytes)
    requires Sized(hash, size) && size <= block
    ensures r == HmacOf(hash, block, message, secret)
  {
    var key := secret;
    if |key| > block {
      key := Copy(hash(key), size);
    }
    ghost var k := key;
    while |key| < block
      invariant |k| <= |key| <= block && key == k + seq(|key| - |k|, _ => 0)
    {
      key := key + [0];
    }
    var iKeyPad := Mask(key, 0x36);
    var oKeyPad := Mask(key, 0x5c);
    var innerHash := Copy(hash(iKeyPad + message), size);
    r := Copy(hash(oKeyPad + innerHash), size);
  }

  method Mask(key: Bytes, mask: bv8) returns (pad: Bytes)
    ensures pad == Masked(key, mask)
  {
    pad := seq(|key|, _ => 0);
    for i := 0 to |key|
      invariant |pad| == |key| && forall j :: 0 <= j < i ==> pad[j] == key[j] ^ mask
    {
      pad := pad[i := key[i] ^ mask];
    }
  }

  /** The loop that copies a digest into a byte array. */
  method Copy(digest: Bytes, size: nat) returns (r: Bytes)
    requires |digest| == size
    ensures r == digest
  {
    r := seq(size, _ => 0);
    for i := 0 to size
      invariant |r| == size && r[..i] == digest[..i]
    {
      r := r[i := digest[i]];
      assert r[..i + 1] == r[..i] + [r[i]] && digest[..i + 1] == digest[..i] + [digest[i]];
    }
    assert r[..size] == r && digest[..size] == digest;
  }
}
