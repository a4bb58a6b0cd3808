/** Chunk arithmetic of chunk_manager.v, with V's 32-bit `int`. */
module UploadArith {
  import opened VInt

  type Bytes = seq<bv8>

  /** calculate_total_chunks. */
  function TotalChunks(fileSize: int, chunkSize: int): int
    requires fileSize > 0 && chunkSize > 0
  {
    var chunks := fileSize / chunkSize;
    if fileSize % chunkSize > 0 then Int32(Int32(chunks) + 1) else Int32(chunks)
  }

  /** The number of chunks the file really has. */
  function Ceiling(fileSize: int, chunkSize: int): int
    requires fileSize > 0 && chunkSize > 0
  {
    (fileSize + chunkSize - 1) / chunkSize
  }

  lemma CeilingIs(fileSize: int, chunkSize: int)
    requires fileSize > 0 && chunkSize > 0
    ensures var k := Ceiling(fileSize, chunkSize);
            1 <= k && (k - 1) * chunkSize < fileSize <= k * chunkSize
    ensures Ceiling(fileSize, chunkSize) == fileSize / chunkSize + (if fileSize % chunkSize > 0 then 1 else 0)
  {
    var q, r := fileSize / chunkSize, fileSize % chunkSize;
    assert fileSize == q * chunkSize + r;
    var k := if r > 0 then q + 1 else q;
    QuotientIs(fileSize + chunkSize - 1, chunkSize, k, if r > 0 then r - 1 else chunkSize - 1);
  }

  lemma QuotientIs(a: int, c: int, q: int, r: int)
    requires 0 <= r < c && a == q * c + r
    ensures a / c == q
  {
    var d := a / c;
    assert q * c + r == d * c + a % c;
    if q > d {
      MulMono(d + 1, q, c);
    } else if q < d {
      MulMono(q + 1, d, c);
    }
  }

  /** The count is the exact ceiling if and only if that number fits in an `int`; it is never larger. */
  lemma TotalChunksExact(fileSize: int, chunkSize: int)
    requires fileSize > 0 && chunkSize > 0
    ensures TotalChunks(fileSize, chunkSize) == Ceiling(fileSize, chunkSize) <==> Ceiling(fileSize, chunkSize) <= MAX_INT
    ensures TotalChunks(fileSize, chunkSize) <= Ceiling(fileSize, chunkSize)
  {
    CeilingIs(fileSize, chunkSize);
    Int32Next(fileSize / chunkSize);
  }

  /** A file of 2^32 chunks counts as having none. */
  lemma TotalChunksWraps(chunkSize: int)
    requires chunkSize > 0
    ensures TotalChunks(0x1_0000_0000 * chunkSize, chunkSize) == 0
  {
    QuotientIs(0x1_0000_0000 * chunkSize, chunkSize, 0x1_0000_0000, 0);
  }

  function Min(a: int, b: int): int {
    if a < b then a else b
  }

  /** get_part_range: first and last byte of part `n`. */
  function PartRange(fileSize: int, chunkSize: int, n: int): (int, int) {
    var start := (n - 1) * chunkSize;
    var end := start + chunkSize - 1;
    (start, if end >= fileSize then fileSize - 1 else end)
  }

  /** The ranges are non-empty, at most a chunk long, contiguous, and cover the file exactly. */
  lemma PartRangeCovers(fileSize: int, chunkSize: int, n: int)
    requires fileSize > 0 && chunkSize > 0 && 1 <= n <= Ceiling(fileSize, chunkSize)
    ensures var (lo, hi) := PartRange(fileSize, chunkSize, n);
            && 0 <= lo <= hi < fileSize && hi - lo < chunkSize
            && (n == 1 ==> lo == 0)
            && (n < Ceiling(fileSize, chunkSize) ==> PartRange(fileSize, chunkSize, n + 1).0 == hi + 1)
            && (n == Ceiling(fileSize, chunkSize) ==> hi == fileSize - 1)
            && hi + 1 == Min(n * chunkSize, fileSize)
  {
    var k := Ceiling(fileSize, chunkSize);
    CeilingIs(fileSize, chunkSize);
    MulMono(n - 1, k - 1, chunkSize);
    assert n * chunkSize == (n - 1) * chunkSize + chunkSize;
    if n < k {
      MulMono(n, k - 1, chunkSize);
    }
  }

  lemma MulMono(a: int, b: int, c: int)
    requires a <= b && c > 0
    ensures a * c <= b * c && (a >= 0 ==> 0 <= a * c)
    ensures (a + 1) * c == a * c + c
  {
    assert (b - a) * c >= 0;
  }

  /** get_expected_part_size. */
  function PartSize(fileSize: int, chunkSize: int, n: int): int {
    var (lo, hi) := PartRange(fileSize, chunkSize, n);
    hi - lo + 1
  }

  ghost function SizesUpTo(fileSize: int, chunkSize: int, n: nat): int {
    if n == 0 then 0 else SizesUpTo(fileSize, chunkSize, n - 1) + PartSize(fileSize, chunkSize, n)
  }

  lemma {:induction false} SizesSum(fileSize: int, chunkSize: int, n: nat)
    requires fileSize > 0 && chunkSize > 0 && n <= Ceiling(fileSize, chunkSize)
    ensures SizesUpTo(fileSize, chunkSize, n) == Min(n * chunkSize, fileSize)
    ensures n == Ceiling(fileSize, chunkSize) ==> SizesUpTo(fileSize, chunkSize, n) == fileSize
  {
    CeilingIs(fileSize, chunkSize);
    if n > 0 {
      SizesSum(fileSize, chunkSize, n - 1);
      PartRangeCovers(fileSize, chunkSize, n);
      if n > 1 {
        PartRangeCovers(fileSize, chunkSize, n - 1);
      }
    }
  }

  /** The bytes of part `n` of file `f`. */
  ghost function Slice(f: Bytes, chunkSize: int, n: int): Bytes
    requires |f| > 0 && chunkSize > 0 && 1 <= n <= Ceiling(|f|, chunkSize)
  {
    var (lo, hi) := PartRange(|f|, chunkSize, n);
    PartRangeCovers(|f|, chunkSize, n);
    f[lo..hi + 1]
  }

  /** The first `n` parts, one after the other. */
  ghost function Slices(f: Bytes, chunkSize: int, n: nat): Bytes
    requires |f| > 0 && chunkSize > 0 && n <= Ceiling(|f|, chunkSize)
  {
    if n == 0 then [] else Slices(f, chunkSize, n - 1) + Slice(f, chunkSize, n)
  }

  lemma {:induction false} SlicesArePrefix(f: Bytes, chunkSize: int, n: nat)
    requires |f| > 0 && chunkSize > 0 && n <= Ceiling(|f|, chunkSize)
    ensures 0 <= Min(n * chunkSize, |f|) && Slices(f, chunkSize, n) == f[..Min(n * chunkSize, |f|)]
  {
    if n > 0 {
      SlicesArePrefix(f, chunkSize, n - 1);
      PartRangeCovers(|f|, chunkSize, n);
      var (lo, hi) := PartRange(|f|, chunkSize, n);
      if n > 1 {
        PartRangeCovers(|f|, chunkSize, n - 1);
      }
      assert f[..lo] + f[lo..hi + 1] == f[..hi + 1];
    }
  }

  /** They make up the whole file exactly when none is missing. */
  lemma SlicesWhole(f: Bytes, chunkSize: int, n: nat)
    requires |f| > 0 && chunkSize > 0 && n <= Ceiling(|f|, chunkSize)
    ensures Slices(f, chunkSize, n) == f <==> n == Ceiling(|f|, chunkSize)
  {
    CeilingIs(|f|, chunkSize);
    SlicesArePrefix(f, chunkSize, n);
    if n < Ceiling(|f|, chunkSize) {
      MulMono(n, Ceiling(|f|, chunkSize) - 1, chunkSize);
    }
  }
}
