/** V's 32-bit `int` and 64-bit `i64`. */
module VInt {

  const MAX_INT: int := 0x7fff_ffff
  const MIN_I64: int := -0x8000_0000_0000_0000
  const MAX_I64: int := 0x7fff_ffff_ffff_ffff

  type I64 = n: int | MIN_I64 <= n <= MAX_I64

  /** The conversion `int(x)` of V: the low 32 bits, read as a signed number. */
  function Int32(x: int): (y: int)
    ensures -0x8000_0000 <= y <= MAX_INT
    ensures y == x <==> -0x8000_0000 <= x <= MAX_INT
    ensures 0 <= x ==> y <= x
  {
    (x + 0x8000_0000) % 0x1_0000_0000 - 0x8000_0000
  }

  /** Only multiples of 2^32 are lost. */
  lemma Int32Low(x: int)
    ensures (x - Int32(x)) % 0x1_0000_0000 == 0
  {
    var (m, a) := (0x1_0000_0000, x + 0x8000_0000);
    assert a == m * (a / m) + a % m && x - Int32(x) == m * (a / m);
    assert (m * (a / m)) % m == 0;
  }

  lemma Int32Next(x: int)
    ensures Int32(Int32(x) + 1) == Int32(x + 1)
  {
    var m, a := 0x1_0000_0000, x + 0x8000_0000;
    assert a == m * (a / m) + a % m;
    assert (a % m + 1) % m == (a + 1) % m;
  }
}
