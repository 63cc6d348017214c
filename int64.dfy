/** Go's int64: its range, and the wrap-around its addition performs on overflow. */
module Int64 {
  const MinInt64: int := -0x8000_0000_0000_0000
  const MaxInt64: int := 0x7fff_ffff_ffff_ffff
  const TwoTo64: int := 0x1_0000_0000_0000_0000

  /** The value Go's int64 arithmetic produces for the exact result `x`: `x` reduced
      modulo 2^64 into the int64 range. */
  function Wrap64(x: int): (r: int)
    ensures MinInt64 <= r <= MaxInt64
    ensures (x - r) % TwoTo64 == 0
    ensures MinInt64 <= x <= MaxInt64 ==> r == x
  {
    (x - MinInt64) % TwoTo64 + MinInt64
  }

  /** Adding after wrapping is wrapping after adding. */
  lemma Wrap64Add(a: int, b: int)
    ensures Wrap64(Wrap64(a) + b) == Wrap64(a + b)
  {
    var k := (a - MinInt64) / TwoTo64;
    assert Wrap64(a) == a - TwoTo64 * k;
    assert (Wrap64(a) + b - MinInt64) % TwoTo64 == (a + b - MinInt64) % TwoTo64;
  }
}
