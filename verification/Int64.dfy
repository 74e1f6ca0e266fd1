/** Go's 64-bit integers: arithmetic wraps around. */
module Int64 {

  const TWO63: int := 0x8000_0000_0000_0000
  const TWO64: int := 0x1_0000_0000_0000_0000

  function Wrap64(x: int): int {
    (x + TWO63) % TWO64 - TWO63
  }

  /** The one number in 64-bit range that differs from x by a multiple of 2 to the 64th. */
  lemma WrapIsTheRepresentative(x: int, y: int)
    ensures y == Wrap64(x) <==>
              -9_223_372_036_854_775_808 <= y < 9_223_372_036_854_775_808 && (x - y) % 18_446_744_073_709_551_616 == 0
  {
    var q := (x + TWO63) / TWO64;
    assert x - Wrap64(x) == q * TWO64;
    assert (q * TWO64) % TWO64 == 0 by { Multiple(q); }
    if (x - y) % TWO64 == 0 && -TWO63 <= y < TWO63 {
      var k := (x - y) / TWO64;
      assert Wrap64(x) - y == (k - q) * TWO64;
    }
  }

  lemma Multiple(q: int)
    ensures (q * TWO64) % TWO64 == 0
  {
    assert q * TWO64 == q * TWO64 + 0;
  }

  lemma WrapAdds(a: int, b: int)
    ensures Wrap64(Wrap64(a) + b) == Wrap64(a + b)
  {
    var k := (a + TWO63) / TWO64;
    assert Wrap64(a) == a - k * TWO64;
    WrapShift(a + b, -k);
    assert Wrap64(a) + b == a + b + -k * TWO64;
  }

  lemma WrapShift(x: int, k: int)
    ensures Wrap64(x + k * TWO64) == Wrap64(x)
  {
    var (q, r) := ((x + TWO63) / TWO64, (x + TWO63) % TWO64);
    assert x + TWO63 == q * TWO64 + r;
    assert x + k * TWO64 + TWO63 == (q + k) * TWO64 + r;
    assert (x + k * TWO64 + TWO63) % TWO64 == r;
  }
}
