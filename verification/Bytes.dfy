/** Bytes, little-endian fields and the wrap-around arithmetic of unsigned words. */
module Bytes {

  type byte = x: int | 0 <= x < 0x100

  const TWO_16 := 0x1_0000
  const TWO_32 := 0x1_0000_0000
  const TWO_64 := 0x1_0000_0000_0000_0000

  function Le16(lo: byte, hi: byte): (r: nat)
    ensures r < TWO_16
  {
    lo + 0x100 * hi
  }

  function Be16(hi: byte, lo: byte): (r: nat)
    ensures r < TWO_16
  {
    0x100 * hi + lo
  }

  function Le32(b0: byte, b1: byte, b2: byte, b3: byte): (r: nat)
    ensures r < TWO_32
  {
    b0 + 0x100 * b1 + 0x1_0000 * b2 + 0x100_0000 * b3
  }

  function Zeros(n: nat): (z: seq<byte>)
    ensures |z| == n
  {
    seq(n, _ => 0)
  }

  // ----- remainders -----

  /** A remainder is unchanged by adding a multiple of the divisor. */
  lemma {:induction false} ModPlusMultiple(x: int, k: nat, m: int)
    requires m > 0
    ensures (x + k * m) % m == x % m
    decreases k
  {
    if k > 0 {
      ModPlusMultiple(x + m, k - 1, m);
      ModPlusOne(x, m);
      assert x + k * m == (x + m) + (k - 1) * m;
    }
  }

  lemma ModPlusOne(x: int, m: int)
    requires m > 0
    ensures (x + m) % m == x % m
  {
    var q, r := x / m, x % m;
    assert x + m == (q + 1) * m + r;
    ModUnique(x + m, q + 1, r, m);
  }

  lemma ModUnique(x: int, q: int, r: int, m: int)
    requires 0 <= r < m && x == q * m + r
    ensures x % m == r && x / m == q
  {
    var d, rest := q - x / m, x % m;
    assert d * m == rest - r by {
      assert d * m == q * m - x / m * m;
    }
    if d > 0 {
      MulAtLeast(d, m);
    } else if d < 0 {
      MulAtLeast(-d, m);
    }
  }

  lemma MulAtLeast(d: int, m: int)
    requires d > 0 && m > 0
    ensures d * m >= m
  {
    assert d * m == (d - 1) * m + m;
  }

  /** Reducing modulo a multiple of `m` first changes nothing. */
  lemma ModMod(x: nat, big: int, m: int)
    requires m > 0 && big > 0 && big % m == 0
    ensures (x % big) % m == x % m
  {
    var k := big / m;
    assert x == x % big + (x / big) * big;
    assert (x / big) * big == (x / big * k) * m;
    ModPlusMultiple(x % big, x / big * k, m);
  }

  /** Advancing by less than one turn. */
  lemma ModAdvance(x: nat, i: nat, m: int)
    requires m > 0 && i <= m
    ensures (x + i) % m == if x % m + i < m then x % m + i else x % m + i - m
  {
    var q, r := x / m, x % m;
    if r + i < m {
      ModUnique(x + i, q, r + i, m);
    } else {
      assert x + i == (q + 1) * m + (r + i - m);
      ModUnique(x + i, q + 1, r + i - m, m);
    }
  }
}
