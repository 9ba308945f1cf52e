/** Division facts shared by the codecs. */
module Numbers {
  lemma Multiple(d: int, x: int)
    requires d > 0
    ensures x >= 1 ==> d * x >= d
    ensures x <= -1 ==> d * x <= -d
  {}

  /** A quotient and a remainder in range are the quotient and the remainder. */
  lemma Division(a: int, d: int, k: int, r: int)
    requires d > 0 && a == d * k + r && 0 <= r < d
    ensures a / d == k && a % d == r
  {
    assert d * (a / d - k) == r - a % d;
    Multiple(d, a / d - k);
  }

  lemma DivideTwice(a: nat, b: nat, c: nat)
    requires b > 0 && c > 0
    ensures b * c > 0 && (a / b) / c == a / (b * c)
  {
    var q, r := a / b, a % b;
    var k, m := q / c, q % c;
    Positive(b, c);
    Expand(a, b, c, q, r, k, m);
    Below(b, c, m, r);
    Division(a, b * c, k, b * m + r);
  }

  lemma Positive(b: int, c: int)
    requires b > 0 && c > 0
    ensures b * c > 0
  {
    Multiple(b, c);
  }

  lemma Expand(a: int, b: int, c: int, q: int, r: int, k: int, m: int)
    requires a == b * q + r && q == c * k + m
    ensures a == (b * c) * k + (b * m + r)
  {
    assert b * (c * k) == (b * c) * k;
  }

  lemma Below(b: int, c: int, m: int, r: int)
    requires 0 <= m < c && 0 <= r < b
    ensures 0 <= b * m + r < b * c
  {
    assert b * c == b * m + b * (c - m);
    Multiple(b, c - m);
    if m > 0 {
      Multiple(b, m);
    }
  }

  function Power256(n: nat): (p: nat)
    ensures p > 0
  {
    if n == 0 then 1 else 256 * Power256(n - 1)
  }

  lemma Powers()
    ensures Power256(2) == 0x1_0000 && Power256(4) == 0x1_0000_0000 && Power256(8) == 0x1_0000_0000_0000_0000
  {
    assert Power256(4) == 256 * Power256(3);
    assert Power256(6) == 256 * Power256(5);
  }
}
