/** Quotients and remainders, for the places where code shifts and masks. */
module DivMod {

  lemma Unique(x: int, m: int, q: int, r: int)
    requires m > 0 && 0 <= r < m && x == m * q + r
    ensures x / m == q && x % m == r
  {
    var k := x / m - q;
    assert m * k == r - x % m;
    assert k >= 1 ==> m * k >= m;
    assert k <= -1 ==> m * k <= -m;
  }

  /** Shifting twice is shifting once by the sum. */
  lemma Nested(x: nat, a: nat, b: nat)
    requires a > 0 && b > 0
    ensures a * b > 0 && x / (a * b) == x / a / b
  {
    var q, r, s := x / a / b, x / a % b, x % a;
    Regroup(a, b, q, r, s);
    assert x == a * (b * q + r) + s;
    Unique(x, a * b, q, a * r + s);
  }

  lemma Regroup(a: nat, b: nat, q: nat, r: nat, s: nat)
    requires a > 0 && b > 0 && r < b && s < a
    ensures a * b > 0 && a * (b * q + r) + s == a * b * q + (a * r + s) && 0 <= a * r + s < a * b
  {
    assert a * (b * q + r) == a * b * q + a * r;
    assert a * r <= a * (b - 1);
    assert a * (b - 1) == a * b - a;
  }
}
