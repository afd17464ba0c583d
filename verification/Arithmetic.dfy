/** Multiples and remainders. */
module Arithmetic {
  lemma Multiples(k: int, d: int)
    requires 0 < k
    ensures (d <= -1 ==> k * d <= -k) && (d <= 0 ==> k * d <= 0) && (d >= 1 ==> k * d >= k)
      && (d >= 2 ==> k * d >= 2 * k)
  {
  }

  lemma Remainder(x: int, k: int, q: int, r: int)
    requires 0 < k && 0 <= r < k && x == r + k * q
    ensures x % k == r && x / k == q
  {
    Multiples(k, x / k - q);
    assert k * (x / k - q) == k * (x / k) - k * q == r - x % k;
  }

  lemma Periodic(x: int, k: int)
    requires 0 < k
    ensures (x + k) % k == x % k
  {
    Remainder(x + k, k, x / k + 1, x % k);
  }

  /** Between two multiples of k there is no third. */
  lemma NoneBetween(x: int, y: int, k: int)
    requires 0 < k && x % k == 0 && y % k == 0 && x < y <= x + k
    ensures y == x + k
  {
    var d := y / k - x / k;
    Multiples(k, d);
    assert k * d == k * (y / k) - k * (x / k) == y - x;
  }
}
