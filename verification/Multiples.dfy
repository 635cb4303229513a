// Division facts for a divisor that is not a constant.
module Multiples {
  function Abs(x: int): nat { if x < 0 then -x else x }

  // A multiple that is not zero is at least as far from zero as the unit.
  lemma MultipleIsFar(k: int, b: int)
    requires k != 0
    ensures Abs(k * b) >= Abs(b)
  {
    if k > 0 {
      assert (k - 1) * Abs(b) >= 0;
    } else {
      assert (-k - 1) * Abs(b) >= 0;
    }
    assert b < 0 ==> k * b == -(k * Abs(b));
  }

  function Times(k: int, p: int): int { k * p }

  lemma TimesGrows(j: int, k: int, p: int)
    requires j <= k && p >= 0
    ensures Times(j, p) <= Times(k, p)
  {
    assert (k - j) * p >= 0;
  }

  // A remainder is known by its range.
  lemma RemainderIs(x: nat, q: nat, r: nat, n: nat)
    requires x == q * n + r && r < n
    ensures x % n == r
  {
    var k: int := x / n - q;
    assert k * n == r - x % n by {
      assert (x / n - q) * n == x / n * n - q * n;
    }
    if k != 0 {
      MultipleIsFar(k, n);
    }
  }
}
