/**
 Arithmetic behind the slot index: tickets that share a slot are at least one
 lap apart, and neighbouring tickets never share one.
 */
module ModArith {

  lemma MulPositive(k: int, n: nat)
    requires k >= 1
    ensures n * k >= n
  {
    assert n * k == n * (k - 1) + n;
  }

  /** Quotient and remainder are the only pair of their kind. */
  lemma DivModUnique(a: int, n: nat, q: int, r: int)
    requires 0 <= r < n
    requires a == n * q + r
    ensures a / n == q && a % n == r
  {
    var q', r' := a / n, a % n;
    assert n * (q - q') == r' - r;
    if q > q' {
      MulPositive(q - q', n);
    } else if q < q' {
      MulPositive(q' - q, n);
    }
  }

  /** Two tickets on one slot differ by at least a whole lap. */
  lemma LapGap(a: int, b: int, n: nat)
    requires n > 0 && a % n == b % n && a < b
    ensures a + n <= b
  {
    var d := b / n - a / n;
    assert b - a == n * d;
    if d >= 1 {
      MulPositive(d, n);
    } else {
      MulNonPositive(d, n);
    }
  }

  lemma MulNonPositive(k: int, n: nat)
    requires k <= 0
    ensures n * k <= 0
  {
  }

  /** With two slots or more, consecutive numbers index different slots. */
  lemma NextSlotDiffers(a: int, n: nat)
    requires n >= 2
    ensures a % n != (a + 1) % n
  {
    if a % n == (a + 1) % n {
      LapGap(a, a + 1, n);
    }
  }

  lemma LapSameSlot(a: int, n: nat)
    requires n > 0
    ensures (a + n) % n == a % n
  {
    DivModUnique(a + n, n, a / n + 1, a % n);
  }
}
