/**
 Bitwise and, powers of two and 64-bit two's complement, over integers.
 */
module Bits {
  import opened ModArith

  const TWO_63: int := 0x8000_0000_0000_0000
  const TWO_64: int := 0x1_0000_0000_0000_0000

  function Pow2(p: nat): (r: nat)
    ensures r > 0
  {
    if p == 0 then 1 else 2 * Pow2(p - 1)
  }

  /** Bit by bit, lowest bit first. */
  function BitAnd(x: nat, y: nat): nat {
    if x == 0 || y == 0 then 0
    else (if x % 2 == 1 && y % 2 == 1 then 1 else 0) + 2 * BitAnd(x / 2, y / 2)
  }

  /** Masking with all ones: the lowest bit stays, the rest is masked with one bit less. */
  lemma BitAndOnes(x: nat, m: nat)
    ensures BitAnd(x, 2 * m + 1) == x % 2 + 2 * BitAnd(x / 2, m)
  {
    assert (2 * m + 1) % 2 == 1 && (2 * m + 1) / 2 == m;
  }

  lemma RemainderOfOne(x: nat)
    ensures BitAnd(x, 0) == x % 1
  {
  }

  /** Masking with a power of two less one takes the remainder. */
  lemma {:induction false} MaskIsRemainder(x: nat, p: nat)
    ensures BitAnd(x, Pow2(p) - 1) == x % Pow2(p)
    decreases p
  {
    hide BitAnd;
    if p == 0 {
      RemainderOfOne(x);
    } else {
      MaskStep(x, Pow2(p - 1), Pow2(p)) by { MaskIsRemainder(x / 2, p - 1); }
    }
  }

  lemma MaskStep(x: nat, half: nat, n: nat)
    requires half > 0 && n == 2 * half && BitAnd(x / 2, half - 1) == x / 2 % half
    ensures BitAnd(x, n - 1) == x % n
  {
    hide BitAnd;
    BitAndOnes(x, half - 1);
    RemainderOfDouble(x, half);
  }

  /** The remainder by 2m: the lowest bit, then the remainder of the rest by m. */
  lemma RemainderOfDouble(x: nat, m: nat)
    requires m > 0
    ensures x % (2 * m) == x % 2 + 2 * (x / 2 % m)
  {
    var k, r := x / 2 / m, x / 2 % m;
    assert x / 2 == m * k + r;
    assert (2 * m) * k == 2 * (m * k);
    DivModUnique(x, 2 * m, k, x % 2 + 2 * r);
  }

  lemma {:induction false} AndSelf(x: nat)
    ensures BitAnd(x, x) == x
  {
    if x > 0 { AndSelf(x / 2); }
  }

  /** The test N & (N - 1) == 0 admits zero and exactly the powers of two, one included. */
  lemma {:induction false} PowerOfTwoTest(n: nat)
    requires n > 0
    ensures BitAnd(n, n - 1) == 0 <==> exists p: nat :: n == Pow2(p)
  {
    if n == 1 {
      assert n == Pow2(0);
    } else if n % 2 == 1 {
      assert n / 2 == (n - 1) / 2;
      AndSelf(n / 2);
      forall p: nat ensures n != Pow2(p) {
      }
    } else {
      PowerOfTwoTest(n / 2);
      assert BitAnd(n, n - 1) == 2 * BitAnd(n / 2, n / 2 - 1);
      if BitAnd(n, n - 1) == 0 {
        var p: nat :| n / 2 == Pow2(p);
        assert n == Pow2(p + 1);
      } else {
        forall p: nat ensures n != Pow2(p) {
          assert p > 0 ==> Pow2(p) == 2 * Pow2(p - 1) && n / 2 != Pow2(p - 1);
        }
      }
    }
  }

  lemma {:induction false} Pow2Sum(p: nat, q: nat)
    ensures Pow2(p + q) == Pow2(p) * Pow2(q)
    decreases q
  {
    Pow2Next(p + q);
    Pow2Next(q);
    hide Pow2;
    if q == 0 {
      Pow2Small();
    } else {
      Pow2Sum(p, q - 1);
      DoubleFactor(Pow2(p), Pow2(q - 1));
    }
  }

  lemma Pow2Next(p: nat)
    ensures p > 0 ==> Pow2(p) == 2 * Pow2(p - 1)
  {
  }

  lemma Pow2Small()
    ensures Pow2(0) == 1 && Pow2(1) == 2
  {
  }

  lemma DoubleFactor(a: nat, b: nat)
    ensures a * (2 * b) == 2 * (a * b)
  {
  }

  lemma Pow2Of64()
    ensures Pow2(64) == TWO_64
  {
    hide Pow2;
    Pow2Small();
    Pow2Sum(1, 1);
    Pow2Sum(2, 2);
    Pow2Sum(4, 4);
    Pow2Sum(8, 8);
    Pow2Sum(16, 16);
    Pow2Sum(32, 32);
  }

  lemma RemainderOfRemainder(x: nat, n: nat, m: nat)
    requires n > 0 && m > 0 && n * m > 0
    ensures x % (n * m) % n == x % n
  {
    var k, y := x / (n * m), x % (n * m);
    assert x == (n * m) * k + y;
    assert (n * m) * k == n * (m * k);
    assert y == n * (y / n) + y % n;
    assert n * (m * k) + n * (y / n) == n * (m * k + y / n);
    DivModUnique(x, n, m * k + y / n, y % n);
  }

  /** A power of two up to 2^64 divides 2^64, so wrapping keeps the slot index. */
  lemma WrapKeepsIndex(x: nat, p: nat)
    requires p <= 64
    ensures x % TWO_64 % Pow2(p) == x % Pow2(p)
  {
    Pow2Of64();
    Pow2Sum(p, 64 - p);
    RemainderOfRemainder(x, Pow2(p), Pow2(64 - p));
  }

  /** static_cast<int64_t> of a 64-bit word. */
  function Signed(x: nat): int
    requires x < TWO_64
  {
    if x < TWO_63 then x else x - TWO_64
  }

  /** The two's complement difference of two words. */
  function WordDiff(a: nat, b: nat): int
    requires a < TWO_64 && b < TWO_64
  {
    Signed((a - b) % TWO_64)
  }

  /** Of numbers less than 2^63 apart, the word difference is the true difference, across any wrap. */
  lemma WordDiffIsDifference(a: nat, b: nat)
    requires -TWO_63 <= a - b < TWO_63
    ensures WordDiff(a % TWO_64, b % TWO_64) == a - b
  {
    var d := a - b;
    var i, j := a / TWO_64, b / TWO_64;
    var w := a % TWO_64 - b % TWO_64;
    assert w == d - TWO_64 * (i - j);
    var r := if d >= 0 then d else d + TWO_64;
    DivModUnique(w, TWO_64, (if d >= 0 then 0 else -1) - (i - j), r);
  }

  /** The stretch of 2^64 numbers, centred on a multiple of 2^64, that a number lies in. */
  function SignedEra(x: nat): nat { (x + TWO_63) / TWO_64 }

  /**
   The source subtracts after casting.  For numbers less than 2^63 apart that
   subtraction stays within int64_t exactly when both lie in one era; the
   first 2^63 tickets all do.
   */
  lemma CastThenSubtract(a: nat, b: nat)
    requires -TWO_63 <= a - b < TWO_63
    ensures var d := Signed(a % TWO_64) - Signed(b % TWO_64);
            && (-TWO_63 <= d < TWO_63 <==> SignedEra(a) == SignedEra(b))
            && (SignedEra(a) == SignedEra(b) ==> d == a - b)
  {
    SignedByEra(a);
    SignedByEra(b);
    var e := SignedEra(a) - SignedEra(b);
    var d := Signed(a % TWO_64) - Signed(b % TWO_64);
    assert d == a - b - TWO_64 * e;
  }

  lemma SignedByEra(x: nat)
    ensures Signed(x % TWO_64) == x - TWO_64 * SignedEra(x)
  {
    var k := SignedEra(x);
    var r := x - TWO_64 * k;
    if r >= 0 {
      DivModUnique(x, TWO_64, k, r);
    } else {
      DivModUnique(x, TWO_64, k - 1, r + TWO_64);
    }
  }
}
