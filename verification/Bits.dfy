/** Unsigned machine arithmetic on natural numbers: powers of two, low-bit masks and exclusive or. */
module Bits {

  function Pow2(n: nat): (r: nat)
    ensures r >= 1
  {
    if n == 0 then 1 else 2 * Pow2(n - 1)
  }

  /** The low n bits of x, that is `x & ((1 << n) - 1)`. */
  function Low(x: nat, n: nat): (r: nat)
    ensures r < Pow2(n)
  {
    if n == 0 then 0 else x % 2 + 2 * Low(x / 2, n - 1)
  }

  /** Bitwise exclusive or. */
  function Xor(a: nat, b: nat): (r: nat)
    decreases a + b
  {
    if a == 0 then b
    else if b == 0 then a
    else (a % 2 + b % 2) % 2 + 2 * Xor(a / 2, b / 2)
  }

  /** One bit of Xor, whether or not an operand is zero. */
  lemma {:induction false} XorUnfold(a: nat, b: nat)
    ensures Xor(a, b) % 2 == (a % 2 + b % 2) % 2
    ensures Xor(a, b) / 2 == Xor(a / 2, b / 2)
  {
  }

  lemma {:induction false} XorCancels(a: nat, b: nat)
    ensures Xor(Xor(a, b), b) == a
    decreases a + b
  {
    if a == 0 && b == 0 {
    } else {
      XorCancels(a / 2, b / 2);
      XorUnfold(a, b);
      XorUnfold(Xor(a, b), b);
    }
  }

  lemma {:induction false} BitAndHalf(x: nat, bit: nat, half: nat)
    requires bit < 2 && x == bit + 2 * half
    ensures x % 2 == bit && x / 2 == half
  {
  }

  /** Masking the low n bits distributes over exclusive or. */
  lemma {:induction false} LowOfXor(a: nat, b: nat, n: nat)
    ensures Low(Xor(a, b), n) == Xor(Low(a, n), Low(b, n))
    decreases n
  {
    if n > 0 {
      var la, lb := Low(a, n), Low(b, n);
      LowOfXor(a / 2, b / 2, n - 1);
      XorUnfold(a, b);
      XorUnfold(la, lb);
      BitAndHalf(la, a % 2, Low(a / 2, n - 1));
      BitAndHalf(lb, b % 2, Low(b / 2, n - 1));
    }
  }

  /** A number that fits in n bits is its own mask. */
  lemma {:induction false} LowFixed(x: nat, n: nat)
    requires x < Pow2(n)
    ensures Low(x, n) == x
    decreases n
  {
    if n > 0 { LowFixed(x / 2, n - 1); }
  }

  lemma {:induction false} LowOfLow(x: nat, m: nat, n: nat)
    requires m <= n
    ensures Low(Low(x, n), m) == Low(x, m)
    decreases m
  {
    if m > 0 { LowOfLow(x / 2, m - 1, n - 1); }
  }

  /** Masking one more bit either adds that bit's value or changes nothing. */
  lemma {:induction false} LowStep(x: nat, n: nat)
    ensures Low(x, n + 1) == Low(x, n) || Low(x, n + 1) == Low(x, n) + Pow2(n)
    decreases n
  {
    if n > 0 { LowStep(x / 2, n - 1); }
  }

  /** Adding a multiple of 2^m leaves the low m bits alone. */
  lemma {:induction false} LowOfAdd(x: nat, m: nat, n: nat)
    requires m <= n
    ensures Low(x + Pow2(n), m) == Low(x, m)
    decreases m
  {
    if m > 0 {
      LowOfAdd(x / 2, m - 1, n - 1);
      assert (x + Pow2(n)) / 2 == x / 2 + Pow2(n - 1);
    }
  }

  lemma {:induction false} Pow2Mono(m: nat, n: nat)
    requires m <= n
    ensures Pow2(m) <= Pow2(n)
    decreases n - m
  {
    if m < n { Pow2Mono(m, n - 1); }
  }

  lemma {:induction false} Pow2Exceeds(n: nat)
    ensures Pow2(n) > n
  {
    if n > 0 { Pow2Exceeds(n - 1); }
  }

  /** Two numbers with the same low n bits are equal or at least 2^n apart. */
  lemma {:induction false} LowGap(x: nat, y: nat, n: nat)
    requires Low(x, n) == Low(y, n) && x < y
    ensures x + Pow2(n) <= y
    decreases n
  {
    if n > 0 { LowGap(x / 2, y / 2, n - 1); }
  }

  lemma {:induction false} Pow2Inverse(m: nat, n: nat)
    requires Pow2(m) <= Pow2(n)
    ensures m <= n
  {
    if n < m { Pow2Mono(n + 1, m); }
  }
}
