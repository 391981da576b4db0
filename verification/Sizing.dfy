/** Capacity, load factor and the bound they put on automatic doubling. */
module Sizing {
  import opened Bits
  import opened Paths

  lemma {:induction false} CapacityPositive(hp: nat, S: nat)
    requires S >= 1
    ensures Pow2(hp) * S >= Pow2(hp) >= 1
  {
    MulMono(1, S, Pow2(hp));
  }

  /** size() / capacity(). */
  function LoadFactor(size: int, S: nat, hp: nat): real
    requires S >= 1
  {
    CapacityPositive(hp, S);
    (size as real) / ((Pow2(hp) * S) as real)
  }

  /** Fewer entries than the given share of all slots. */
  ghost predicate Sparse(size: nat, S: nat, hp: nat, share: real) {
    size as real < share * (Pow2(hp) * S) as real
  }

  /** The comparison of check_resize_validity, without the quotient: entries against a share of all slots. */
  lemma {:induction false} LoadBelowIff(size: nat, S: nat, hp: nat, mlf: real)
    requires S >= 1
    ensures LoadFactor(size, S, hp) < mlf <==> Sparse(size, S, hp, mlf)
  {
    CapacityPositive(hp, S);
    DivLessIff(size as real, (Pow2(hp) * S) as real, mlf);
  }

  lemma {:induction false} DivLessIff(x: real, y: real, m: real)
    requires y > 0.0
    ensures x / y < m <==> x < m * y
  {
    var q := x / y;
    assert q * y == x;
    if q < m { assert (m - q) * y > 0.0; } else { assert (q - m) * y >= 0.0; }
  }

  /** A table of hashpower at least size / mlf holds less than the share mlf of its slots. */
  lemma {:induction false} LoadDrops(size: nat, S: nat, hp: nat, mlf: real)
    requires S >= 1 && mlf > 0.0 && hp as real * mlf >= size as real
    ensures Sparse(size, S, hp, mlf)
  {
    CapacityPositive(hp, S);
    Pow2Exceeds(hp);
    var cap := (Pow2(hp) * S) as real;
    assert (cap - hp as real) * mlf > 0.0;
  }

  /** The hashpower past which the load factor is too low for another automatic doubling. */
  ghost function LastHashpower(size: nat, mlf: real): nat
    requires mlf > 0.0
  {
    CeilBound(size, mlf);
    (size as real / mlf).Floor + 1
  }

  lemma {:induction false} DoublingStops(size: nat, S: nat, hp: nat, mlf: real)
    requires S >= 1 && mlf > 0.0 && !Sparse(size, S, hp, mlf)
    ensures hp < LastHashpower(size, mlf)
  {
    hide Sparse;
    CeilBound(size, mlf);
    if hp >= LastHashpower(size, mlf) {
      BoundHolds(hp, size, mlf);
      LoadDrops(size, S, hp, mlf);
    }
  }

  lemma {:induction false} CeilBound(size: nat, mlf: real)
    requires mlf > 0.0
    ensures (size as real / mlf).Floor + 1 >= 0
  {
    assert size as real / mlf >= 0.0;
  }

  lemma {:induction false} BoundHolds(hp: nat, size: nat, mlf: real)
    requires mlf > 0.0 && hp >= (size as real / mlf).Floor + 1
    ensures hp as real * mlf >= size as real
  {
    var q := size as real / mlf;
    assert hp as real >= q;
    assert hp as real * mlf >= q * mlf;
    assert q * mlf == size as real;
  }

  /** The smallest hashpower whose table has room for n elements. */
  method ReserveCalc(n: nat, S: nat) returns (hp: nat)
    requires S >= 1
    ensures n <= Pow2(hp) * S
    ensures forall p: nat :: p < hp ==> Pow2(p) * S < n
  {
    var count := (n + S - 1) / S;
    hp := 0;
    while Pow2(hp) < count
      invariant forall p: nat :: p < hp ==> Pow2(p) < count
      decreases count - Pow2(hp)
    {
      hp := hp + 1;
    }
    RoundUp(n, S, count);
    assert count * S <= Pow2(hp) * S by { MulMono(count, Pow2(hp), S); }
    forall p: nat | p < hp ensures Pow2(p) * S < n {
      assert (Pow2(p) + 1) * S <= count * S by { MulMono(Pow2(p) + 1, count, S); }
    }
  }

  lemma {:induction false} RoundUp(n: nat, S: nat, count: int)
    requires S >= 1 && count == (n + S - 1) / S
    ensures n <= count * S <= n + S - 1
  {
    var x := n + S - 1;
    assert x == S * count + x % S;
  }
}
