/** Decimal text: what `sprintf("%d")` writes for a natural number and what a digit-scanning loop reads back. */
module Digits {
  type Byte = b: int | 0 <= b < 256
  type Text = seq<Byte>

  const ZERO: Byte := 48

  predicate IsDigit(b: Byte) { 48 <= b <= 57 }

  function Pow10(n: nat): (p: nat)
    ensures p >= 1
  {
    if n == 0 then 1 else 10 * Pow10(n - 1)
  }

  /** The decimal digits of n, without leading zeros. */
  function Decimal(n: nat): (t: Text)
    ensures |t| >= 1
    ensures forall i :: 0 <= i < |t| ==> IsDigit(t[i])
    ensures t[0] == ZERO <==> n == 0
  {
    if n < 10 then [48 + n] else Decimal(n / 10) + [48 + n % 10]
  }

  predicate DigitChars(ds: Text) { forall i :: 0 <= i < |ds| ==> '0' as int <= ds[i] <= '9' as int }

  /** The number that a row of digits denotes. */
  function DecimalValue(ds: Text): nat
    requires DigitChars(ds)
  {
    if ds == [] then 0 else DecimalValue(ds[..|ds| - 1]) * 10 + (ds[|ds| - 1] - '0' as int)
  }

  /** The printed digits denote the number, and begin with a zero only for zero. */
  lemma {:induction false} DecimalDenotes(n: nat)
    ensures DigitChars(Decimal(n)) && DecimalValue(Decimal(n)) == n
    ensures n > 0 ==> Decimal(n)[0] != '0' as int
  {
    if n >= 10 {
      DecimalDenotes(n / 10);
      var ds := Decimal(n);
      assert ds[..|ds| - 1] == Decimal(n / 10);
    } else {
      assert Decimal(n)[..0] == [];
    }
  }

  /** Reads digits into `acc` until a byte that is no digit, and returns the text from there. */
  function Scan(acc: nat, t: Text): (r: (nat, Text))
    decreases |t|
  {
    if t == [] || !IsDigit(t[0]) then (acc, t) else Scan(acc * 10 + (t[0] - 48), t[1..])
  }

  predicate NoDigitFirst(t: Text) { t == [] || !IsDigit(t[0]) }

  lemma {:induction false} ScanAppend(acc: nat, a: Text, b: Text)
    requires forall i :: 0 <= i < |a| ==> IsDigit(a[i])
    ensures Scan(acc, a).1 == []
    ensures Scan(acc, a + b) == Scan(Scan(acc, a).0, b)
    decreases |a|
  {
    if a == [] {
      assert a + b == b;
    } else {
      assert (a + b)[1..] == a[1..] + b;
      ScanAppend(acc * 10 + (a[0] - 48), a[1..], b);
    }
  }

  /** Scanning the digits of n appends them to what has been read before. */
  lemma {:induction false} ScanDecimal(acc: nat, n: nat, rest: Text)
    requires NoDigitFirst(rest)
    ensures Scan(acc, Decimal(n) + rest) == (acc * Pow10(|Decimal(n)|) + n, rest)
    decreases n
  {
    var d: Text := [48 + n % 10];
    ScanOne(acc, n % 10, rest);
    if n < 10 {
      assert Decimal(n) == d;
      assert Pow10(1) == 10;
    } else {
      var front := Decimal(n / 10);
      assert Decimal(n) + rest == front + (d + rest);
      ScanAppend(acc, front, d + rest);
      ScanDecimal(acc, n / 10, []);
      assert front + [] == front;
      var v := acc * Pow10(|front|) + n / 10;
      ScanOne(v, n % 10, rest);
      assert Pow10(|front| + 1) == 10 * Pow10(|front|);
      Regroup(acc, Pow10(|front|), n);
    }
  }

  lemma ScanOne(acc: nat, d: nat, rest: Text)
    requires d < 10 && NoDigitFirst(rest)
    ensures Scan(acc, [48 + d] + rest) == (acc * 10 + d, rest)
  {
    assert ([48 + d] + rest)[1..] == rest;
  }

  lemma Regroup(acc: nat, p: nat, n: nat)
    ensures (acc * p + n / 10) * 10 + n % 10 == acc * (10 * p) + n
  {
    assert acc * (10 * p) == 10 * (acc * p);
  }

  /** Dropping the first i digits of n leaves n modulo a power of ten, possibly with leading zeros. */
  lemma {:induction false} ScanTail(n: nat, i: nat, rest: Text)
    requires i <= |Decimal(n)| && NoDigitFirst(rest)
    ensures Scan(0, Decimal(n)[i..] + rest) == (n % Pow10(|Decimal(n)| - i), rest)
    decreases n
  {
    var t := Decimal(n);
    if i == |t| {
      assert t[i..] + rest == rest;
      assert n % 1 == 0;
    } else if n < 10 {
      assert i == 0 && t[i..] == t;
      assert Pow10(1) == 10;
      ScanOne(0, n, rest);
    } else {
      ScanTail(n / 10, i, []);
      TailStep(n, i, rest, Decimal(n / 10));
    }
  }

  lemma {:induction false} TailStep(n: nat, i: nat, rest: Text, front: Text)
    requires n >= 10 && front == Decimal(n / 10) && i <= |front| && NoDigitFirst(rest)
    requires Scan(0, front[i..] + []) == ((n / 10) % Pow10(|front| - i), [])
    ensures Decimal(n) == front + [48 + n % 10]
    ensures Scan(0, Decimal(n)[i..] + rest) == (n % Pow10(|Decimal(n)| - i), rest)
  {
    hide Scan, Decimal, Pow10;
    var d, p := n % 10, Pow10(|front| - i);
    Snoc(n);
    assert Decimal(n)[i..] + rest == front[i..] + ([48 + d] + rest);
    assert front[i..] + [] == front[i..];
    ScanMore(front[i..], (n / 10) % p, d, rest);
    TailValue(n, p);
    NextPow10(|front| - i);
  }

  lemma Snoc(n: nat)
    requires n >= 10
    ensures Decimal(n) == Decimal(n / 10) + [48 + n % 10]
  {}

  lemma NextPow10(n: nat)
    ensures Pow10(n + 1) == 10 * Pow10(n)
  {}

  lemma {:induction false} ScanMore(t: Text, v: nat, d: nat, rest: Text)
    requires forall j :: 0 <= j < |t| ==> IsDigit(t[j])
    requires Scan(0, t) == (v, []) && d < 10 && NoDigitFirst(rest)
    ensures Scan(0, t + ([48 + d] + rest)) == (v * 10 + d, rest)
  {
    ScanAppend(0, t, [48 + d] + rest);
    ScanOne(v, d, rest);
  }

  /** ((n / 10) mod p) * 10 + n mod 10 == n mod 10p. */
  lemma {:induction false} TailValue(n: nat, p: nat)
    requires p >= 1
    ensures ((n / 10) % p) * 10 + n % 10 == n % (10 * p)
  {
    var q, r := (n / 10) / p, (n / 10) % p;
    assert n / 10 == p * q + r;
    var x := r * 10 + n % 10;
    assert n == 10 * (p * q) + x && 0 <= x < 10 * p;
    ModUnique(n, 10 * p, q, x);
  }

  lemma {:induction false} ModUnique(n: nat, m: nat, q: nat, x: nat)
    requires m >= 1 && n == m * q + x && x < m
    ensures n % m == x
  {
    var q', x' := n / m, n % m;
    assert n == m * q' + x';
    MulLe(m, q' + 1, q);
    MulLe(m, q + 1, q');
  }

  lemma MulLe(m: nat, a: nat, b: nat)
    ensures a <= b ==> m * a <= m * b
  {}
}
