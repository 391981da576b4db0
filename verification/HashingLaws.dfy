/** The index arithmetic in plain terms: remainders, bytes, and when a key has two different buckets. */
module HashingLaws {
  import opened Bits
  import opened Hashing

  // ---- masks are remainders ----

  lemma {:induction false} ModOfHalf(x: nat, p: nat)
    requires p >= 1
    ensures x % (2 * p) == x % 2 + 2 * ((x / 2) % p)
  {
    var q, r := (x / 2) / p, (x / 2) % p;
    assert x == (2 * p) * q + (x % 2 + 2 * r) by { assert x / 2 == p * q + r; assert (2 * p) * q == 2 * (p * q); }
    RemainderIs(x, 2 * p, q, x % 2 + 2 * r);
  }

  lemma {:induction false} RemainderIs(n: nat, m: nat, q: nat, x: nat)
    requires m >= 1 && n == m * q + x && x < m
    ensures n % m == x && n / m == q
  {
    var q', x' := n / m, n % m;
    assert n == m * q' + x';
    MulLe(m, q' + 1, q);
    MulLe(m, q + 1, q');
  }

  lemma MulLe(m: nat, a: nat, b: nat)
    ensures a <= b ==> m * a <= m * b
  {}

  lemma {:induction false} LowIsMod(x: nat, n: nat)
    ensures Low(x, n) == x % Pow2(n)
    decreases n
  {
    if n > 0 {
      LowIsMod(x / 2, n - 1);
      ModOfHalf(x, Pow2(n - 1));
    }
  }

  /** The first candidate and the stripe of a bucket are remainders by the table size and the number of stripes. */
  lemma {:induction false} IndicesAreRemainders(hp: nat, lb: nat, hash: Hash, bucket: nat)
    ensures IndexHash(hp, hash) == hash % Pow2(hp)
    ensures LockInd(lb, bucket) == bucket % Pow2(lb)
  {
    LowIsMod(hash, hp);
    LowIsMod(bucket, lb);
  }

  // ---- the partial key is the exclusive or of the bytes of the hash ----

  /** x shifted right by n bits. */
  function High(x: nat, n: nat): nat
    decreases n
  {
    if n == 0 then x else High(x / 2, n - 1)
  }

  lemma {:induction false} HighIsDiv(x: nat, n: nat)
    ensures High(x, n) == x / Pow2(n)
    decreases n
  {
    if n > 0 {
      HighIsDiv(x / 2, n - 1);
      DivTwice(x, Pow2(n - 1));
    }
  }

  lemma {:induction false} HighOfXor(a: nat, b: nat, n: nat)
    ensures High(Xor(a, b), n) == Xor(High(a, n), High(b, n))
    decreases n
  {
    hide Xor;
    if n > 0 {
      XorUnfold(a, b);
      HighOfXor(a / 2, b / 2, n - 1);
    }
  }

  lemma {:induction false} DivTwice(x: nat, p: nat)
    requires p >= 1
    ensures x / (2 * p) == (x / 2) / p
  {
    var q, r := (x / 2) / p, (x / 2) % p;
    assert x == (2 * p) * q + (x % 2 + 2 * r) by { assert x / 2 == p * q + r; assert (2 * p) * q == 2 * (p * q); }
    RemainderIs(x, 2 * p, q, x % 2 + 2 * r);
  }

  lemma {:induction false} EightBits(x: nat)
    ensures Low(x, 8) == x % 0x100 && High(x, 8) == x / 0x100
  {
    hide Low, High;
    assert Pow2(8) == 0x100;
    LowIsMod(x, 8);
    HighIsDiv(x, 8);
  }

  lemma {:induction false} SixteenBits(x: nat)
    ensures Low(x, 16) == x % 0x1_0000 && High(x, 16) == x / 0x1_0000
  {
    hide Low, High;
    assert Pow2(8) == 0x100;
    assert Pow2(16) == 0x1_0000;
    LowIsMod(x, 16);
    HighIsDiv(x, 16);
  }

  /** Exclusive or works on the low and the high bits separately. */
  lemma {:induction false} XorByte(a: nat, b: nat)
    ensures Xor(a, b) % 0x100 == Xor(a % 0x100, b % 0x100) && Xor(a, b) / 0x100 == Xor(a / 0x100, b / 0x100)
  {
    hide Xor, Low, High;
    LowOfXor(a, b, 8);
    HighOfXor(a, b, 8);
    EightBits(a);
    EightBits(b);
    EightBits(Xor(a, b));
  }

  lemma {:induction false} XorWord(a: nat, b: nat)
    ensures Xor(a, b) % 0x1_0000 == Xor(a % 0x1_0000, b % 0x1_0000)
    ensures Xor(a, b) / 0x1_0000 == Xor(a / 0x1_0000, b / 0x1_0000)
  {
    hide Xor, Low, High;
    LowOfXor(a, b, 16);
    HighOfXor(a, b, 16);
    SixteenBits(a);
    SixteenBits(b);
    SixteenBits(Xor(a, b));
  }

  /** The byte of a hash that counts in steps of `unit`. */
  function ByteOf(hash: nat, unit: nat): nat
    requires unit >= 1
  {
    hash / unit % 0x100
  }

  lemma {:induction false} BytesOfWords(hash: Hash)
    ensures var a, b := hash % 0x1_0000_0000, hash / 0x1_0000_0000;
      && a % 0x1_0000 % 0x100 == ByteOf(hash, 0x1) && a % 0x1_0000 / 0x100 % 0x100 == ByteOf(hash, 0x100)
      && a / 0x1_0000 % 0x1_0000 % 0x100 == ByteOf(hash, 0x1_0000)
      && a / 0x1_0000 % 0x1_0000 / 0x100 % 0x100 == ByteOf(hash, 0x100_0000)
      && b % 0x1_0000 % 0x100 == ByteOf(hash, 0x1_0000_0000)
      && b % 0x1_0000 / 0x100 % 0x100 == ByteOf(hash, 0x100_0000_0000)
      && b / 0x1_0000 % 0x1_0000 % 0x100 == ByteOf(hash, 0x1_0000_0000_0000)
      && b / 0x1_0000 % 0x1_0000 / 0x100 % 0x100 == ByteOf(hash, 0x100_0000_0000_0000)
  {
    var a, b := hash % 0x1_0000_0000, hash / 0x1_0000_0000;
    TwoBytes(a);
    TwoBytes(b);
    TwoBytes(a / 0x1_0000);
    TwoBytes(b / 0x1_0000);
    LowerHalf(hash);
    UpperHalf(hash);
  }

  lemma TwoBytes(x: nat)
    ensures x % 0x1_0000 % 0x100 == x % 0x100 && x % 0x1_0000 / 0x100 % 0x100 == x / 0x100 % 0x100
  {}

  lemma {:induction false} LowerHalf(hash: nat)
    ensures var a := hash % 0x1_0000_0000;
      && a % 0x100 == hash / 0x1 % 0x100 && a / 0x100 % 0x100 == hash / 0x100 % 0x100
      && a / 0x1_0000 % 0x100 == hash / 0x1_0000 % 0x100 && a / 0x1_0000 / 0x100 % 0x100 == hash / 0x100_0000 % 0x100
  {
    var a, q := hash % 0x1_0000_0000, hash / 0x1_0000_0000;
    ByteBelow(hash, a, 0x100_0000 * q);
    ByteBelow(hash / 0x100, a / 0x100, 0x1_0000 * q);
    ByteBelow(hash / 0x100 / 0x100, a / 0x100 / 0x100, 0x100 * q);
    assert hash / 0x100 / 0x100 == hash / 0x1_0000 && a / 0x100 / 0x100 == a / 0x1_0000;
    assert hash / 0x1_0000 / 0x100 == hash / 0x100_0000;
    NextByte(hash / 0x1_0000 / 0x100, a / 0x1_0000 / 0x100, q);
  }

  /** Multiples of 256 do not reach the lowest byte, and leave the rest shifted. */
  lemma ByteBelow(x: nat, a: nat, q: nat)
    requires x == a + 0x100 * q
    ensures x % 0x100 == a % 0x100 && x / 0x100 == a / 0x100 + q
  {}

  lemma NextByte(x: nat, a: nat, q: nat)
    requires x == a + 0x100 * q
    ensures x % 0x100 == a % 0x100
  {}

  lemma UpperHalf(hash: nat)
    ensures var b := hash / 0x1_0000_0000;
      && b / 0x100 == hash / 0x100_0000_0000 && b / 0x1_0000 == hash / 0x1_0000_0000_0000
      && b / 0x1_0000 / 0x100 == hash / 0x100_0000_0000_0000
  {}

  /** Folding two 16-bit words byte by byte. */
  lemma {:induction false} FoldWords(w: nat, x: nat, y: nat, z: nat)
    ensures var hash16 := Xor(Xor(w, x), Xor(y, z));
      && hash16 % 0x100 == Xor(Xor(w % 0x100, x % 0x100), Xor(y % 0x100, z % 0x100))
      && hash16 / 0x100 % 0x100
        == Xor(Xor(w / 0x100 % 0x100, x / 0x100 % 0x100), Xor(y / 0x100 % 0x100, z / 0x100 % 0x100))
  {
    hide Xor;
    XorByte(w, x);
    XorByte(y, z);
    XorByte(Xor(w, x), Xor(y, z));
    XorByte(w / 0x100, x / 0x100);
    XorByte(y / 0x100, z / 0x100);
    XorByte(Xor(w, x) / 0x100, Xor(y, z) / 0x100);
  }

  lemma {:induction false} XorBounded(a: nat, b: nat)
    requires a < 0x100 && b < 0x100
    ensures Xor(a, b) < 0x100
  {
    hide Xor;
    XorByte(a, b);
  }

  /** The partial key of a key is the exclusive or of the eight bytes of its hash. */
  lemma {:induction false} PartialKeyFolds(hash: Hash)
    ensures PartialKey(hash) ==
      Xor(Xor(Xor(ByteOf(hash, 0x1), ByteOf(hash, 0x1_0000_0000)),
              Xor(ByteOf(hash, 0x1_0000), ByteOf(hash, 0x1_0000_0000_0000))),
          Xor(Xor(ByteOf(hash, 0x100), ByteOf(hash, 0x100_0000_0000)),
              Xor(ByteOf(hash, 0x100_0000), ByteOf(hash, 0x100_0000_0000_0000))))
  {
    hide Xor, ByteOf;
    var a, b := hash % 0x1_0000_0000, hash / 0x1_0000_0000;
    XorWord(a, b);
    XorWord(a / 0x1_0000, b / 0x1_0000);
    FoldWords(a % 0x1_0000, b % 0x1_0000, a / 0x1_0000 % 0x1_0000, b / 0x1_0000 % 0x1_0000);
    BytesOfWords(hash);
    var hash16 := Xor(Xor(a, b) % 0x1_0000, Xor(a, b) / 0x1_0000 % 0x1_0000);
    XorBounded(hash16 % 0x100, hash16 / 0x100 % 0x100);
  }

  // ---- two candidates ----

  lemma Spread(x: nat, k: nat)
    ensures x * (2 * k + 1) == 2 * (x * k) + x
    ensures (2 * x) * k == 2 * (x * k)
  {}

  lemma {:induction false} OddProduct(x: nat, m: nat)
    requires m % 2 == 1
    ensures (x * m) % 2 == x % 2
    ensures x % 2 == 0 ==> (x * m) / 2 == (x / 2) * m
  {
    var k, y := m / 2, x / 2;
    assert m == 2 * k + 1;
    Spread(x, k);
    EvenPart(x * m, x * k, x);
    if x % 2 == 0 {
      assert x == 2 * y;
      Spread(y, m);
      Halved(x * m, y * m);
    }
  }

  lemma EvenPart(z: nat, a: nat, x: nat)
    requires z == 2 * a + x
    ensures z % 2 == x % 2
  {}

  lemma Halved(z: nat, a: nat)
    requires z == 2 * a
    ensures z / 2 == a
  {}

  /** Multiplying by an odd number keeps the divisibility by a power of two. */
  lemma {:induction false} OddFactor(x: nat, m: nat, n: nat)
    requires m % 2 == 1
    ensures Low(x * m, n) == 0 <==> Low(x, n) == 0
    decreases n
  {
    hide Low;
    if n == 0 {
      LowNone(x * m);
      LowNone(x);
    } else {
      OddProduct(x, m);
      OddFactor(x / 2, m, n - 1);
      LowZero(x * m, n);
      LowZero(x, n);
    }
  }

  lemma LowNone(z: nat)
    ensures Low(z, 0) == 0
  {}

  lemma LowZero(z: nat, n: nat)
    requires n > 0
    ensures Low(z, n) == 0 <==> z % 2 == 0 && Low(z / 2, n - 1) == 0
  {}

  lemma {:induction false} XorZero(a: nat, b: nat)
    ensures Xor(a, b) == a <==> b == 0
  {
    XorCancels(b, a);
    XorSwaps(a, b);
    if b == 0 {}
    if Xor(a, b) == a {
      XorSelf(a);
    }
  }

  lemma {:induction false} XorSwaps(a: nat, b: nat)
    ensures Xor(a, b) == Xor(b, a)
    decreases a + b
  {
    if a != 0 && b != 0 { XorSwaps(a / 2, b / 2); }
  }

  lemma {:induction false} XorSelf(a: nat)
    ensures Xor(a, a) == 0
  {
    if a != 0 { XorSelf(a / 2); }
  }

  /** The alternate bucket in plain terms: the index with the masked product of tag and hash constant xored in. */
  lemma {:induction false} AltIndexIs(hp: nat, partial: nat, index: nat)
    requires index < Pow2(hp)
    ensures AltIndex(hp, partial, index)
      == Xor(index, ((partial + 1) * 0xc6a4a7935bd1e995) % 0x1_0000_0000_0000_0000 % Pow2(hp))
  {
    hide Xor;
    LowOfXor(index, Tag(partial), hp);
    LowFixed(index, hp);
    LowIsMod(Tag(partial), hp);
  }

  lemma {:induction false} TagZeroIff(hp: nat, partial: nat)
    requires partial < 256
    ensures Low(Tag(partial), hp) == 0 <==> (partial + 1) % Pow2(hp) == 0
  {
    hide Low, Pow2;
    var z := (partial + 1) * MURMUR;
    OddFactor(partial + 1, MURMUR, if hp <= 64 then hp else 64);
    LowIsMod(partial + 1, hp);
    WordMask(z, hp);
    if hp > 64 { SmallStays(partial + 1, hp); }
  }

  /** Masking at 64 bits first makes no difference to a mask of at most 64 bits. */
  lemma {:induction false} WordMask(z: nat, hp: nat)
    ensures hp <= 64 ==> Low(z % 0x1_0000_0000_0000_0000, hp) == Low(z, hp)
    ensures hp > 64 ==> Low(z % 0x1_0000_0000_0000_0000, hp) == Low(z, 64)
  {
    hide Low, Pow2;
    Pow64();
    LowIsMod(z, 64);
    if hp <= 64 {
      LowOfLow(z, hp, 64);
    } else {
      Pow2Mono(64, hp);
      LowFixed(Low(z, 64), hp);
    }
  }

  lemma Pow64()
    ensures Pow2(64) == 0x1_0000_0000_0000_0000
  {
    assert Pow2(8) == 0x100;
    assert Pow2(16) == 0x1_0000;
    assert Pow2(24) == 0x100_0000;
    assert Pow2(32) == 0x1_0000_0000;
    assert Pow2(40) == 0x100_0000_0000;
    assert Pow2(48) == 0x1_0000_0000_0000;
    assert Pow2(56) == 0x100_0000_0000_0000;
  }

  lemma {:induction false} SmallStays(x: nat, hp: nat)
    requires 0 < x <= 256 && hp > 64
    ensures x % Pow2(hp) != 0 && Low(x, 64) != 0
  {
    hide Low, Pow2;
    Pow64();
    Pow2Mono(64, hp);
    LowIsMod(x, 64);
    SmallMod(x, Pow2(hp));
  }

  lemma SmallMod(x: nat, p: nat)
    requires x < p
    ensures x % p == x
  {}

  /** A key's two candidate buckets coincide exactly when the table size divides its partial key plus one. */
  lemma {:induction false} CandidatesCoincideIff(hp: nat, hash: Hash)
    ensures IndexHash(hp, hash) == SecondIndex(hp, hash) <==> (PartialKey(hash) + 1) % Pow2(hp) == 0
  {
    hide Xor, Low, Pow2, PartialKey, Tag;
    var i, p := IndexHash(hp, hash), PartialKey(hash);
    LowOfXor(i, Tag(p), hp);
    LowFixed(i, hp);
    XorZero(i, Low(Tag(p), hp));
    TagZeroIff(hp, p);
  }

  /** From 512 buckets on, every key has two different buckets. */
  lemma {:induction false} TwoBuckets(hp: nat, hash: Hash)
    requires hp >= 9
    ensures IndexHash(hp, hash) != SecondIndex(hp, hash)
  {
    hide IndexHash, SecondIndex, PartialKey;
    assert Pow2(9) == 512;
    Pow2Mono(9, hp);
    CandidatesCoincideIff(hp, hash);
    SmallMod(PartialKey(hash) + 1, Pow2(hp));
  }
}
