/** Cuckoo paths: displacement walks through a bucket array, their 16-bit codes and their breadth-first order. */
module Paths {
  import opened Bits
  import opened Hashing
  import opened Table

  /** MAX_BFS_PATH_LEN. */
  const MAX_PATH: nat := 5

  /** A path starts at the first (0) or second (1) insert bucket and kicks out one slot per step. */
  datatype Path = Path(start: nat, slots: seq<nat>)

  ghost predicate ValidPath(S: nat, p: Path) {
    p.start < 2 && forall i :: 0 <= i < |p.slots| ==> p.slots[i] < S
  }

  /** The bucket reached from b by kicking out slot s. */
  function Hop<K, V>(hp: nat, bs: Buckets<K, V>, b: nat, s: nat): nat {
    if b < |bs| && s < |bs[b]| && bs[b][s].Full? then AltIndex(hp, bs[b][s].partial, b) else b
  }

  function Walk<K, V>(hp: nat, bs: Buckets<K, V>, b: nat, slots: seq<nat>): nat
    decreases |slots|
  {
    if slots == [] then b else Walk(hp, bs, Hop(hp, bs, b, slots[0]), slots[1..])
  }

  lemma {:induction false} WalkAppend<K, V>(hp: nat, bs: Buckets<K, V>, b: nat, xs: seq<nat>, ys: seq<nat>)
    ensures Walk(hp, bs, b, xs + ys) == Walk(hp, bs, Walk(hp, bs, b, xs), ys)
    decreases |xs|
  {
    if xs == [] {
      assert xs + ys == ys;
    } else {
      assert (xs + ys)[1..] == xs[1..] + ys;
      WalkAppend(hp, bs, Hop(hp, bs, b, xs[0]), xs[1..], ys);
    }
  }

  lemma {:induction false} WalkExtend<K, V>(hp: nat, bs: Buckets<K, V>, b: nat, xs: seq<nat>, s: nat)
    ensures Walk(hp, bs, b, xs + [s]) == Hop(hp, bs, Walk(hp, bs, b, xs), s)
  {
    WalkAppend(hp, bs, b, xs, [s]);
  }

  lemma {:induction false} WalkInRange<K, V>(hp: nat, bs: Buckets<K, V>, b: nat, xs: seq<nat>)
    requires b < Pow2(hp)
    ensures Walk(hp, bs, b, xs) < Pow2(hp)
    decreases |xs|
  {
    if xs != [] { WalkInRange(hp, bs, Hop(hp, bs, b, xs[0]), xs[1..]); }
  }

  // ---- arithmetic in base S ----

  /** n / S and n % S on unsigned operands. */
  function Quot(n: nat, S: nat): (q: nat)
    requires S >= 1
    ensures q <= n
  {
    if n < S then 0 else 1 + Quot(n - S, S)
  }

  function Rem(n: nat, S: nat): (r: nat)
    requires S >= 1
    ensures r < S
  {
    if n < S then n else Rem(n - S, S)
  }

  /** One digit of a base-S number. */
  lemma {:induction false} Digit(S: nat, q: nat, r: nat)
    requires r < S
    ensures Quot(q * S + r, S) == q && Rem(q * S + r, S) == r
  {
    if q > 0 {
      Digit(S, q - 1, r);
      assert q * S + r - S == (q - 1) * S + r;
    }
  }

  lemma {:induction false} QuotRem(n: nat, S: nat)
    requires S >= 1
    ensures n == Quot(n, S) * S + Rem(n, S)
  {
    if n >= S { QuotRem(n - S, S); }
  }

  lemma {:induction false} MulMono(a: nat, b: nat, d: nat)
    requires a <= b
    ensures a * d <= b * d
  {
    assert b * d - a * d == (b - a) * d;
  }

  /** Appending a digit keeps a number between two bounds. */
  lemma {:induction false} Between(S: nat, lo: nat, q: nat, hi: nat, r: nat)
    requires lo <= q < hi && r < S
    ensures lo * S <= q * S + r < hi * S
  {
    MulMono(lo, q, S);
    MulMono(q + 1, hi, S);
  }

  lemma {:induction false} Regroup(S: nat, w: nat)
    ensures (2 * w) * S == 2 * (S * w)
  {
  }

  /** How far to rotate from slot c to reach slot s. */
  lemma {:induction false} Rotate(S: nat, c: nat, s: nat) returns (i: nat)
    requires c < S && s < S
    ensures i < S && Rem(c + i, S) == s
  {
    if s >= c {
      i := s - c;
    } else {
      i := s - c + S;
    }
  }

  // ---- path codes ----

  /** The pathcode of b_slot: a base-S number whose leading digit is the start. */
  function Encode(S: nat, p: Path): nat
    decreases |p.slots|
  {
    if p.slots == [] then p.start
    else
      var n := |p.slots| - 1;
      Encode(S, Path(p.start, p.slots[..n])) * S + p.slots[n]
  }

  function Pow(a: nat, n: nat): nat {
    if n == 0 then 1 else a * Pow(a, n - 1)
  }

  lemma {:induction false} EncodeBound(S: nat, p: Path)
    requires ValidPath(S, p)
    ensures Encode(S, p) < 2 * Pow(S, |p.slots|)
    decreases |p.slots|
  {
    if p.slots != [] {
      var n := |p.slots| - 1;
      var q := Path(p.start, p.slots[..n]);
      EncodeBound(S, q);
      Between(S, 0, Encode(S, q), 2 * Pow(S, n), p.slots[n]);
      Regroup(S, Pow(S, n));
    }
  }

  /** Repeated `% S` and `/ S`, as cuckoopath_search decodes a code of n slots. */
  function Decode(S: nat, code: nat, n: nat): Path
    requires S > 0
  {
    if n == 0 then Path(code, [])
    else
      var p := Decode(S, Quot(code, S), n - 1);
      Path(p.start, p.slots + [Rem(code, S)])
  }

  lemma {:induction false} DecodeLength(S: nat, code: nat, n: nat)
    requires S > 0
    ensures |Decode(S, code, n).slots| == n
  {
    if n > 0 { DecodeLength(S, Quot(code, S), n - 1); }
  }

  lemma {:induction false} DecodeStep(S: nat, code: nat, n: nat)
    requires S > 0
    ensures var p, q := Decode(S, code, n + 1), Decode(S, Quot(code, S), n);
      && p.start == q.start && |q.slots| == n && |p.slots| == n + 1
      && p.slots[..n] == q.slots && p.slots[n] == Rem(code, S)
  {
    DecodeLength(S, Quot(code, S), n);
  }

  lemma DecodeNothing(S: nat, code: nat)
    requires S > 0
    ensures Decode(S, code, 0) == Path(code, [])
  {}

  lemma {:induction false} DecodeEncode(S: nat, p: Path)
    requires S > 0 && ValidPath(S, p)
    ensures Decode(S, Encode(S, p), |p.slots|) == p
    decreases |p.slots|
  {
    if p.slots != [] {
      var n := |p.slots| - 1;
      var q := Path(p.start, p.slots[..n]);
      DecodeEncode(S, q);
      AppendDigit(S, p, q);
    }
  }

  /** Decoding undoes the last digit. */
  lemma {:induction false} AppendDigit(S: nat, p: Path, q: Path)
    requires S > 0 && p.slots != [] && ValidPath(S, p)
    requires q == Path(p.start, p.slots[..|p.slots| - 1]) && Decode(S, Encode(S, q), |q.slots|) == q
    ensures Decode(S, Encode(S, p), |p.slots|) == p
  {
    hide Decode, Quot, Rem;
    var n := |p.slots| - 1;
    Digit(S, Encode(S, q), p.slots[n]);
    DecodeStep(S, Encode(S, p), n);
    assert p.slots == p.slots[..n] + [p.slots[n]];
  }

  lemma {:induction false} PowMono(a: nat, b: nat, n: nat)
    requires a <= b
    ensures Pow(a, n) <= Pow(b, n)
  {
    if n > 0 {
      PowMono(a, b, n - 1);
      MulMono(Pow(a, n - 1), Pow(b, n - 1), a);
      MulMono(a, b, Pow(b, n - 1));
    }
  }

  lemma {:induction false} PowGrows(a: nat, m: nat, n: nat)
    requires a >= 1 && m <= n
    ensures 1 <= Pow(a, m) <= Pow(a, n)
    decreases n
  {
    if n == 0 {
    } else if m < n {
      PowGrows(a, m, n - 1);
      assert 1 * Pow(a, n - 1) <= a * Pow(a, n - 1);
    } else {
      PowGrows(a, m - 1, n - 1);
      assert 1 * Pow(a, m - 1) <= a * Pow(a, m - 1);
    }
  }

  /** The code of the path that always kicks out the last slot, from the second bucket. */
  lemma {:induction false} LargestCode(S: nat, n: nat) returns (p: Path)
    requires S >= 1
    ensures ValidPath(S, p) && |p.slots| == n && Encode(S, p) == 2 * Pow(S, n) - 1
  {
    if n == 0 {
      p := Path(1, []);
    } else {
      var q := LargestCode(S, n - 1);
      p := Path(q.start, q.slots + [S - 1]);
      assert p.slots[..n - 1] == q.slots;
      assert (2 * Pow(S, n - 1) - 1) * S + S - 1 == 2 * (S * Pow(S, n - 1)) - 1;
    }
  }

  /** uint16_t holds every pathcode of up to MAX_PATH slots exactly when a bucket has at most eight slots. */
  lemma {:induction false} CodesFitIff(S: nat)
    requires S >= 1
    ensures (forall p: Path :: ValidPath(S, p) && |p.slots| <= MAX_PATH ==> Encode(S, p) < 0x1_0000) <==> S <= 8
  {
    if S <= 8 {
      PowMono(S, 8, MAX_PATH);
      assert Pow(8, 5) == 0x8000;
      forall p: Path | ValidPath(S, p) && |p.slots| <= MAX_PATH ensures Encode(S, p) < 0x1_0000 {
        EncodeBound(S, p);
        PowGrows(S, |p.slots|, MAX_PATH);
      }
    } else {
      var p := LargestCode(S, MAX_PATH);
      PowMono(9, S, MAX_PATH);
      assert Pow(9, 5) == 59049;
    }
  }

  /** The static_assert on pathcode admits nine slots, although 16 bits are then too few. */
  lemma {:induction false} StaticAssertTooWeak() returns (p: Path)
    ensures Pow(9, MAX_PATH) < 0xFFFF
    ensures ValidPath(9, p) && |p.slots| == MAX_PATH && Encode(9, p) >= 0x1_0000
  {
    assert Pow(9, 5) == 59049;
    p := LargestCode(9, MAX_PATH);
  }

  // ---- breadth-first order ----

  /** The number of queue entries of depth less than d. */
  function Offset(S: nat, d: nat): nat {
    if d == 0 then 0 else 2 + Offset(S, d - 1) * S
  }

  lemma {:induction false} OffsetMono(S: nat, c: nat, d: nat)
    requires c <= d
    ensures Offset(S, c) <= Offset(S, d)
    decreases d
  {
    if 0 < c {
      OffsetMono(S, c - 1, d - 1);
      MulMono(Offset(S, c - 1), Offset(S, d - 1), S);
    }
  }

  /** The size given to the BFS queue, MAX_CUCKOO_COUNT. */
  function QueueCapacity(S: nat): nat
    requires S >= 1
  {
    PowGrows(S, 0, MAX_PATH);
    2 * (if S == 1 then MAX_PATH else Quot(Pow(S, MAX_PATH) - 1, S - 1))
  }

  lemma {:induction false} GeometricStep(S: nat, o: nat, w: nat)
    requires S >= 1 && (S - 1) * o == 2 * (w - 1)
    ensures (S - 1) * (2 + o * S) == 2 * (S * w - 1)
  {
    assert (S - 1) * (o * S) == ((S - 1) * o) * S;
    assert (2 * (w - 1)) * S == 2 * (S * w) - 2 * S;
    assert (S - 1) * (2 + o * S) == (S - 1) * 2 + (S - 1) * (o * S);
  }

  lemma {:induction false} GeometricSum(S: nat, d: nat)
    requires S >= 1
    ensures (S - 1) * Offset(S, d) == 2 * (Pow(S, d) - 1)
  {
    if d > 0 {
      GeometricSum(S, d - 1);
      GeometricStep(S, Offset(S, d - 1), Pow(S, d - 1));
    }
  }

  /** The queue has room for exactly all entries of depth below MAX_PATH. */
  lemma {:induction false} CapacityIsOffset(S: nat)
    requires S >= 1
    ensures QueueCapacity(S) == Offset(S, MAX_PATH)
  {
    hide Offset, Pow, Quot;
    PowGrows(S, 0, MAX_PATH);
    if S == 1 {
      OneSlotOffset(MAX_PATH);
    } else {
      GeometricSum(S, MAX_PATH);
      EvenOffset(S, MAX_PATH);
      HalfSum(S, Offset(S, MAX_PATH), Pow(S, MAX_PATH));
    }
  }

  lemma {:induction false} OneSlotOffset(d: nat)
    ensures Offset(1, d) == 2 * d
  {
    if d > 0 { OneSlotOffset(d - 1); }
  }

  lemma {:induction false} HalfSum(S: nat, o: nat, w: nat)
    requires S >= 2 && w >= 1 && o % 2 == 0 && (S - 1) * o == 2 * (w - 1)
    ensures 2 * Quot(w - 1, S - 1) == o
  {
    hide Quot;
    var c := o / 2;
    assert (S - 1) * (2 * c) == 2 * (c * (S - 1));
    Digit(S - 1, c, 0);
  }

  lemma {:induction false} Doubles(c: nat, S: nat)
    ensures ((2 * c) * S) % 2 == 0
  {
    assert (2 * c) * S == 2 * (c * S);
  }

  lemma {:induction false} EvenOffset(S: nat, d: nat)
    ensures Offset(S, d) % 2 == 0
  {
    if d > 0 {
      EvenOffset(S, d - 1);
      Doubles(Offset(S, d - 1) / 2, S);
    }
  }

  /** The path of the n-th entry ever enqueued: entry m's children are entries 2 + m*S .. 2 + m*S + S - 1,
      starting at slot `pathcode % S` and wrapping around. */
  function PathAt(S: nat, n: nat): Path
    requires S >= 1
  {
    if n < 2 then Path(n, [])
    else
      var p := PathAt(S, Quot(n - 2, S));
      Path(p.start, p.slots + [Rem(Rem(Encode(S, p), S) + Rem(n - 2, S), S)])
  }


  lemma {:induction false} PathAtLevel(S: nat, n: nat)
    requires S >= 1
    ensures ValidPath(S, PathAt(S, n))
    ensures var d := |PathAt(S, n).slots|; Offset(S, d) <= n < Offset(S, d + 1)
    decreases n
  {
    if n >= 2 {
      var m := Quot(n - 2, S);
      PathAtLevel(S, m);
      var d := |PathAt(S, m).slots|;
      QuotRem(n - 2, S);
      Between(S, Offset(S, d), m, Offset(S, d + 1), Rem(n - 2, S));
    } else {
      assert Offset(S, 1) == 2 + Offset(S, 0) * S;
    }
  }

  /** The index of the i-th child of entry m. */
  function Child(S: nat, m: nat, i: nat): nat {
    2 + m * S + i
  }

  lemma {:induction false} PathAtChild(S: nat, m: nat, i: nat)
    requires S >= 1 && i < S
    ensures var p := PathAt(S, m);
      PathAt(S, Child(S, m, i)) == Path(p.start, p.slots + [Rem(Rem(Encode(S, p), S) + i, S)])
  {
    Digit(S, m, i);
  }

  /** Every path occurs in the breadth-first order. */
  lemma {:induction false} PathOccurs(S: nat, p: Path) returns (n: nat)
    requires S >= 1 && ValidPath(S, p)
    ensures PathAt(S, n) == p
    decreases |p.slots|
  {
    if p.slots == [] {
      n := p.start;
    } else {
      var k := |p.slots| - 1;
      var q := Path(p.start, p.slots[..k]);
      var m := PathOccurs(S, q);
      hide Rem, Encode, Child;
      var i := Rotate(S, Rem(Encode(S, q), S), p.slots[k]);
      n := Child(S, m, i);
      PathAtChild(S, m, i);
      assert p.slots == q.slots + [p.slots[k]];
    }
  }

  // ---- the first open bucket ----

  predicate HasOpen<K, V>(bs: Buckets<K, V>, b: nat) {
    b < |bs| && exists s :: 0 <= s < |bs[b]| && bs[b][s].Empty?
  }

  function Start(i1: nat, i2: nat, p: Path): nat {
    if p.start == 0 then i1 else i2
  }

  /** The bucket at the end of the n-th path. */
  function BucketAt<K, V>(S: nat, hp: nat, bs: Buckets<K, V>, i1: nat, i2: nat, n: nat): nat
    requires S >= 1
  {
    var p := PathAt(S, n);
    Walk(hp, bs, Start(i1, i2, p), p.slots)
  }

  /** The first n paths all end in full buckets. */
  ghost predicate NoneOpen<K, V>(S: nat, hp: nat, bs: Buckets<K, V>, i1: nat, i2: nat, n: nat)
    requires S >= 1
  {
    forall m: nat :: m < n ==> !HasOpen(bs, BucketAt(S, hp, bs, i1, i2, m))
  }

  /** n is the first path in breadth-first order that ends in a bucket with an empty slot. */
  ghost predicate FirstOpen<K, V>(S: nat, hp: nat, bs: Buckets<K, V>, i1: nat, i2: nat, n: nat)
    requires S >= 1
  {
    HasOpen(bs, BucketAt(S, hp, bs, i1, i2, n)) && NoneOpen(S, hp, bs, i1, i2, n)
  }

  lemma {:induction false} NoneOpenNext<K, V>(S: nat, hp: nat, bs: Buckets<K, V>, i1: nat, i2: nat, n: nat)
    requires S >= 1 && NoneOpen(S, hp, bs, i1, i2, n)
    ensures !HasOpen(bs, BucketAt(S, hp, bs, i1, i2, n)) ==> NoneOpen(S, hp, bs, i1, i2, n + 1)
    ensures HasOpen(bs, BucketAt(S, hp, bs, i1, i2, n)) ==> FirstOpen(S, hp, bs, i1, i2, n)
  {
  }

  /** The first open path is a shortest one. */
  lemma {:induction false} FirstOpenShortest<K, V>(S: nat, hp: nat, bs: Buckets<K, V>, i1: nat, i2: nat, n: nat,
      p: Path)
    requires S >= 1 && FirstOpen(S, hp, bs, i1, i2, n) && ValidPath(S, p)
    requires HasOpen(bs, Walk(hp, bs, Start(i1, i2, p), p.slots))
    ensures |PathAt(S, n).slots| <= |p.slots|
  {
    var m := PathOccurs(S, p);
    assert BucketAt(S, hp, bs, i1, i2, m) == Walk(hp, bs, Start(i1, i2, p), p.slots);
    PathAtLevel(S, m);
    PathAtLevel(S, n);
    if |p.slots| < |PathAt(S, n).slots| {
      OffsetMono(S, |p.slots| + 1, |PathAt(S, n).slots|);
    }
  }

  /** The j-th bucket on the n-th path. */
  function Stop<K, V>(hp: nat, bs: Buckets<K, V>, b: nat, slots: seq<nat>, j: nat): nat
    requires j <= |slots|
  {
    Walk(hp, bs, b, slots[..j])
  }

  /** No bucket repeats on the first open path. */
  lemma {:induction false} FirstOpenDistinct<K, V>(S: nat, hp: nat, bs: Buckets<K, V>, i1: nat, i2: nat, n: nat,
                                                   j: nat, k: nat)
    requires S >= 1 && FirstOpen(S, hp, bs, i1, i2, n)
    requires j < k <= |PathAt(S, n).slots|
    ensures var p := PathAt(S, n); var b := Start(i1, i2, p);
      Stop(hp, bs, b, p.slots, j) != Stop(hp, bs, b, p.slots, k)
  {
    var p := PathAt(S, n);
    var b, xs := Start(i1, i2, p), p.slots;
    PathAtLevel(S, n);
    if Stop(hp, bs, b, xs, j) == Stop(hp, bs, b, xs, k) {
      WalkCut(hp, bs, b, xs, j, k);
      FirstOpenShortest(S, hp, bs, i1, i2, n, Path(p.start, xs[..j] + xs[k..]));
    }
  }

  /** A walk that returns to a bucket can skip the detour. */
  lemma {:induction false} WalkCut<K, V>(hp: nat, bs: Buckets<K, V>, b: nat, xs: seq<nat>, j: nat, k: nat)
    requires j < k <= |xs| && Stop(hp, bs, b, xs, j) == Stop(hp, bs, b, xs, k)
    ensures Walk(hp, bs, b, xs[..j] + xs[k..]) == Walk(hp, bs, b, xs)
  {
    WalkAppend(hp, bs, b, xs[..j], xs[k..]);
    WalkAppend(hp, bs, b, xs[..k], xs[k..]);
    assert xs == xs[..k] + xs[k..];
  }

  // ---- queue entries ----

  /** b_slot: the last bucket of a path, its code and its depth (-1 on failure). */
  datatype BSlot = BSlot(bucket: nat, pathcode: nat, depth: int)

  /** The n-th entry ever enqueued. */
  function EntryAt<K, V>(S: nat, hp: nat, bs: Buckets<K, V>, i1: nat, i2: nat, n: nat): BSlot
    requires S >= 1
  {
    BSlot(BucketAt(S, hp, bs, i1, i2, n), Encode(S, PathAt(S, n)), |PathAt(S, n).slots|)
  }

  function Extend(p: Path, s: nat): Path {
    Path(p.start, p.slots + [s])
  }

  lemma {:induction false} EncodeExtend(S: nat, p: Path, s: nat)
    ensures Encode(S, Extend(p, s)) == Encode(S, p) * S + s
  {
    assert Extend(p, s).slots[..|p.slots|] == p.slots;
  }

  /** Kicking out slot s of entry m's bucket gives the child entry with that slot. */
  lemma {:induction false} ChildEntry<K, V>(S: nat, hp: nat, bs: Buckets<K, V>, i1: nat, i2: nat, m: nat, i: nat)
    requires S >= 1 && i < S
    ensures var s := Rem(Rem(Encode(S, PathAt(S, m)), S) + i, S);
      var b := BucketAt(S, hp, bs, i1, i2, m);
      EntryAt(S, hp, bs, i1, i2, Child(S, m, i)) ==
        BSlot(Hop(hp, bs, b, s), Encode(S, Extend(PathAt(S, m), s)), |PathAt(S, m).slots| + 1)
  {
    hide Child, Rem, PathAt, Encode, Walk;
    var p := PathAt(S, m);
    var s := Rem(Rem(Encode(S, p), S) + i, S);
    PathAtChild(S, m, i);
    WalkExtend(hp, bs, Start(i1, i2, p), p.slots, s);
  }

  /** How many entries have been enqueued once the first n have been expanded. */
  function Enqueued(S: nat, n: nat): nat {
    if n <= Offset(S, MAX_PATH - 1) then Child(S, n, 0) else Offset(S, MAX_PATH)
  }

  /** Entries of depth below MAX_PATH - 1 are expanded; the queue has room for their children. */
  lemma {:induction false} RoomForChildren(S: nat, n: nat)
    requires S >= 1 && n < Offset(S, MAX_PATH)
    ensures |PathAt(S, n).slots| < MAX_PATH
    ensures |PathAt(S, n).slots| < MAX_PATH - 1 <==> n < Offset(S, MAX_PATH - 1)
    ensures n < Offset(S, MAX_PATH - 1) ==>
      Child(S, n, S) <= Offset(S, MAX_PATH) && Enqueued(S, n) == Child(S, n, 0) && Enqueued(S, n + 1) == Child(S, n, S)
    ensures n >= Offset(S, MAX_PATH - 1) ==> Enqueued(S, n) == Enqueued(S, n + 1) == Offset(S, MAX_PATH)
  {
    PathAtLevel(S, n);
    var d := |PathAt(S, n).slots|;
    if d >= MAX_PATH { OffsetMono(S, MAX_PATH, d); }
    if d >= MAX_PATH - 1 { OffsetMono(S, MAX_PATH - 1, d); } else { OffsetMono(S, d + 1, MAX_PATH - 1); }
    var o := Offset(S, MAX_PATH - 1);
    assert Offset(S, MAX_PATH) == 2 + o * S;
    if n < o {
      MulMono(n + 1, o, S);
      assert (n + 1) * S == n * S + S;
    }
  }

  lemma {:induction false} CodeFits(S: nat, p: Path)
    requires 1 <= S <= 8 && ValidPath(S, p) && |p.slots| <= MAX_PATH
    ensures Encode(S, p) < 0x1_0000
  {
    CodesFitIff(S);
  }

  lemma {:induction false} OpenAt<K, V>(bs: Buckets<K, V>, b: nat, s: nat)
    requires HasAt(bs, b, s) && bs[b][s].Empty?
    ensures HasOpen(bs, b) && OpenSlot(bs, b, s)
  {
  }

  /** The queue runs dry only after every entry of depth below MAX_PATH has been expanded. */
  lemma {:induction false} QueueExhausted(S: nat, n: nat, last: nat)
    requires S >= 1 && n == last == Enqueued(S, n)
    ensures n == Offset(S, MAX_PATH)
  {
    if n <= Offset(S, MAX_PATH - 1) {
      MulMono(1, S, n);
    }
  }
}
