/** Keys that share one hash: they fill both candidate buckets of that hash at every hashpower. */
module Collision {
  import opened Bits
  import opened Hashing
  import opened Table

  /** The slots of the two candidate buckets. */
  ghost function Slots(i1: nat, i2: nat, n: nat): (ps: set<(nat, nat)>)
    ensures forall p: (nat, nat) :: p in ps <==> (p.0 == i1 || p.0 == i2) && p.1 < n
    ensures |ps| == if i1 == i2 then n else 2 * n
  {
    if n == 0 then {} else Slots(i1, i2, n - 1) + {(i1, n - 1), (i2, n - 1)}
  }

  /** The slots that hold the keys of ks, one per key. */
  ghost function Positions<K, V>(bs: Buckets<K, V>, ks: set<K>): (ps: set<(nat, nat)>)
    requires forall k :: k in ks ==> k in Keys(bs)
    ensures |ps| == |ks|
    ensures forall p: (nat, nat) :: p in ps ==> exists k :: k in ks && HasKey(bs, p.0, p.1, k)
  {
    if ks == {} then {}
    else
      var k :| k in ks;
      InKeys(bs, k);
      var b: nat, s: nat :| HasKey(bs, b, s, k);
      Positions(bs, ks - {k}) + {(b, s)}
  }

  lemma {:induction false} SubsetSize<T>(a: set<T>, b: set<T>)
    requires a <= b
    ensures |a| <= |b| && (|a| == |b| ==> a == b)
  {
    var d := b - a;
    assert b == a + d;
    assert |b| == |a| + |d|;
  }

  /** When twice as many keys as a bucket has slots share one hash, both its candidate buckets are full. */
  lemma {:induction false} CollidingKeysFill<K(!new), V>(
      h: K -> Hash, S: nat, hp: nat, bs: Buckets<K, V>, ks: set<K>, hash: Hash, b: nat, s: nat)
    requires S >= 1 && Good(h, S, hp, bs) && |ks| == 2 * S && Candidate(hp, hash, b)
    requires forall k :: k in ks ==> k in Keys(bs) && h(k) == hash
    ensures !OpenSlot(bs, b, s)
  {
    hide IndexHash, SecondIndex, PartialKey, Keys;
    var i1, i2 := IndexHash(hp, hash), SecondIndex(hp, hash);
    var ps, all := Positions(bs, ks), Slots(i1, i2, S);
    forall p: (nat, nat) | p in ps ensures p in all {
      var k :| k in ks && HasKey(bs, p.0, p.1, k);
      assert Candidate(hp, h(k), p.0);
    }
    SubsetSize(ps, all);
    assert OpenSlot(bs, b, s) ==> (b, s) in all;
  }

  /** Such tables exist: two keys of hash 0 in a table of two one-slot buckets. */
  lemma {:induction false} CollidingTable(bs: Buckets<int, int>, h: int -> Hash)
    requires bs == [[Full(0, 10, 0)], [Full(0, 11, 0)]] && forall k :: h(k) == 0
    ensures Good(h, 1, 1, bs) && Keys(bs) == {10, 11} && |{10, 11}| == 2 * 1
  {
    hide SecondIndex, IndexHash, PartialKey, Keys;
    assert IndexHash(1, 0) == 0 && SecondIndex(1, 0) == 1 && PartialKey(0) == 0 by { ZeroHash(); }
    assert Pow2(1) == 2;
    forall b: nat, s: nat, k: int | HasKey(bs, b, s, k)
      ensures bs[b][s].partial == PartialKey(h(k)) && Candidate(1, h(k), b) && (k == 10 <==> b == 0) && s == 0
    {}
    forall k ensures k in Keys(bs) <==> k == 10 || k == 11 {
      InKeys(bs, k);
      assert HasKey(bs, 0, 0, 10) && HasKey(bs, 1, 0, 11);
    }
  }

  lemma ZeroHash()
    ensures IndexHash(1, 0) == 0 && SecondIndex(1, 0) == 1 && PartialKey(0) == 0
  {
    hide Low, Xor;
    LowBit(0);
    ZeroPartial();
    assert IndexHash(1, 0) == 0;
    assert Xor(0, Tag(0)) == Tag(0) by { XorZero(Tag(0)); }
    LowBit(Tag(0));
    assert Tag(0) % 2 == 1;
  }

  lemma LowBit(x: nat)
    ensures Low(x, 1) == x % 2
  {
    assert Low(x / 2, 0) == 0;
  }

  lemma XorZero(x: nat)
    ensures Xor(0, x) == x
  {}

  lemma ZeroPartial()
    ensures PartialKey(0) == 0
  {
    hide Xor;
    XorZero(0);
  }
}
