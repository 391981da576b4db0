/** The index arithmetic of the cuckoo table: partial keys, candidate buckets and lock stripes. */
module Hashing {
  import opened Bits

  /** A `size_type` hash value. */
  type Hash = h: nat | h < 0x1_0000_0000_0000_0000

  /** The hash constant of 64-bit MurmurHash2. */
  const MURMUR := 0xc6a4a7935bd1e995

  /** Folds a 64-bit hash to eight bits; it does not depend on the hashpower. */
  function PartialKey(hash: Hash): (p: nat)
    ensures p < 256
  {
    var hash32 := Xor(hash % 0x1_0000_0000, hash / 0x1_0000_0000);
    var hash16 := Xor(hash32 % 0x1_0000, (hash32 / 0x1_0000) % 0x1_0000);
    Xor(hash16 % 0x100, (hash16 / 0x100) % 0x100) % 0x100
  }

  /** The first candidate bucket, `hv & hashmask(hp)`. */
  function IndexHash(hp: nat, hash: Hash): (i: nat)
    ensures i < Pow2(hp)
  {
    Low(hash, hp)
  }

  /** The multiplied tag wraps at 64 bits. */
  function Tag(partial: nat): nat {
    ((partial + 1) * MURMUR) % 0x1_0000_0000_0000_0000
  }

  /** The other candidate bucket of an entry whose partial key is `partial` and which sits in `index`. */
  function AltIndex(hp: nat, partial: nat, index: nat): (i: nat)
    ensures i < Pow2(hp)
  {
    Low(Xor(index, Tag(partial)), hp)
  }

  /** The second candidate bucket of a key. */
  function SecondIndex(hp: nat, hash: Hash): (i: nat)
    ensures i < Pow2(hp)
  {
    AltIndex(hp, PartialKey(hash), IndexHash(hp, hash))
  }

  predicate Candidate(hp: nat, hash: Hash, b: nat) {
    b == IndexHash(hp, hash) || b == SecondIndex(hp, hash)
  }

  /** The stripe that guards a bucket, with kMaxNumLocks == 2^lb stripes. */
  function LockInd(lb: nat, bucket: nat): (l: nat)
    ensures l < Pow2(lb)
  {
    Low(bucket, lb)
  }

  /** Taking the alternate bucket twice leads back. */
  lemma {:induction false} AltIndexInvolutive(hp: nat, partial: nat, index: nat)
    requires index < Pow2(hp)
    ensures AltIndex(hp, partial, AltIndex(hp, partial, index)) == index
  {
    var t := Tag(partial);
    var a := AltIndex(hp, partial, index);
    LowOfXor(index, t, hp);
    LowFixed(index, hp);
    assert a == Xor(index, Low(t, hp));
    LowOfXor(a, t, hp);
    LowFixed(a, hp);
    XorCancels(index, Low(t, hp));
  }

  /** From either candidate bucket of a key, the alternate index is the other candidate. */
  lemma {:induction false} AltOfCandidate(hp: nat, hash: Hash, b: nat)
    requires Candidate(hp, hash, b)
    ensures Candidate(hp, hash, AltIndex(hp, PartialKey(hash), b))
    ensures b == IndexHash(hp, hash) ==> AltIndex(hp, PartialKey(hash), b) == SecondIndex(hp, hash)
    ensures b == SecondIndex(hp, hash) ==> AltIndex(hp, PartialKey(hash), b) == IndexHash(hp, hash)
  {
    AltIndexInvolutive(hp, PartialKey(hash), IndexHash(hp, hash));
  }

  /** Growing the table by one bit adds at most the top bit to an alternate index. */
  lemma {:induction false} AltIndexDoubles(hp: nat, partial: nat, index: nat)
    ensures Low(AltIndex(hp + 1, partial, index), hp) == AltIndex(hp, partial, Low(index, hp))
  {
    var t := Tag(partial);
    LowOfLow(Xor(index, t), hp, hp + 1);
    LowOfXor(index, t, hp);
    LowOfXor(Low(index, hp), t, hp);
    LowOfLow(index, hp, hp);
  }

  /** Both candidates after a doubling are the old candidates, with or without the new top bit. */
  lemma {:induction false} CandidatesDouble(hp: nat, hash: Hash)
    ensures IndexHash(hp + 1, hash) in {IndexHash(hp, hash), IndexHash(hp, hash) + Pow2(hp)}
    ensures SecondIndex(hp + 1, hash) in {SecondIndex(hp, hash), SecondIndex(hp, hash) + Pow2(hp)}
  {
    LowStep(hash, hp);
    var p, i := PartialKey(hash), IndexHash(hp + 1, hash);
    LowOfLow(hash, hp, hp + 1);
    AltIndexDoubles(hp, p, i);
    var x := Xor(i, Tag(p));
    LowStep(x, hp);
    LowOfLow(x, hp, hp + 1);
  }

  /** A bucket and its image in the upper half of a doubled table share one stripe. */
  lemma {:induction false} StripeOfUpperHalf(lb: nat, hp: nat, bucket: nat)
    requires lb <= hp
    ensures LockInd(lb, bucket + Pow2(hp)) == LockInd(lb, bucket)
  {
    LowOfAdd(bucket, lb, hp);
  }

  /** With at least kMaxNumLocks old buckets, a key's old and new candidates are guarded by the same two stripes. */
  lemma {:induction false} StripesSurviveDoubling(lb: nat, hp: nat, hash: Hash)
    requires lb <= hp
    ensures LockInd(lb, IndexHash(hp + 1, hash)) == LockInd(lb, IndexHash(hp, hash))
    ensures LockInd(lb, SecondIndex(hp + 1, hash)) == LockInd(lb, SecondIndex(hp, hash))
  {
    CandidatesDouble(hp, hash);
    StripeOfUpperHalf(lb, hp, IndexHash(hp, hash));
    StripeOfUpperHalf(lb, hp, SecondIndex(hp, hash));
  }

  /** A table with fewer buckets than kMaxNumLocks has one stripe per bucket. */
  lemma {:induction false} StripeInRange(lb: nat, hp: nat, bucket: nat)
    requires bucket < Pow2(hp)
    ensures LockInd(lb, bucket) < LockCount(lb, hp)
  {
    if hp < lb {
      Pow2Mono(hp, lb);
      LowFixed(bucket, lb);
    }
  }

  /** min(bucket_count, kMaxNumLocks). */
  function LockCount(lb: nat, hp: nat): (n: nat)
    ensures n >= 1
  {
    if hp < lb then Pow2(hp) else Pow2(lb)
  }

  /** A stripe's buckets are its own number and every 2^lb-th one after it. */
  lemma {:induction false} FirstOfStripe(lb: nat, l: nat)
    requires l < Pow2(lb)
    ensures LockInd(lb, l) == l && forall b: nat :: LockInd(lb, b) == l ==> l <= b
  {
    LowFixed(l, lb);
    forall b: nat | LockInd(lb, b) == l ensures l <= b {
      if b < l { LowGap(b, l, lb); }
    }
  }

  lemma {:induction false} NextOfStripe(lb: nat, ob: nat)
    ensures LockInd(lb, ob + Pow2(lb)) == LockInd(lb, ob)
    ensures forall b: nat :: LockInd(lb, b) == LockInd(lb, ob) && ob < b ==> ob + Pow2(lb) <= b
  {
    LowOfAdd(ob, lb, lb);
    forall b: nat | LockInd(lb, b) == LockInd(lb, ob) && ob < b ensures ob + Pow2(lb) <= b { LowGap(ob, b, lb); }
  }

  /** What maybe_resize_locks computes for a table of twice the size. */
  lemma {:induction false} LockCountGrows(lb: nat, newHp: nat)
    requires newHp > 0
    ensures LockCount(lb, newHp) == if Pow2(lb) < Pow2(newHp) then Pow2(lb) else Pow2(newHp)
    ensures !(LockCount(lb, newHp - 1) < Pow2(lb) && LockCount(lb, newHp - 1) < Pow2(newHp)) ==>
      LockCount(lb, newHp) == LockCount(lb, newHp - 1)
    ensures LockCount(lb, newHp - 1) <= LockCount(lb, newHp)
  {
    if newHp < lb { Pow2Mono(newHp, lb); } else { Pow2Mono(lb, newHp); }
    if newHp - 1 < lb { Pow2Mono(newHp, lb); }
  }
}
