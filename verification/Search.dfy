/** One step of the breadth-first search: scan a bucket, stop at an empty slot or enqueue its children. */
module Search {
  import opened Bits
  import opened Hashing
  import opened Table
  import opened Paths
  import opened Queue

  /** The queue holds the breadth-first order itself. */
  ghost predicate Filled<K, V>(items: seq<BSlot>, S: nat, hp: nat, bs: Buckets<K, V>, i1: nat, i2: nat)
    requires S >= 1
  {
    forall m: nat :: m < |items| ==> items[m] == EntryAt(S, hp, bs, i1, i2, m)
  }

  lemma {:induction false} FilledAt<K, V>(items: seq<BSlot>, S: nat, hp: nat, bs: Buckets<K, V>, i1: nat, i2: nat,
      n: nat)
    requires S >= 1 && Filled(items, S, hp, bs, i1, i2) && n < |items|
    ensures items[n] == EntryAt(S, hp, bs, i1, i2, n)
  {
  }

  /** The slot inspected at step i when the scan starts at `pathcode % S`. */
  function Rotated(S: nat, pathcode: nat, i: nat): (s: nat)
    requires S >= 1
    ensures s < S
  {
    Rem(Rem(pathcode, S) + i, S)
  }

  /** A full rotation visits every slot. */
  lemma {:induction false} RotationCovers<K, V>(S: nat, pathcode: nat, bs: Buckets<K, V>, b: nat)
    requires S >= 1 && b < |bs| && |bs[b]| == S
    requires forall i: nat :: i < S ==> bs[b][Rotated(S, pathcode, i)].Full?
    ensures !HasOpen(bs, b)
  {
    forall s | 0 <= s < |bs[b]| ensures bs[b][s].Full? {
      var i := Rotate(S, Rem(pathcode, S), s);
      assert Rotated(S, pathcode, i) == s;
    }
  }

  /** The b_slot built for the i-th slot scanned; the 16-bit code does not wrap. */
  function ChildSlot(S: nat, hp: nat, x: BSlot, partial: nat, slot: nat): BSlot {
    BSlot(AltIndex(hp, partial, x.bucket), (x.pathcode * S + slot) % 0x1_0000, x.depth + 1)
  }

  lemma {:induction false} ChildSlotIsEntry<K, V>(S: nat, hp: nat, x: BSlot, i: nat, bs: Buckets<K, V>, i1: nat,
      i2: nat, n: nat)
    requires 1 <= S <= 8 && i < S && n < Offset(S, MAX_PATH - 1)
    requires x == EntryAt(S, hp, bs, i1, i2, n) && x.bucket < |bs| && |bs[x.bucket]| == S
    requires bs[x.bucket][Rotated(S, x.pathcode, i)].Full?
    ensures Child(S, n, i) < Offset(S, MAX_PATH)
    ensures ChildSlot(S, hp, x, bs[x.bucket][Rotated(S, x.pathcode, i)].partial, Rotated(S, x.pathcode, i))
      == EntryAt(S, hp, bs, i1, i2, Child(S, n, i))
  {
    hide Offset, PathAt, Encode, AltIndex, Enqueued;
    OffsetMono(S, MAX_PATH - 1, MAX_PATH);
    RoomForChildren(S, n);
    ChildEntry(S, hp, bs, i1, i2, n, i);
    EncodeExtend(S, PathAt(S, n), Rotated(S, x.pathcode, i));
    PathAtLevel(S, Child(S, n, i));
    CodeFits(S, PathAt(S, Child(S, n, i)));
  }

  method EnqueueChild<K, V>(S: nat, hp: nat, x: BSlot, partial: nat, i: nat, q: BQueue,
                            ghost bs: Buckets<K, V>, ghost i1: nat, ghost i2: nat, ghost n: nat)
    requires 1 <= S <= 8 && i < S && n < Offset(S, MAX_PATH - 1)
    requires x == EntryAt(S, hp, bs, i1, i2, n) && x.bucket < |bs| && |bs[x.bucket]| == S
    requires var e := bs[x.bucket][Rotated(S, x.pathcode, i)]; e.Full? && e.partial == partial
    requires q.Valid() && q.slots.Length == Offset(S, MAX_PATH)
    requires Filled(q.Items(), S, hp, bs, i1, i2) && q.last == Child(S, n, i)
    modifies q`last, q.slots
    ensures q.Valid() && Filled(q.Items(), S, hp, bs, i1, i2) && q.last == Child(S, n, i + 1)
  {
    hide Offset, PathAt, Encode, AltIndex, EntryAt, Rotated, ChildSlot, Filled;
    ChildSlotIsEntry(S, hp, x, i, bs, i1, i2, n);
    ghost var before := q.Items();
    q.Enqueue(ChildSlot(S, hp, x, partial, Rotated(S, x.pathcode, i)));
    FilledNext(before, q.Items(), S, hp, bs, i1, i2);
  }

  lemma {:induction false} FilledNext<K, V>(before: seq<BSlot>, after: seq<BSlot>, S: nat, hp: nat,
      bs: Buckets<K, V>, i1: nat, i2: nat)
    requires S >= 1 && Filled(before, S, hp, bs, i1, i2)
    requires after == before + [EntryAt(S, hp, bs, i1, i2, |before|)]
    ensures Filled(after, S, hp, bs, i1, i2)
  {
  }

  /** The body of slot_search for a dequeued entry: an empty slot, or a full bucket whose children are queued. */
  method Expand<K, V>(S: nat, hp: nat, bucket: Bucket<K, V>, x: BSlot, q: BQueue,
                      ghost bs: Buckets<K, V>, ghost i1: nat, ghost i2: nat, ghost n: nat)
    returns (found: bool, slot: nat)
    requires 1 <= S <= 8 && n < Offset(S, MAX_PATH) && x == EntryAt(S, hp, bs, i1, i2, n)
    requires x.bucket < |bs| && bs[x.bucket] == bucket && |bucket| == S
    requires q.Valid() && q.slots.Length == Offset(S, MAX_PATH)
    requires Filled(q.Items(), S, hp, bs, i1, i2) && q.last == Enqueued(S, n)
    modifies q`last, q.slots
    ensures found ==> slot < S && bucket[slot].Empty?
    ensures !found ==> !HasOpen(bs, x.bucket)
    ensures !found ==> q.Valid() && Filled(q.Items(), S, hp, bs, i1, i2) && q.last == Enqueued(S, n + 1)
  {
    hide Offset, PathAt, Encode, Filled, Enqueued, HasOpen, BucketAt, Rotated, Child;
    RoomForChildren(S, n);
    var i: nat := 0;
    while i < S
      invariant i <= S && q.Valid() && Filled(q.Items(), S, hp, bs, i1, i2)
      invariant q.last == if n < Offset(S, MAX_PATH - 1) then Child(S, n, i) else Offset(S, MAX_PATH)
      invariant forall j: nat :: j < i ==> bucket[Rotated(S, x.pathcode, j)].Full?
    {
      slot := Rotated(S, x.pathcode, i);
      if bucket[slot].Empty? {
        return true, slot;
      }
      if x.depth < MAX_PATH - 1 {
        EnqueueChild(S, hp, x, bucket[slot].partial, i, q, bs, i1, i2, n);
      }
      i := i + 1;
    }
    RotationCovers(S, x.pathcode, bs, x.bucket);
    return false, 0;
  }
}
