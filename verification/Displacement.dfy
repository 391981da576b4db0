/** Executing a cuckoo path: what each record says, and why every move finds what the search saw. */
module Displacement {
  import opened Bits
  import opened Hashing
  import opened Table
  import opened Paths

  /** CuckooRecord: a position on the path and the hash of the key found there. */
  datatype CuckooRecord = CuckooRecord(bucket: nat, slot: nat, hash: Hash)

  /** Record j names the j-th stop of the path and the hash of the entry that will be kicked out of it. */
  ghost predicate Recorded<K, V>(h: K -> Hash, hp: nat, bs: Buckets<K, V>, start: nat, slots: seq<nat>,
      r: CuckooRecord, j: nat)
    requires j < |slots|
  {
    && r.bucket == Stop(hp, bs, start, slots, j) && r.slot == slots[j]
    && HasAt(bs, r.bucket, r.slot)
    && (j < |slots| - 1 ==> bs[r.bucket][r.slot].Full? && h(bs[r.bucket][r.slot].key) == r.hash)
    && (j == |slots| - 1 ==> bs[r.bucket][r.slot].Empty?)
  }

  /** From record d down to record 0 every move is possible in bs. */
  ghost predicate Movable<K, V>(h: K -> Hash, hp: nat, bs: Buckets<K, V>, recs: seq<CuckooRecord>, d: nat) {
    && d < |recs|
    && (forall j: nat :: j <= d ==> HasAt(bs, recs[j].bucket, recs[j].slot))
    && bs[recs[d].bucket][recs[d].slot].Empty?
    && (forall j: nat :: j < d ==> Link(h, hp, bs, recs, j))
    && (forall j: nat, k: nat :: j < k <= d ==> recs[j].bucket != recs[k].bucket)
  }

  /** The entry at record j is the one seen by the search, and record j + 1 is its alternate bucket. */
  ghost predicate Link<K, V>(h: K -> Hash, hp: nat, bs: Buckets<K, V>, recs: seq<CuckooRecord>, j: nat) {
    j + 1 < |recs| && HasAt(bs, recs[j].bucket, recs[j].slot) &&
    var x := bs[recs[j].bucket][recs[j].slot];
    x.Full? && h(x.key) == recs[j].hash && recs[j + 1].bucket == AltIndex(hp, x.partial, recs[j].bucket)
  }

  /** Every bucket before the end of a first open path is full. */
  lemma {:induction false} InteriorFull<K, V>(S: nat, hp: nat, bs: Buckets<K, V>, i1: nat, i2: nat, n: nat, j: nat)
    requires S >= 1 && FirstOpen(S, hp, bs, i1, i2, n) && j < |PathAt(S, n).slots|
    ensures var p := PathAt(S, n); !HasOpen(bs, Stop(hp, bs, Start(i1, i2, p), p.slots, j))
  {
    hide FirstOpen, HasOpen, PathAt, Walk;
    var p := PathAt(S, n);
    PathAtLevel(S, n);
    var q := Path(p.start, p.slots[..j]);
    if HasOpen(bs, Stop(hp, bs, Start(i1, i2, p), p.slots, j)) {
      FirstOpenShortest(S, hp, bs, i1, i2, n, q);
    }
  }

  lemma {:induction false} StopZero<K, V>(hp: nat, bs: Buckets<K, V>, b: nat, slots: seq<nat>)
    ensures Stop(hp, bs, b, slots, 0) == b
  {
    assert slots[..0] == [];
  }

  lemma {:induction false} StopInRange<K, V>(hp: nat, bs: Buckets<K, V>, b: nat, slots: seq<nat>, j: nat)
    requires j <= |slots| && b < Pow2(hp)
    ensures Stop(hp, bs, b, slots, j) < Pow2(hp)
  {
    WalkInRange(hp, bs, b, slots[..j]);
  }

  /** On the extended first open path, only the last slot is empty. */
  lemma {:induction false} FullUnlessLast<K, V>(S: nat, hp: nat, bs: Buckets<K, V>, i1: nat, i2: nat, n: nat,
      slot: nat, j: nat)
    requires S >= 1 && FirstOpen(S, hp, bs, i1, i2, n) && j <= |PathAt(S, n).slots| && slot < S
    requires OpenSlot(bs, BucketAt(S, hp, bs, i1, i2, n), slot)
    ensures var p := Extend(PathAt(S, n), slot);
      var b := Stop(hp, bs, Start(i1, i2, PathAt(S, n)), p.slots, j);
      && p.slots[j] < S
      && (HasAt(bs, b, p.slots[j]) ==> (bs[b][p.slots[j]].Empty? <==> j == |PathAt(S, n).slots|))
  {
    hide FirstOpen, PathAt, Walk;
    var p := PathAt(S, n);
    PathAtLevel(S, n);
    assert Extend(p, slot).slots[..j] == p.slots[..j];
    if j < |p.slots| {
      InteriorFull(S, hp, bs, i1, i2, n, j);
    } else {
      assert p.slots[..j] == p.slots;
    }
  }

  lemma {:induction false} MakeRecorded<K, V>(h: K -> Hash, hp: nat, bs: Buckets<K, V>, start: nat, slots: seq<nat>,
      r: CuckooRecord, j: nat)
    requires j < |slots| && r.bucket == Stop(hp, bs, start, slots, j) && r.slot == slots[j]
    requires HasAt(bs, r.bucket, r.slot) && (bs[r.bucket][r.slot].Empty? <==> j == |slots| - 1)
    requires j < |slots| - 1 ==> h(bs[r.bucket][r.slot].key) == r.hash
    ensures Recorded(h, hp, bs, start, slots, r, j)
  {
  }

  /** The alternate bucket computed from the recorded hash is the next stop. */
  lemma {:induction false} NextStop<K(!new), V>(h: K -> Hash, S: nat, hp: nat, bs: Buckets<K, V>, start: nat,
      slots: seq<nat>,
                                          r: CuckooRecord, j: nat)
    requires j + 1 < |slots| && Recorded(h, hp, bs, start, slots, r, j) && Good(h, S, hp, bs)
    ensures Stop(hp, bs, start, slots, j + 1) == AltIndex(hp, PartialKey(r.hash), r.bucket)
  {
    hide Walk, AltIndex, PartialKey, IndexHash, SecondIndex;
    assert slots[..j + 1] == slots[..j] + [slots[j]];
    WalkExtend(hp, bs, start, slots[..j], slots[j]);
    assert HasKey(bs, r.bucket, r.slot, bs[r.bucket][r.slot].key);
  }

  /** Slots are decoded, records below i are complete and record i knows its bucket. */
  ghost predicate FilledTo<K, V>(h: K -> Hash, hp: nat, bs: Buckets<K, V>, start: nat, slots: seq<nat>,
      recs: seq<CuckooRecord>, i: nat) {
    && 0 < |slots| <= |recs| && i <= |slots| && recs[0].bucket == start
    && (forall j: nat :: j < |slots| ==> recs[j].slot == slots[j])
    && (forall j: nat :: j < i ==> Recorded(h, hp, bs, start, slots, recs[j], j))
    && (i < |slots| ==> recs[i].bucket == Stop(hp, bs, start, slots, i))
  }

  lemma {:induction false} FilledToStart<K, V>(h: K -> Hash, hp: nat, bs: Buckets<K, V>, start: nat,
      slots: seq<nat>, recs: seq<CuckooRecord>)
    requires 0 < |slots| <= |recs| && recs[0].bucket == start && forall j: nat :: j < |slots| ==>
      recs[j].slot == slots[j]
    ensures FilledTo(h, hp, bs, start, slots, recs, 0)
  {
    StopZero(hp, bs, start, slots);
  }

  lemma {:induction false} FilledToAt<K, V>(h: K -> Hash, hp: nat, bs: Buckets<K, V>, start: nat, slots: seq<nat>,
                                            recs: seq<CuckooRecord>, i: nat)
    requires FilledTo(h, hp, bs, start, slots, recs, i) && i < |slots|
    ensures |slots| <= |recs| && recs[i].bucket == Stop(hp, bs, start, slots, i) && recs[i].slot == slots[i]
  {
  }

  lemma {:induction false} StartInRange(i1: nat, i2: nat, p: Path, hp: nat)
    requires i1 < Pow2(hp) && i2 < Pow2(hp)
    ensures Start(i1, i2, p) < Pow2(hp)
  {
  }

  lemma {:induction false} FilledToNext<K, V>(h: K -> Hash, hp: nat, bs: Buckets<K, V>, start: nat, slots: seq<nat>,
                                              recs: seq<CuckooRecord>, recs': seq<CuckooRecord>, i: nat)
    requires FilledTo(h, hp, bs, start, slots, recs, i) && i < |slots| && |recs'| == |recs|
    requires forall j: nat :: j < |recs| ==> recs'[j].slot == recs[j].slot && (j < i ==> recs'[j] == recs[j])
    requires recs'[i].bucket == recs[i].bucket && Recorded(h, hp, bs, start, slots, recs'[i], i)
    requires i + 1 < |slots| ==> recs'[i + 1].bucket == Stop(hp, bs, start, slots, i + 1)
    ensures FilledTo(h, hp, bs, start, slots, recs', i + 1)
  {
    hide Recorded, Stop;
  }

  /** The records of a first open path, extended by the empty slot found, can all be moved. */
  lemma {:induction false} RecordedIsMovable<K, V>(h: K -> Hash, S: nat, hp: nat, bs: Buckets<K, V>, i1: nat,
      i2: nat, n: nat,
                                                   slot: nat, recs: seq<CuckooRecord>)
    requires S >= 1 && FirstOpen(S, hp, bs, i1, i2, n)
    requires var slots := Extend(PathAt(S, n), slot).slots;
      FilledTo(h, hp, bs, Start(i1, i2, PathAt(S, n)), slots, recs, |slots|)
    ensures |recs| > |PathAt(S, n).slots| && Movable(h, hp, bs, recs[..|PathAt(S, n).slots| + 1], |PathAt(S, n).slots|)
    ensures recs[0].bucket == Start(i1, i2, PathAt(S, n))
  {
    hide FirstOpen, PathAt, Walk, AltIndex, Recorded, Movable, Stop;
    RecordsMovable(h, S, hp, bs, i1, i2, n, slot, recs[..|PathAt(S, n).slots| + 1]);
  }

  lemma {:induction false} RecordsMovable<K, V>(h: K -> Hash, S: nat, hp: nat, bs: Buckets<K, V>, i1: nat, i2: nat,
      n: nat,
                                                slot: nat, recs: seq<CuckooRecord>)
    requires S >= 1 && FirstOpen(S, hp, bs, i1, i2, n) && |recs| == |PathAt(S, n).slots| + 1
    requires forall j: nat :: j < |recs| ==>
      Recorded(h, hp, bs, Start(i1, i2, PathAt(S, n)), Extend(PathAt(S, n), slot).slots, recs[j], j)
    ensures Movable(h, hp, bs, recs, |PathAt(S, n).slots|)
  {
    hide FirstOpen, PathAt, Walk, AltIndex;
    var p := PathAt(S, n);
    var b, xs, d := Start(i1, i2, p), p.slots + [slot], |p.slots|;
    forall j: nat | j < d ensures Link(h, hp, bs, recs, j) {
      assert Recorded(h, hp, bs, b, xs, recs[j], j);
      assert Recorded(h, hp, bs, b, xs, recs[j + 1], j + 1);
      assert xs[..j + 1] == xs[..j] + [xs[j]];
      WalkExtend(hp, bs, b, xs[..j], xs[j]);
    }
    forall j: nat, k: nat | j < k <= d ensures recs[j].bucket != recs[k].bucket {
      assert Recorded(h, hp, bs, b, xs, recs[j], j);
      assert Recorded(h, hp, bs, b, xs, recs[k], k);
      assert xs[..j] == p.slots[..j] && xs[..k] == p.slots[..k];
      FirstOpenDistinct(S, hp, bs, i1, i2, n, j, k);
    }
    assert Recorded(h, hp, bs, b, xs, recs[d], d);
  }

  /** Moving the entry of record d - 1 into record d leaves a movable path one shorter. */
  lemma {:induction false} MovableStep<K, V>(h: K -> Hash, hp: nat, bs: Buckets<K, V>, recs: seq<CuckooRecord>, d: nat)
    requires d > 0 && Movable(h, hp, bs, recs, d)
    ensures Link(h, hp, bs, recs, d - 1)
    ensures var from, to := recs[d - 1], recs[d];
      Movable(h, hp, Displace(bs, from.bucket, from.slot, to.bucket, to.slot), recs, d - 1)
  {
    hide AltIndex;
    assert Link(h, hp, bs, recs, d - 1);
    var r: Buckets<K, V> := Displace(bs, recs[d - 1].bucket, recs[d - 1].slot, recs[d].bucket, recs[d].slot);
    assert r[recs[d - 1].bucket][recs[d - 1].slot].Empty?;
    forall j: nat | j < d - 1 ensures Link(h, hp, r, recs, j) {
      assert Link(h, hp, bs, recs, j);
      assert r[recs[j].bucket] == bs[recs[j].bucket];
    }
  }

  lemma {:induction false} MovableAt<K, V>(h: K -> Hash, hp: nat, bs: Buckets<K, V>, recs: seq<CuckooRecord>, d: nat)
    requires d > 0 && Movable(h, hp, bs, recs, d)
    ensures HasAt(bs, recs[d].bucket, recs[d].slot) && bs[recs[d].bucket][recs[d].slot].Empty?
    ensures HasAt(bs, recs[d - 1].bucket, recs[d - 1].slot)
    ensures var x := bs[recs[d - 1].bucket][recs[d - 1].slot];
      x.Full? && h(x.key) == recs[d - 1].hash && recs[d].bucket == AltIndex(hp, x.partial, recs[d - 1].bucket)
  {
    assert Link(h, hp, bs, recs, d - 1);
  }

  lemma {:induction false} MovableEnd<K, V>(h: K -> Hash, hp: nat, bs: Buckets<K, V>, recs: seq<CuckooRecord>)
    requires Movable(h, hp, bs, recs, 0)
    ensures HasAt(bs, recs[0].bucket, recs[0].slot) && bs[recs[0].bucket][recs[0].slot].Empty?
  {
  }

  lemma {:induction false} ShapeAt<K, V>(bs: Buckets<K, V>, slots: nat, hp: nat, b: nat)
    requires Shape(bs, slots, hp) && b < |bs|
    ensures b < Pow2(hp) && |bs[b]| == slots
  {
  }
}
