/** The sequential engine of the cuckoo hash map: one thread, every lock call reduced to its migration work. */
module CuckooMap {
  import opened Bits
  import opened Hashing
  import opened Table
  import opened Doubling
  import opened Container
  import opened Stripes
  import opened Sizing
  import opened Common
  import opened Paths
  import opened Queue
  import opened Search
  import opened Displacement
  import opened Collision

  datatype InsertStatus = Ok | KeyDuplicated | TableFull

  datatype ResizeStatus = Resized | UnderExpansion | LoadFactorTooLow | MaximumHashpowerExceeded

  datatype Result<T> = Success(value: T) | Thrown(error: ResizeStatus)

  class CuckooMap<K(==, !new), V> {
    const S: nat                // slot_per_bucket
    const lockBits: nat         // kMaxNumLocks == 2^lockBits
    const hash: K -> Hash
    const buckets: BucketContainer<K, V>
    const oldBuckets: BucketContainer<K, V>
    var locks: seq<Lock>
    var remaining: nat          // num_remaining_lazy_rehash_locks
    const minimumLoad: real     // minimum_load_factor
    const maximumHashpower: Option<nat> // None is LIBCUCKOO_NO_MAXIMUM_HASHPOWER

    ghost predicate Migrated(b: nat)
      reads this`locks
    {
      LockInd(lockBits, b) < |locks| ==> locks[LockInd(lockBits, b)].isMigrated
    }

    /** The old buckets whose stripe has not been migrated. */
    ghost function Pending(): set<nat>
      reads this`locks, oldBuckets
    {
      set ob: nat | ob < |oldBuckets.cells| && !Migrated(ob)
    }

    ghost predicate Sized()
      reads buckets, oldBuckets
    {
      && 1 <= S <= 8 && buckets != oldBuckets && buckets.slots == S && oldBuckets.slots == S
      && Shape(buckets.cells, S, buckets.hashpower) && oldBuckets.Valid()
    }

    /** The old buckets hold the table as it was before the last doubling. */
    ghost predicate HalfDone()
      reads buckets, oldBuckets
    {
      && buckets.hashpower == oldBuckets.hashpower + 1 && oldBuckets.hashpower >= lockBits
      && Shape(oldBuckets.cells, S, oldBuckets.hashpower)
    }

    /** An un-migrated stripe means that a lazy doubling of at least kMaxNumLocks buckets is half done. */
    ghost predicate Layout()
      reads this`locks, buckets, oldBuckets
    {
      && Sized()
      && |locks| == LockCount(lockBits, buckets.hashpower)
      && ((forall l :: 0 <= l < |locks| ==> locks[l].isMigrated) || HalfDone())
      && Untouched(S, buckets.hashpower, buckets.cells, Pending())
    }

    /** The table as it will look once every stripe is migrated. */
    ghost function Snapshot(): (r: Buckets<K, V>)
      requires Layout()
      reads this`locks, buckets, oldBuckets
    {
      View(hash, buckets.hashpower, buckets.cells, oldBuckets.cells, Pending())
    }

    ghost predicate Valid()
      reads this, buckets, oldBuckets
    {
      && Layout()
      && Good(hash, S, buckets.hashpower, Snapshot())
      && remaining == Unmigrated(locks)
      && Sum(locks) == |Table.Contents(Snapshot())|
      && minimumLoad >= 0.0
    }

    /** The abstract map. */
    ghost function Contents(): map<K, V>
      requires Layout()
      reads this`locks, buckets, oldBuckets
    {
      Table.Contents(Snapshot())
    }

    /** The abstract map is what the current buckets and the un-migrated old buckets hold. */
    lemma ContentsAreLive(k: K, v: V)
      requires Valid()
      ensures k in Contents() && Contents()[k] == v <==> Live(buckets.cells, oldBuckets.cells, Pending(), k, v)
    {
      hide Live, View, Placed, Table.Contents, Sum, Unmigrated, Untouched;
      ViewIsLive(hash, S, buckets.hashpower, buckets.cells, oldBuckets.cells, Pending(), k, v);
      ContentsRepresents(Snapshot());
      RepresentsPair(Snapshot(), Contents(), k, v);
    }

    constructor (n: nat, hash: K -> Hash, S: nat, lockBits: nat, minimumLoad: real, maximumHashpower: Option<nat>)
      requires 1 <= S <= 8 && minimumLoad >= 0.0
      ensures Valid() && Contents() == map[]
      ensures this.S == S && this.hash == hash && this.lockBits == lockBits
      ensures this.minimumLoad == minimumLoad && this.maximumHashpower == maximumHashpower
      ensures fresh(buckets) && fresh(oldBuckets)
      ensures n <= Pow2(buckets.hashpower) * S && forall p: nat :: p < buckets.hashpower ==> Pow2(p) * S < n
    {
      var hp := ReserveCalc(n, S);
      this.S, this.hash, this.lockBits := S, hash, lockBits;
      this.minimumLoad, this.maximumHashpower := minimumLoad, maximumHashpower;
      var bs := new BucketContainer<K, V>(hp, S);
      var obs := new BucketContainer<K, V>(0, S);
      buckets, oldBuckets := bs, obs;
      locks := seq(LockCount(lockBits, hp), _ => Lock(0, true));
      remaining := 0;
      new;
      UnmigratedZero(locks);
      SumZero(locks);
      BlankIsGood<K, V>(hash, S, hp);
      NonePending();
    }

    lemma NonePending()
      requires Sized() && |locks| == LockCount(lockBits, buckets.hashpower)
      requires forall l :: 0 <= l < |locks| ==> locks[l].isMigrated
      ensures Pending() == {} && Layout() && Snapshot() == buckets.cells
    {
      ViewNonePending(hash, buckets.hashpower, buckets.cells, oldBuckets.cells);
    }

    // ---- migration ----

    /** The body of move_bucket's loop: slot s goes to the same slot of bucket ob or to the next slot above. */
    method MoveSlot(ob: nat, s: nat, newSlot: nat, ghost before: Buckets<K, V>,
        ghost bucket: Bucket<K, V>) returns (next: nat)
      requires buckets != oldBuckets && ob < |oldBuckets.cells| && bucket == oldBuckets.cells[ob] && s < |bucket|
      requires ob + Pow2(oldBuckets.hashpower) < |before|
      requires newSlot == |Packed(hash, oldBuckets.hashpower, ob, bucket, s)|
      requires buckets.cells == MigratedTo(hash, oldBuckets.hashpower, before, ob, bucket, s)
      modifies buckets`cells
      ensures next == |Packed(hash, oldBuckets.hashpower, ob, bucket, s + 1)|
      ensures buckets.cells == MigratedTo(hash, oldBuckets.hashpower, before, ob, bucket, s + 1)
    {
      next := newSlot;
      var oldHp := oldBuckets.hashpower;
      MigrateStep(hash, oldHp, before, ob, bucket, s);
      var x := oldBuckets.cells[ob][s];
      if x.Full? {
        if Mover(hash, oldHp, ob, x) {
          buckets.SetKV(ob + Pow2(oldHp), newSlot, x.partial, x.key, x.value);
          next := newSlot + 1;
        } else {
          buckets.SetKV(ob, s, x.partial, x.key, x.value);
        }
      }
    }

    /** Redistributes one old bucket; both destinations are empty, so setKV never meets a live slot. */
    method MoveBucket(ob: nat)
      requires Sized() && buckets.hashpower == oldBuckets.hashpower + 1
      requires Shape(oldBuckets.cells, S, oldBuckets.hashpower)
      requires ob < |oldBuckets.cells| && Vacant(S, buckets.hashpower, buckets.cells, ob)
      modifies buckets`cells
      ensures Sized()
      ensures buckets.cells == Migrate(hash, oldBuckets.hashpower, old(buckets.cells), oldBuckets.cells, ob)
    {
      hide Stayed, Pushed, Packed, Empties, Vacant;
      ghost var o, before, bucket := oldBuckets.hashpower, buckets.cells, oldBuckets.cells[ob];
      VacantRange(S, o + 1, before, ob);
      var newSlot, s: nat := 0, 0;
      MigrateStart(hash, S, o + 1, before, ob, bucket);
      while s < S
        invariant 0 <= s <= S && newSlot == |Packed(hash, o, ob, bucket, s)|
        invariant buckets.cells == MigratedTo(hash, o, before, ob, bucket, s)
      {
        newSlot := MoveSlot(ob, s, newSlot, before, bucket);
        s := s + 1;
      }
      PairShape(before, ob, ob + Pow2(o), Stayed(hash, o, ob, bucket, S), Pushed(hash, o, ob, bucket, S), S, o + 1);
    }

    /** The buckets of `waiting` that stripe l still has to move once the ones below `from` are done. */
    ghost function Left(waiting: set<nat>, l: nat, from: nat): set<nat> {
      set b: nat | b in waiting && (LockInd(lockBits, b) == l ==> from <= b)
    }

    lemma LeftSteps(waiting: set<nat>, ob: nat)
      ensures LockInd(lockBits, ob + Pow2(lockBits)) == LockInd(lockBits, ob)
      ensures var l := LockInd(lockBits, ob);
        Left(waiting, l, ob + Pow2(lockBits)) == Left(waiting, l, ob) - {ob}
    {
      NextOfStripe(lockBits, ob);
    }

    lemma LeftEnds(waiting: set<nat>, l: nat, n: nat)
      requires l < Pow2(lockBits)
      ensures LockInd(lockBits, l) == l && Left(waiting, l, l) == waiting
      ensures (forall b :: b in waiting ==> b < n) ==>
        Left(waiting, l, n) == set b: nat | b in waiting && LockInd(lockBits, b) != l
    {
      FirstOfStripe(lockBits, l);
    }

    /** The loop of rehash_lock over the old buckets of stripe l. */
    method MoveStripe(l: nat, ghost waiting: set<nat>) returns (ghost rest: set<nat>)
      requires Sized() && HalfDone() && l < Pow2(lockBits)
      requires forall b :: b in waiting ==> b < |oldBuckets.cells|
      requires forall b: nat :: b < |oldBuckets.cells| && LockInd(lockBits, b) == l ==> b in waiting
      requires Untouched(S, buckets.hashpower, buckets.cells, waiting)
      modifies buckets
      ensures Sized() && buckets.hashpower == old(buckets.hashpower)
      ensures rest == set b: nat | b in waiting && LockInd(lockBits, b) != l
      ensures Untouched(S, buckets.hashpower, buckets.cells, rest)
      ensures View(hash, buckets.hashpower, buckets.cells, oldBuckets.cells, rest) ==
        old(View(hash, buckets.hashpower, buckets.cells, oldBuckets.cells, waiting))
    {
      hide View, Untouched, LockInd;
      ghost var hp, prior := buckets.hashpower, oldBuckets.cells;
      ghost var view := View(hash, hp, buckets.cells, prior, waiting);
      var ob: nat := l;
      rest := waiting;
      LeftEnds(waiting, l, 0);
      while ob < |oldBuckets.cells|
        invariant LockInd(lockBits, ob) == l && rest == Left(waiting, l, ob) && rest <= waiting
        invariant Sized() && buckets.hashpower == hp
        invariant Untouched(S, hp, buckets.cells, rest)
        invariant View(hash, hp, buckets.cells, prior, rest) == view
        decreases |oldBuckets.cells| - ob
      {
        MigrateNext(hp, prior, rest, ob);
        LeftSteps(waiting, ob);
        rest := rest - {ob};
        ob := ob + Pow2(lockBits);
      }
      LeftEnds(waiting, l, ob);
    }

    method MigrateNext(ghost hp: nat, ghost prior: Buckets<K, V>, ghost waiting: set<nat>, ob: nat)
      requires Sized() && hp == buckets.hashpower == oldBuckets.hashpower + 1
      requires prior == oldBuckets.cells && Shape(prior, S, hp - 1)
      requires ob in waiting && forall b :: b in waiting ==> b < |prior|
      requires Untouched(S, hp, buckets.cells, waiting)
      modifies buckets
      ensures Sized() && buckets.hashpower == hp && Untouched(S, hp, buckets.cells, waiting - {ob})
      ensures View(hash, hp, buckets.cells, prior, waiting - {ob}) == old(View(hash, hp, buckets.cells, prior, waiting))
    {
      ViewMigrate(hash, S, hp, buckets.cells, prior, waiting, ob);
      assert Vacant(S, hp, buckets.cells, ob);
      MoveBucket(ob);
    }

    method MigrateStripe(l: nat)
      requires Layout() && l < |locks| && !locks[l].isMigrated
      modifies this`locks, buckets
      ensures Layout() && buckets.hashpower == old(buckets.hashpower) && Snapshot() == old(Snapshot())
      ensures locks == old(locks)[l := old(locks[l]).(isMigrated := true)]
      ensures oldBuckets.cells == old(oldBuckets.cells) && oldBuckets.hashpower == old(oldBuckets.hashpower)
    {
      ghost var waiting := Pending();
      ghost var rest := MoveStripe(l, waiting);
      locks := locks[l := locks[l].(isMigrated := true)];
      assert Pending() == rest;
    }

    /** rehash_lock: migrates the old buckets of stripe l; lazily, the last stripe frees the old buckets. */
    method RehashLock(l: nat, lazy: bool)
      requires Layout() && l < |locks| && (lazy ==> remaining == Unmigrated(locks))
      modifies this, buckets, oldBuckets
      ensures Layout() && buckets.hashpower == old(buckets.hashpower) && Snapshot() == old(Snapshot())
      ensures locks == old(locks)[l := old(locks[l]).(isMigrated := true)]
      ensures if lazy then remaining == Unmigrated(locks) else remaining == old(remaining)
      ensures !lazy ==> oldBuckets.cells == old(oldBuckets.cells) && oldBuckets.hashpower == old(oldBuckets.hashpower)
    {
      hide Layout, Snapshot, Sum;
      if locks[l].isMigrated {
        return;
      }
      MigrateStripe(l);
      UnmigratedUpdate(old(locks), l, locks[l]);
      if lazy {
        remaining := remaining - 1;
        if remaining == 0 {
          FreeOldBuckets();
        }
      }
    }

    /** The deallocation at the end of decrement_num_remaining_lazy_rehash_locks: nothing live is lost. */
    method FreeOldBuckets()
      requires Layout() && Unmigrated(locks) == 0
      modifies oldBuckets`cells
      ensures Layout() && Snapshot() == old(Snapshot()) && buckets.hashpower == old(buckets.hashpower)
    {
      UnmigratedZero(locks);
      NonePending();
      oldBuckets.ClearAndDeallocate();
      NonePending();
    }

    /** Once its stripe is migrated, a bucket can be read and written in place. */
    lemma Visible(b: nat)
      requires Layout() && b < Pow2(buckets.hashpower) && Migrated(b)
      ensures b < |buckets.cells| == |Snapshot()| && |buckets.cells[b]| == S && Snapshot()[b] == buckets.cells[b]
      ensures buckets.hashpower > 0 ==> OldOf(buckets.hashpower - 1, b) !in Pending()
    {
      hide Untouched, SplitAt, ViewUpTo, View, Pending, Migrated, LockCount, LockInd;
      NotPending(b);
    }

    /** A bucket of a migrated stripe is not fed by an old bucket that waits. */
    lemma NotPending(b: nat)
      requires Layout() && b < Pow2(buckets.hashpower) && Migrated(b)
      ensures buckets.hashpower > 0 ==> OldOf(buckets.hashpower - 1, b) !in Pending()
    {
      hide Untouched, LockInd, LockCount;
      var hp := buckets.hashpower;
      if hp > 0 && OldOf(hp - 1, b) in Pending() {
        StripeOfUpperHalf(lockBits, hp - 1, OldOf(hp - 1, b));
      }
    }

    // ---- locks, reduced to the migration they trigger ----

    /** One stripe of a lock call. */
    method LockStripe(l: nat)
      requires Valid() && l < LockCount(lockBits, buckets.hashpower)
      modifies this, buckets, oldBuckets
      ensures Valid() && buckets.hashpower == old(buckets.hashpower)
      ensures Snapshot() == old(Snapshot()) && Contents() == old(Contents())
      ensures forall b :: old(Migrated(b)) || LockInd(lockBits, b) == l ==> Migrated(b)
    {
      RehashLock(l, true);
      SumUpdate(old(locks), l, locks[l]);
    }

    method LockOne(i: nat)
      requires Valid() && i < Pow2(buckets.hashpower)
      modifies this, buckets, oldBuckets
      ensures Valid() && buckets.hashpower == old(buckets.hashpower)
      ensures Snapshot() == old(Snapshot()) && Contents() == old(Contents())
      ensures Migrated(i) && forall b :: old(Migrated(b)) ==> Migrated(b)
    {
      hide Layout, Good, Snapshot, Contents, Sum, Unmigrated;
      StripeInRange(lockBits, buckets.hashpower, i);
      LockStripe(LockInd(lockBits, i));
    }

    /** lock_two: lower stripe first. */
    method LockTwo(i1: nat, i2: nat)
      requires Valid() && i1 < Pow2(buckets.hashpower) && i2 < Pow2(buckets.hashpower)
      modifies this, buckets, oldBuckets
      ensures Valid() && buckets.hashpower == old(buckets.hashpower)
      ensures Snapshot() == old(Snapshot()) && Contents() == old(Contents())
      ensures Migrated(i1) && Migrated(i2) && forall b :: old(Migrated(b)) ==> Migrated(b)
    {
      hide Layout, Good, Snapshot, Contents, Sum, Unmigrated;
      if LockInd(lockBits, i2) < LockInd(lockBits, i1) {
        LockOne(i2);
        LockOne(i1);
      } else {
        LockOne(i1);
        LockOne(i2);
      }
    }

    // ---- writing through the view ----

    /** A write to a migrated bucket is the same write to the view. */
    lemma ViewWrite(before: Buckets<K, V>, b: nat, s: nat, x: Slot<K, V>)
      requires Sized() && |locks| == LockCount(lockBits, buckets.hashpower)
      requires (forall l :: 0 <= l < |locks| ==> locks[l].isMigrated) || HalfDone()
      requires Shape(before, S, buckets.hashpower) && Untouched(S, buckets.hashpower, before, Pending())
      requires b < |before| && s < S && buckets.cells == Put(before, b, s, x)
      requires buckets.hashpower > 0 ==> OldOf(buckets.hashpower - 1, b) !in Pending()
      ensures Layout() && Snapshot() == Put(View(hash, buckets.hashpower, before, oldBuckets.cells, Pending()), b, s, x)
    {
      UntouchedPut(S, buckets.hashpower, before, Pending(), b, s, x);
      ViewPut(hash, buckets.hashpower, before, oldBuckets.cells, Pending(), b, s, x);
    }

    method WriteKV(b: nat, s: nat, p: nat, k: K, v: V)
      requires Layout() && b < Pow2(buckets.hashpower) && Migrated(b) && s < S && buckets.cells[b][s].Empty?
      modifies buckets`cells
      ensures Layout() && Snapshot() == Put(old(Snapshot()), b, s, Full(p, k, v))
    {
      hide View, Untouched;
      Visible(b);
      ghost var before := buckets.cells;
      buckets.SetKV(b, s, p, k, v);
      ViewWrite(before, b, s, Full(p, k, v));
    }

    method WriteEmpty(b: nat, s: nat)
      requires Layout() && b < Pow2(buckets.hashpower) && Migrated(b) && s < S && buckets.cells[b][s].Full?
      modifies buckets`cells
      ensures Layout() && Snapshot() == Put(old(Snapshot()), b, s, Empty)
    {
      hide View, Untouched;
      Visible(b);
      ghost var before := buckets.cells;
      buckets.EraseKV(b, s);
      ViewWrite(before, b, s, Empty);
    }

    method WriteMapped(b: nat, s: nat, v: V)
      requires Layout() && b < Pow2(buckets.hashpower) && Migrated(b) && s < S && buckets.cells[b][s].Full?
      modifies buckets`cells
      ensures Layout() && Snapshot() == Put(old(Snapshot()), b, s, old(buckets.cells[b][s]).(value := v))
    {
      hide View, Untouched;
      Visible(b);
      ghost var before, x := buckets.cells, buckets.cells[b][s].(value := v);
      buckets.SetMapped(b, s, v);
      ViewWrite(before, b, s, x);
    }

    /** Adjusts the element counter of b's stripe. */
    method Count(b: nat, delta: int)
      requires Layout() && b < Pow2(buckets.hashpower)
      modifies this`locks
      ensures Layout() && Snapshot() == old(Snapshot())
      ensures Sum(locks) == old(Sum(locks)) + delta && Unmigrated(locks) == old(Unmigrated(locks))
    {
      StripeInRange(lockBits, buckets.hashpower, b);
      var l := LockInd(lockBits, b);
      var x := locks[l].(elemCounter := locks[l].elemCounter + delta);
      SumUpdate(locks, l, x);
      UnmigratedUpdate(locks, l, x);
      locks := locks[l := x];
      assert Pending() == old(Pending());
    }

    /** add_to_bucket. */
    method AddToBucket(b: nat, s: nat, k: K, v: V)
      requires Valid() && b < Pow2(buckets.hashpower) && Migrated(b) && s < S && buckets.cells[b][s].Empty?
      requires Candidate(buckets.hashpower, hash(k), b) && k !in Contents()
      modifies this`locks, buckets`cells
      ensures Valid() && Contents() == old(Contents())[k := v]
    {
      hide Layout, Good, Snapshot, Table.Contents, Sum, Unmigrated, Put, PartialKey, IndexHash, SecondIndex;
      Visible(b);
      AddEntry(hash, S, buckets.hashpower, Snapshot(), b, s, k, v);
      WriteKV(b, s, PartialKey(hash(k)), k, v);
      Count(b, 1);
    }

    /** del_from_bucket. */
    method DelFromBucket(b: nat, s: nat, ghost k: K)
      requires Valid() && b < Pow2(buckets.hashpower) && s < S && HasKey(buckets.cells, b, s, k) && Migrated(b)
      modifies this`locks, buckets`cells
      ensures Valid() && k in old(Contents()) && Contents() == old(Contents()) - {k}
    {
      hide Layout, Good, Snapshot, Table.Contents, Sum, Unmigrated, Put, PartialKey, IndexHash, SecondIndex;
      Visible(b);
      EraseEntry(hash, S, buckets.hashpower, Snapshot(), b, s, k);
      WriteEmpty(b, s);
      Count(b, -1);
    }

    /** Assigning through the mapped reference of a live slot. */
    method AssignMapped(b: nat, s: nat, v: V, ghost k: K)
      requires Valid() && b < Pow2(buckets.hashpower) && s < S && HasKey(buckets.cells, b, s, k) && Migrated(b)
      modifies buckets`cells
      ensures Valid() && k in old(Contents()) && Contents() == old(Contents())[k := v]
      ensures HasKey(buckets.cells, b, s, k)
    {
      hide Layout, Good, Snapshot, Table.Contents, Sum, Unmigrated, PartialKey, IndexHash, SecondIndex;
      Visible(b);
      UpdateEntry(hash, S, buckets.hashpower, Snapshot(), b, s, k, v);
      WriteMapped(b, s, v);
      Visible(b);
    }

    // ---- searching ----

    /** try_read_from_bucket: the first live slot with this partial and key, or -1. */
    method TryReadFromBucket(b: nat, partial: nat, key: K) returns (slot: int)
      requires Valid() && b < Pow2(buckets.hashpower)
      ensures -1 <= slot < S
      ensures slot >= 0 ==> HasKey(buckets.cells, b, slot, key)
      ensures slot == -1 ==> forall s: nat :: HasKey(buckets.cells, b, s, key) ==>
        buckets.cells[b][s].partial != partial
      ensures slot == -1 && partial == PartialKey(hash(key)) && Migrated(b) ==>
        forall s: nat :: !HasKey(buckets.cells, b, s, key)
    {
      hide Good, Snapshot, Table.Contents, Sum, Unmigrated;
      if Migrated(b) { PartialsMatch(b, key); }
      var i := 0;
      while i < S
        invariant 0 <= i <= S
        invariant forall s: nat :: s < i && HasKey(buckets.cells, b, s, key) ==> buckets.cells[b][s].partial != partial
      {
        var x := buckets.cells[b][i];
        if x.Full? && x.partial == partial && x.key == key {
          return i;
        }
        i := i + 1;
      }
      return -1;
    }

    /** In a migrated bucket a key carries the partial of its own hash. */
    lemma PartialsMatch(b: nat, key: K)
      requires Valid() && b < Pow2(buckets.hashpower) && Migrated(b)
      ensures forall s: nat :: HasKey(buckets.cells, b, s, key) ==> buckets.cells[b][s].partial == PartialKey(hash(key))
    {
      hide Layout, Snapshot, Table.Contents, Sum, Unmigrated, PartialKey, Candidate;
      Visible(b);
      forall s: nat | HasKey(buckets.cells, b, s, key)
        ensures buckets.cells[b][s].partial == PartialKey(hash(key))
      {
        assert HasKey(Snapshot(), b, s, key);
      }
    }

    /** A key is absent when neither of its two migrated candidate buckets shows it. */
    lemma AbsentIf(key: K, i1: nat, i2: nat)
      requires Valid() && i1 == IndexHash(buckets.hashpower, hash(key))
      requires i2 == SecondIndex(buckets.hashpower, hash(key))
      requires Migrated(i1) && Migrated(i2)
      requires forall s: nat :: HasKey(buckets.cells, i1, s, key) ==>
        buckets.cells[i1][s].partial != PartialKey(hash(key))
      requires forall s: nat :: HasKey(buckets.cells, i2, s, key) ==>
        buckets.cells[i2][s].partial != PartialKey(hash(key))
      ensures key !in Contents()
    {
      ContentsRepresents(Snapshot());
      Visible(i1);
      Visible(i2);
      if key in Contents() {
        var b: nat, s: nat :| HasKey(Snapshot(), b, s, key);
        assert HasKey(buckets.cells, b, s, key);
      }
    }

    lemma PresentAt(key: K, b: nat, s: nat)
      requires Valid() && b < Pow2(buckets.hashpower) && s < S && HasKey(buckets.cells, b, s, key) && Migrated(b)
      ensures key in Contents() && Contents()[key] == buckets.cells[b][s].value
    {
      ContentsRepresents(Snapshot());
      Visible(b);
      assert HasKey(Snapshot(), b, s, key);
    }

    /** cuckoo_find: a position of the key, or none exactly when the abstract map lacks it. */
    method CuckooFind(key: K, i1: nat, i2: nat) returns (found: bool, b: nat, s: nat)
      requires Valid() && i1 == IndexHash(buckets.hashpower, hash(key))
      requires i2 == SecondIndex(buckets.hashpower, hash(key))
      requires Migrated(i1) && Migrated(i2)
      ensures found <==> key in Contents()
      ensures found ==> HasKey(buckets.cells, b, s, key) && s < S && (b == i1 || b == i2)
      ensures found ==> Contents()[key] == buckets.cells[b][s].value
    {
      hide *;
      var partial := PartialKey(hash(key));
      var slot := TryReadFromBucket(i1, partial, key);
      if slot != -1 {
        PresentAt(key, i1, slot);
        return true, i1, slot;
      }
      slot := TryReadFromBucket(i2, partial, key);
      if slot != -1 {
        PresentAt(key, i2, slot);
        return true, i2, slot;
      }
      AbsentIf(key, i1, i2);
      return false, 0, 0;
    }

    /** snapshot_and_lock_two: the candidate buckets of a key, both migrated. */
    method SnapshotAndLockTwo(key: K) returns (i1: nat, i2: nat)
      requires Valid()
      modifies this, buckets, oldBuckets
      ensures Valid() && buckets.hashpower == old(buckets.hashpower)
      ensures Snapshot() == old(Snapshot()) && Contents() == old(Contents())
      ensures i1 == IndexHash(buckets.hashpower, hash(key)) && i2 == SecondIndex(buckets.hashpower, hash(key))
      ensures Migrated(i1) && Migrated(i2)
    {
      hide Layout, Good, Snapshot, Contents, Sum, Unmigrated;
      i1 := IndexHash(buckets.hashpower, hash(key));
      i2 := AltIndex(buckets.hashpower, PartialKey(hash(key)), i1);
      LockTwo(i1, i2);
    }

    method Find(key: K) returns (r: Option<V>)
      requires Valid()
      modifies this, buckets, oldBuckets
      ensures Valid() && Contents() == old(Contents())
      ensures r == if key in old(Contents()) then Some(old(Contents())[key]) else None
    {
      hide Layout, Good, Snapshot, Contents, Sum, Unmigrated;
      var i1, i2 := SnapshotAndLockTwo(key);
      var found, b, s := CuckooFind(key, i1, i2);
      r := if found then Some(buckets.cells[b][s].value) else None;
    }

    method UpdateFn(key: K, fn: V -> V) returns (found: bool)
      requires Valid()
      modifies this, buckets, oldBuckets
      ensures Valid() && found == (key in old(Contents()))
      ensures Contents() == if found then old(Contents())[key := fn(old(Contents())[key])] else old(Contents())
    {
      hide Layout, Good, Snapshot, Contents, Sum, Unmigrated;
      var i1, i2 := SnapshotAndLockTwo(key);
      var b, s;
      found, b, s := CuckooFind(key, i1, i2);
      if found {
        AssignMapped(b, s, fn(buckets.cells[b][s].value), key);
      }
    }

    /** erase_fn: fn may change the value and says whether to erase. */
    method EraseFn(key: K, fn: V -> (V, bool)) returns (found: bool)
      requires Valid()
      modifies this, buckets, oldBuckets
      ensures Valid() && found == (key in old(Contents()))
      ensures Contents() ==
        if !found then old(Contents())
        else if fn(old(Contents())[key]).1 then old(Contents()) - {key}
        else old(Contents())[key := fn(old(Contents())[key]).0]
    {
      hide *;
      var i1, i2 := SnapshotAndLockTwo(key);
      var b, s;
      found, b, s := CuckooFind(key, i1, i2);
      if found {
        ApplyErase(b, s, key, fn);
      }
    }

    method ApplyErase(b: nat, s: nat, ghost key: K, fn: V -> (V, bool))
      requires Valid() && b < Pow2(buckets.hashpower) && s < S && HasKey(buckets.cells, b, s, key) && Migrated(b)
      modifies this`locks, buckets`cells
      ensures Valid() && key in old(Contents())
      ensures Contents() ==
        if fn(old(Contents())[key]).1 then old(Contents()) - {key}
        else old(Contents())[key := fn(old(Contents())[key]).0]
    {
      hide Layout, Good, Snapshot, Contents, Sum, Unmigrated;
      PresentAt(key, b, s);
      var (v, erase) := fn(buckets.cells[b][s].value);
      AssignMapped(b, s, v, key);
      if erase {
        DelFromBucket(b, s, key);
      }
    }

    method Erase(key: K) returns (found: bool)
      requires Valid()
      modifies this, buckets, oldBuckets
      ensures Valid() && found == (key in old(Contents())) && Contents() == old(Contents()) - {key}
    {
      hide *;
      found := EraseFn(key, v => (v, true));
    }

    // ---- cuckoo displacement ----

    lemma Basics()
      requires Valid()
      ensures 1 <= S <= 8 && Good(hash, S, buckets.hashpower, Snapshot()) && Shape(Snapshot(), S, buckets.hashpower)
    {
    }

    /** No displacement path of fewer than MAX_PATH moves reaches an empty slot. */
    ghost predicate Stuck(i1: nat, i2: nat)
      requires Layout()
      reads this`locks, buckets, oldBuckets
    {
      NoneOpen(S, buckets.hashpower, Snapshot(), i1, i2, Offset(S, MAX_PATH))
    }

    /** Locks, and so migrates, the bucket of a queue entry before reading it. */
    method ReadBucket(b: nat) returns (bucket: Bucket<K, V>)
      requires Valid() && b < Pow2(buckets.hashpower)
      modifies this, buckets, oldBuckets
      ensures Valid() && buckets.hashpower == old(buckets.hashpower)
      ensures Snapshot() == old(Snapshot()) && Contents() == old(Contents())
      ensures b < |Snapshot()| && bucket == Snapshot()[b] && |bucket| == S
    {
      hide Layout, Good, Snapshot, Contents, Sum, Unmigrated;
      LockOne(b);
      Visible(b);
      bucket := buckets.cells[b];
    }

    /** slot_search: the first open path in breadth-first order, or failure if there is none. */
    method SlotSearch(i1: nat, i2: nat) returns (x: BSlot, ghost n: nat, ghost slot: nat)
      requires Valid() && i1 < Pow2(buckets.hashpower) && i2 < Pow2(buckets.hashpower)
      modifies this, buckets, oldBuckets
      ensures Valid() && buckets.hashpower == old(buckets.hashpower)
      ensures Snapshot() == old(Snapshot()) && Contents() == old(Contents())
      ensures x.depth == -1 ==> Stuck(i1, i2)
      ensures S >= 1 && (x.depth != -1 ==> FoundAt(buckets.hashpower, Snapshot(), i1, i2, x, n, slot))
    {
      hide Layout, Good, Snapshot, Contents, Sum, Unmigrated, Offset, Encode, Walk, AltIndex, Pow2, HasOpen;
      hide NoneOpen, FirstOpen, Filled, Enqueued, PathAt, OpenSlot, Start, Stuck, FoundAt;
      var hp := buckets.hashpower;
      ghost var bs := Snapshot();
      assert 1 <= S <= 8 by { Basics(); }
      var q := StartQueue(i1, i2, bs);
      n, slot := 0, 0;
      while q.first < q.last
        invariant Valid() && buckets.hashpower == hp && Snapshot() == bs && Contents() == old(Contents())
        invariant q.Valid() && fresh(q) && fresh(q.slots) && q.slots.Length == Offset(S, MAX_PATH)
        invariant Filled(q.Items(), S, hp, bs, i1, i2) && q.last == Enqueued(S, q.first)
        invariant NoneOpen(S, hp, bs, i1, i2, q.first)
        decreases Offset(S, MAX_PATH) - q.first
      {
        var found;
        found, x, n, slot := SearchStep(q, i1, i2, bs);
        if found {
          return;
        }
      }
      QueueExhausted(S, q.first, q.last);
      x := BSlot(0, 0, -1);
      NoneOpenIsStuck(i1, i2);
    }

    /** The search has come to the first open path n, whose bucket has the empty slot `slot`; x carries its code. */
    ghost predicate FoundAt(hp: nat, bs: Buckets<K, V>, i1: nat, i2: nat, x: BSlot, n: nat, slot: nat)
      requires S >= 1
    {
      && x.depth == |PathAt(S, n).slots| < MAX_PATH && FirstOpen(S, hp, bs, i1, i2, n)
      && OpenSlot(bs, BucketAt(S, hp, bs, i1, i2, n), slot) && slot < S
      && x.pathcode == Encode(S, Extend(PathAt(S, n), slot))
    }

    /** One round of slot_search: dequeue an entry, lock and scan its bucket, enqueue its children. */
    method SearchStep(q: BQueue, i1: nat, i2: nat, ghost bs: Buckets<K, V>)
      returns (found: bool, x: BSlot, ghost n: nat, ghost slot: nat)
      requires Valid() && i1 < Pow2(buckets.hashpower) && i2 < Pow2(buckets.hashpower) && bs == Snapshot()
      requires q.Valid() && q.first < q.last && q.slots.Length == Offset(S, MAX_PATH)
      requires Filled(q.Items(), S, buckets.hashpower, bs, i1, i2) && q.last == Enqueued(S, q.first)
      requires NoneOpen(S, buckets.hashpower, bs, i1, i2, q.first)
      modifies this, buckets, oldBuckets, q, q.slots
      ensures Valid() && buckets.hashpower == old(buckets.hashpower)
      ensures Snapshot() == bs && Contents() == old(Contents())
      ensures S >= 1 && (found ==> x.depth >= 0 && FoundAt(buckets.hashpower, bs, i1, i2, x, n, slot))
      ensures !found ==>
        && q.Valid() && q.first == old(q.first) + 1 && q.last == Enqueued(S, q.first)
        && Filled(q.Items(), S, buckets.hashpower, bs, i1, i2) && NoneOpen(S, buckets.hashpower, bs, i1, i2, q.first)
    {
      hide Layout, Good, Snapshot, Contents, Sum, Unmigrated, Offset, Encode, Walk, AltIndex, Pow2, HasOpen;
      hide NoneOpen, FirstOpen, Filled, Enqueued, PathAt, Start, FoundAt, BucketAt;
      n, slot := q.first, 0;
      var bucket;
      x, bucket := FetchEntry(q, i1, i2, bs);
      var s;
      found, s := Expand(S, buckets.hashpower, bucket, x, q, bs, i1, i2, n);
      NoneOpenNext(S, buckets.hashpower, bs, i1, i2, n);
      if found {
        FoundHere(buckets.hashpower, bs, i1, i2, n, s);
        slot := s;
        x := BSlot(x.bucket, (x.pathcode * S + s) % 0x1_0000, x.depth);
      }
    }

    /** Dequeues an entry, locks its bucket and reads it. */
    method FetchEntry(q: BQueue, i1: nat, i2: nat, ghost bs: Buckets<K, V>) returns (x: BSlot, bucket: Bucket<K, V>)
      requires Valid() && i1 < Pow2(buckets.hashpower) && i2 < Pow2(buckets.hashpower) && bs == Snapshot()
      requires q.Valid() && q.first < q.last && q.slots.Length == Offset(S, MAX_PATH)
      requires Filled(q.Items(), S, buckets.hashpower, bs, i1, i2)
      modifies this, buckets, oldBuckets, q`first
      ensures Valid() && buckets.hashpower == old(buckets.hashpower)
      ensures Snapshot() == bs && Contents() == old(Contents())
      ensures q.Valid() && q.first == old(q.first) + 1 && q.Items() == old(q.Items())
      ensures 1 <= S <= 8 && old(q.first) < Offset(S, MAX_PATH)
      ensures x == EntryAt(S, buckets.hashpower, bs, i1, i2, old(q.first)) && x.bucket < |bs|
      ensures bs[x.bucket] == bucket && |bucket| == S
    {
      hide Layout, Good, Snapshot, Contents, Sum, Unmigrated, Offset, Encode;
      hide Walk, AltIndex, Pow2, Filled, PathAt, Start;
      ghost var n := q.first;
      Basics();
      x := q.Dequeue();
      FilledAt(q.Items(), S, buckets.hashpower, bs, i1, i2, n);
      EntryInRange(buckets.hashpower, bs, i1, i2, n);
      bucket := ReadBucket(x.bucket);
    }

    /** The entry n whose bucket has the empty slot s is the result of the search. */
    lemma FoundHere(hp: nat, bs: Buckets<K, V>, i1: nat, i2: nat, n: nat, s: nat)
      requires 1 <= S <= 8 && s < S && n < Offset(S, MAX_PATH) && NoneOpen(S, hp, bs, i1, i2, n)
      requires OpenSlot(bs, BucketAt(S, hp, bs, i1, i2, n), s)
      ensures var e := EntryAt(S, hp, bs, i1, i2, n);
        e.depth >= 0 && FoundAt(hp, bs, i1, i2, BSlot(e.bucket, (e.pathcode * S + s) % 0x1_0000, e.depth), n, s)
    {
      hide Offset, Encode, Walk, AltIndex, Pow2, HasOpen, NoneOpen, PathAt, Start, FirstOpen;
      CodeOfFound(n, s);
      OpenAt(bs, BucketAt(S, hp, bs, i1, i2, n), s);
      NoneOpenNext(S, hp, bs, i1, i2, n);
    }

    lemma EntryInRange(hp: nat, bs: Buckets<K, V>, i1: nat, i2: nat, n: nat)
      requires S >= 1 && i1 < Pow2(hp) && i2 < Pow2(hp)
      ensures BucketAt(S, hp, bs, i1, i2, n) < Pow2(hp)
    {
      hide PathAt, Walk, Pow2, AltIndex, Start;
      StartInRange(i1, i2, PathAt(S, n), hp);
      WalkInRange(hp, bs, Start(i1, i2, PathAt(S, n)), PathAt(S, n).slots);
    }

    lemma NoneOpenIsStuck(i1: nat, i2: nat)
      requires Layout() && NoneOpen(S, buckets.hashpower, Snapshot(), i1, i2, Offset(S, MAX_PATH))
      ensures Stuck(i1, i2)
    {
    }

    lemma CodeOfFound(n: nat, s: nat)
      requires 1 <= S <= 8 && s < S && n < Offset(S, MAX_PATH)
      ensures |PathAt(S, n).slots| < MAX_PATH
      ensures (Encode(S, PathAt(S, n)) * S + s) % 0x1_0000 == Encode(S, Extend(PathAt(S, n), s))
    {
      RoomForChildren(S, n);
      PathAtLevel(S, n);
      EncodeExtend(S, PathAt(S, n), s);
      CodeFits(S, Extend(PathAt(S, n), s));
    }

    method StartQueue(i1: nat, i2: nat, ghost bs: Buckets<K, V>) returns (q: BQueue)
      requires 1 <= S <= 8
      ensures q.Valid() && fresh(q) && fresh(q.slots) && q.first == 0 && q.last == Enqueued(S, 0)
      ensures NoneOpen(S, buckets.hashpower, bs, i1, i2, 0)
      ensures q.slots.Length == Offset(S, MAX_PATH) && Filled(q.Items(), S, buckets.hashpower, bs, i1, i2)
    {
      CapacityIsOffset(S);
      OffsetMono(S, 1, MAX_PATH);
      q := new BQueue(QueueCapacity(S));
      q.Enqueue(BSlot(i1, 0, 0));
      q.Enqueue(BSlot(i2, 1, 0));
    }

    /** The first loop of cuckoopath_search: slots from the end to the beginning, by repeated `%` and `/`. */
    method DecodeSlots(path: array<CuckooRecord>, pathcode: nat, depth: nat) returns (start: nat)
      requires S >= 1 && depth < path.Length
      modifies path
      ensures var p := Decode(S, pathcode, depth + 1);
        start == p.start && |p.slots| == depth + 1 && forall j: nat :: j <= depth ==> path[j].slot == p.slots[j]
    {
      hide Decode, Quot, Rem;
      ghost var p := Decode(S, pathcode, depth + 1);
      DecodeLength(S, pathcode, depth + 1);
      start := pathcode;
      var i: int := depth;
      while i >= 0
        invariant -1 <= i <= depth
        invariant Decode(S, start, i + 1).start == p.start && Decode(S, start, i + 1).slots == p.slots[..i + 1]
        invariant forall j: nat :: i < j <= depth ==> path[j].slot == p.slots[j]
      {
        DecodeStep(S, start, i);
        assert p.slots[..i + 1][..i] == p.slots[..i];
        path[i] := path[i].(slot := Rem(start, S));
        start := Quot(start, S);
        i := i - 1;
      }
      DecodeNothing(S, start);
    }

    /** The second loop of cuckoopath_search: buckets and hashes from the beginning to the end. */
    method FillRecords(path: array<CuckooRecord>, depth: nat, i1: nat, i2: nat, start: nat,
                       ghost bs: Buckets<K, V>, ghost n: nat, ghost slot: nat) returns (d: nat)
      requires Valid() && bs == Snapshot() && i1 < Pow2(buckets.hashpower) && i2 < Pow2(buckets.hashpower)
      requires depth < path.Length && FirstOpen(S, buckets.hashpower, bs, i1, i2, n)
      requires depth == |PathAt(S, n).slots| && start == PathAt(S, n).start && slot < S
      requires forall j: nat :: j <= depth ==> path[j].slot == Extend(PathAt(S, n), slot).slots[j]
      requires OpenSlot(bs, BucketAt(S, buckets.hashpower, bs, i1, i2, n), slot)
      modifies this, buckets, oldBuckets, path
      ensures Valid() && buckets.hashpower == old(buckets.hashpower)
      ensures Snapshot() == old(Snapshot()) && Contents() == old(Contents())
      ensures d == depth && Movable(hash, buckets.hashpower, bs, path[..d + 1], d)
      ensures path[0].bucket == i1 || path[0].bucket == i2
    {
      hide Layout, Good, Snapshot, Contents, Sum, Unmigrated, FirstOpen, PathAt;
      hide Walk, AltIndex, Pow2, Stop, Recorded, Movable;
      hide FilledTo, BucketAt, OpenSlot;
      ghost var hp, b0, slots := buckets.hashpower, Start(i1, i2, PathAt(S, n)), Extend(PathAt(S, n), slot).slots;
      path[0] := path[0].(bucket := if start == 0 then i1 else i2);
      PathAtLevel(S, n);
      FilledToStart(hash, hp, bs, b0, slots, path[..]);
      var i: nat := 0;
      var done := FillOne(path, 0, depth, i1, i2, bs, n, slot);
      while !done
        invariant i <= depth && Valid() && buckets.hashpower == hp && Snapshot() == bs && Contents() == old(Contents())
        invariant done == (i == depth) && FilledTo(hash, hp, bs, b0, slots, path[..], i + 1)
        decreases depth - i
      {
        i := i + 1;
        done := FillOne(path, i, depth, i1, i2, bs, n, slot);
      }
      RecordedIsMovable(hash, S, hp, bs, i1, i2, n, slot, path[..]);
      assert path[..][..depth + 1] == path[..depth + 1];
      d := i;
    }

    /** Reads record i under its lock; stops at an empty slot, otherwise notes the hash and the next bucket. */
    method FillOne(path: array<CuckooRecord>, i: nat, depth: nat, ghost i1: nat, ghost i2: nat,
                   ghost bs: Buckets<K, V>, ghost n: nat, ghost slot: nat) returns (done: bool)
      requires Valid() && bs == Snapshot() && i1 < Pow2(buckets.hashpower) && i2 < Pow2(buckets.hashpower)
      requires i <= depth == |PathAt(S, n).slots| && slot < S && FirstOpen(S, buckets.hashpower, bs, i1, i2, n)
      requires OpenSlot(bs, BucketAt(S, buckets.hashpower, bs, i1, i2, n), slot)
      requires var p := PathAt(S, n);
        FilledTo(hash, buckets.hashpower, bs, Start(i1, i2, p), Extend(p, slot).slots, path[..], i)
      modifies this, buckets, oldBuckets, path
      ensures Valid() && buckets.hashpower == old(buckets.hashpower)
      ensures Snapshot() == old(Snapshot()) && Contents() == old(Contents())
      ensures done == (i == depth)
      ensures var p := PathAt(S, n);
        FilledTo(hash, buckets.hashpower, bs, Start(i1, i2, p), Extend(p, slot).slots, path[..], i + 1)
    {
      hide Layout, Good, Snapshot, Contents, Sum, Unmigrated, FirstOpen, PathAt;
      hide Walk, AltIndex, Pow2, Stop, Recorded, FilledTo;
      hide BucketAt, OpenSlot, Start;
      Basics();
      ghost var hp, before := buckets.hashpower, path[..];
      ghost var b0, slots := Start(i1, i2, PathAt(S, n)), Extend(PathAt(S, n), slot).slots;
      FilledToAt(hash, hp, bs, b0, slots, before, i);
      StartInRange(i1, i2, PathAt(S, n), hp);
      StopInRange(hp, bs, b0, slots, i);
      FullUnlessLast(S, hp, bs, i1, i2, n, slot, i);
      var r := path[i];
      var bucket := ReadBucket(r.bucket);
      done := bucket[r.slot].Empty? || i == depth;
      if !done {
        r := r.(hash := hash(bucket[r.slot].key));
      }
      MakeRecorded(hash, hp, bs, b0, slots, r, i);
      path[i] := r;
      if !done {
        NextStop(hash, S, hp, bs, b0, slots, r, i);
        path[i + 1] := path[i + 1].(bucket := AltIndex(buckets.hashpower, PartialKey(r.hash), r.bucket));
      }
      FilledToNext(hash, hp, bs, b0, slots, before, path[..], i);
    }

    /** cuckoopath_search: without interference the records describe a shortest path, move by move. */
    method CuckooPathSearch(path: array<CuckooRecord>, i1: nat, i2: nat) returns (depth: int)
      requires Valid() && i1 < Pow2(buckets.hashpower) && i2 < Pow2(buckets.hashpower) && path.Length == MAX_PATH
      modifies this, buckets, oldBuckets, path
      ensures Valid() && buckets.hashpower == old(buckets.hashpower)
      ensures Snapshot() == old(Snapshot()) && Contents() == old(Contents())
      ensures -1 <= depth < MAX_PATH
      ensures depth == -1 ==> Stuck(i1, i2)
      ensures depth != -1 ==> Movable(hash, buckets.hashpower, Snapshot(), path[..depth + 1], depth)
      ensures depth != -1 ==> path[0].bucket == i1 || path[0].bucket == i2
    {
      hide Layout, Good, Snapshot, Contents, Sum, Unmigrated, FirstOpen, PathAt;
      hide Walk, AltIndex, Pow2, Encode, Decode, Movable, Stuck;
      var x, n, slot := SlotSearch(i1, i2);
      if x.depth == -1 {
        return -1;
      }
      Basics();
      PathAtLevel(S, n);
      DecodeEncode(S, Extend(PathAt(S, n), slot));
      ghost var bs := Snapshot();
      var start := DecodeSlots(path, x.pathcode, x.depth);
      depth := FillRecords(path, x.depth, i1, i2, start, bs, n, slot);
    }

    /** One displacement of cuckoopath_move, re-validated as the source does. */
    method MoveOne(from: CuckooRecord, to: CuckooRecord) returns (ok: bool)
      requires Valid() && HasAt(Snapshot(), from.bucket, from.slot) && HasAt(Snapshot(), to.bucket, to.slot)
      requires Snapshot()[to.bucket][to.slot].Empty?
      requires Snapshot()[from.bucket][from.slot].Full? && hash(Snapshot()[from.bucket][from.slot].key) == from.hash
      requires to.bucket == AltIndex(buckets.hashpower, Snapshot()[from.bucket][from.slot].partial, from.bucket)
      requires Migrated(from.bucket) && Migrated(to.bucket)
      modifies buckets`cells
      ensures ok && Valid() && Contents() == old(Contents())
      ensures Snapshot() == Displace(old(Snapshot()), from.bucket, from.slot, to.bucket, to.slot)
    {
      hide Layout, Good, Snapshot, Table.Contents, Sum, Unmigrated, AltIndex, Pow2;
      Basics();
      ShapeAt(Snapshot(), S, buckets.hashpower, from.bucket);
      ShapeAt(Snapshot(), S, buckets.hashpower, to.bucket);
      Visible(from.bucket);
      Visible(to.bucket);
      DisplaceKeeps(hash, S, buckets.hashpower, Snapshot(), from.bucket, from.slot, to.bucket, to.slot);
      var x := buckets.cells[from.bucket][from.slot];
      if buckets.cells[to.bucket][to.slot].Full? || x.Empty? || hash(x.key) != from.hash {
        return false;
      }
      WriteKV(to.bucket, to.slot, x.partial, x.key, x.value);
      Visible(from.bucket);
      WriteEmpty(from.bucket, from.slot);
      return true;
    }

    /** The body of cuckoopath_move's loop: the last move also locks both insert buckets. */
    method MoveStep(from: CuckooRecord, to: CuckooRecord, depth: nat, i1: nat, i2: nat,
        ghost recs: seq<CuckooRecord>) returns (ok: bool)
      requires Valid() && i1 < Pow2(buckets.hashpower) && i2 < Pow2(buckets.hashpower)
      requires 0 < depth < |recs| && recs[depth - 1] == from && recs[depth] == to
      requires Movable(hash, buckets.hashpower, Snapshot(), recs, depth)
      requires recs[0].bucket == i1 || recs[0].bucket == i2
      modifies this, buckets, oldBuckets
      ensures ok && Valid() && buckets.hashpower == old(buckets.hashpower) && Contents() == old(Contents())
      ensures Movable(hash, buckets.hashpower, Snapshot(), recs, depth - 1)
      ensures depth == 1 ==> Migrated(i1) && Migrated(i2)
    {
      hide Layout, Good, Snapshot, Contents, Sum, Unmigrated, AltIndex, Pow2, Movable, Displace, Link;
      MovableStep(hash, buckets.hashpower, Snapshot(), recs, depth);
      MovableAt(hash, buckets.hashpower, Snapshot(), recs, depth);
      Basics();
      ShapeAt(Snapshot(), S, buckets.hashpower, from.bucket);
      ShapeAt(Snapshot(), S, buckets.hashpower, to.bucket);
      if depth == 1 {
        LockThree(i1, i2, to.bucket);
      } else {
        LockTwo(from.bucket, to.bucket);
      }
      ok := MoveOne(from, to);
    }

    /** cuckoopath_move: always succeeds here, and ends with both insert buckets migrated. */
    method CuckooPathMove(path: array<CuckooRecord>, d: nat, i1: nat, i2: nat) returns (ok: bool)
      requires Valid() && i1 < Pow2(buckets.hashpower) && i2 < Pow2(buckets.hashpower)
      requires d < path.Length && Movable(hash, buckets.hashpower, Snapshot(), path[..d + 1], d)
      requires path[0].bucket == i1 || path[0].bucket == i2
      modifies this, buckets, oldBuckets
      ensures ok && Valid() && buckets.hashpower == old(buckets.hashpower) && Contents() == old(Contents())
      ensures Migrated(i1) && Migrated(i2)
      ensures OpenSlot(buckets.cells, path[0].bucket, path[0].slot)
    {
      hide Layout, Good, Snapshot, Contents, Sum, Unmigrated, AltIndex, Pow2, Movable, Displace, Link;
      ghost var recs := path[..d + 1];
      if d == 0 {
        LockTwo(i1, i2);
        MovableEnd(hash, buckets.hashpower, Snapshot(), recs);
        Visible(path[0].bucket);
        return buckets.cells[path[0].bucket][path[0].slot].Empty?;
      }
      var depth: nat := d;
      ok := true;
      while ok && depth > 0
        invariant depth <= d && ok && Valid() && buckets.hashpower == old(buckets.hashpower)
        invariant Contents() == old(Contents()) && Movable(hash, buckets.hashpower, Snapshot(), recs, depth)
        invariant depth == 0 ==> Migrated(i1) && Migrated(i2)
        decreases depth
      {
        ok := MoveStep(path[depth - 1], path[depth], depth, i1, i2, recs);
        depth := depth - 1;
      }
      MovableEnd(hash, buckets.hashpower, Snapshot(), recs);
      Visible(path[0].bucket);
    }

    /** lock_three: sorts the three stripes by compare-and-swap and takes them in that order. */
    method LockThree(i1: nat, i2: nat, i3: nat)
      requires Valid() && i1 < Pow2(buckets.hashpower) && i2 < Pow2(buckets.hashpower) && i3 < Pow2(buckets.hashpower)
      modifies this, buckets, oldBuckets
      ensures Valid() && buckets.hashpower == old(buckets.hashpower)
      ensures Snapshot() == old(Snapshot()) && Contents() == old(Contents())
      ensures Migrated(i1) && Migrated(i2) && Migrated(i3)
    {
      hide Layout, Good, Snapshot, Contents, Sum, Unmigrated;
      var l0, l1, l2 := LockInd(lockBits, i1), LockInd(lockBits, i2), LockInd(lockBits, i3);
      if l2 < l1 {
        l1, l2 := l2, l1;
      }
      if l2 < l0 {
        l0, l2 := l2, l0;
      }
      if l1 < l0 {
        l0, l1 := l1, l0;
      }
      StripeInRange(lockBits, buckets.hashpower, i1);
      StripeInRange(lockBits, buckets.hashpower, i2);
      StripeInRange(lockBits, buckets.hashpower, i3);
      LockStripe(l0);
      LockStripe(l1);
      LockStripe(l2);
    }

    /** run_cuckoo: one pass frees a slot of an insert bucket and loses nothing, or the search found no path. */
    method RunCuckoo(i1: nat, i2: nat) returns (ok: bool, b: nat, s: nat, ghost passes: nat)
      requires Valid() && i1 < Pow2(buckets.hashpower) && i2 < Pow2(buckets.hashpower)
      modifies this, buckets, oldBuckets
      ensures Valid() && buckets.hashpower == old(buckets.hashpower) && Contents() == old(Contents())
      ensures ok ==> Migrated(i1) && Migrated(i2) && (b == i1 || b == i2)
      ensures ok ==> OpenSlot(buckets.cells, b, s)
      ensures !ok ==> Stuck(i1, i2) && Snapshot() == old(Snapshot())
      ensures passes <= 1
    {
      hide Layout, Good, Snapshot, Contents, Sum, Unmigrated, AltIndex, Pow2, Movable, Stuck, OpenSlot;
      ok, b, s := false, 0, 0;
      var path := new CuckooRecord[MAX_PATH](_ => CuckooRecord(0, 0, 0));
      passes := 0;
      while !ok
        invariant Valid() && buckets.hashpower == old(buckets.hashpower) && Contents() == old(Contents()) && fresh(path)
        invariant passes <= 1 && (!ok ==> passes == 0 && Snapshot() == old(Snapshot()))
        invariant path.Length == MAX_PATH
        invariant ok ==> Migrated(i1) && Migrated(i2) && (b == i1 || b == i2)
        invariant ok ==> OpenSlot(buckets.cells, b, s)
        decreases !ok
      {
        passes := passes + 1;
        var depth := CuckooPathSearch(path, i1, i2);
        if depth < 0 {
          break;
        }
        var moved := CuckooPathMove(path, depth, i1, i2);
        if moved {
          b, s, ok := path[0].bucket, path[0].slot, true;
        }
      }
    }

    // ---- insertion ----

    /** try_find_insert_bucket: a duplicate, or the last empty slot (-1 if the bucket is full). */
    method TryFindInsertBucket(b: nat, partial: nat, key: K) returns (absent: bool, slot: int)
      requires Valid() && b < Pow2(buckets.hashpower)
      ensures -1 <= slot < S
      ensures !absent ==> slot >= 0 && HasKey(buckets.cells, b, slot, key)
      ensures absent ==> forall s: nat :: HasKey(buckets.cells, b, s, key) ==> buckets.cells[b][s].partial != partial
      ensures absent && slot >= 0 ==> OpenSlot(buckets.cells, b, slot)
      ensures absent ==> forall s: nat :: slot < s ==> !OpenSlot(buckets.cells, b, s)
    {
      hide Good, Snapshot, Table.Contents, Sum, Unmigrated;
      slot := -1;
      var i := 0;
      while i < S
        invariant 0 <= i <= S && -1 <= slot < i
        invariant forall s: nat :: s < i && HasKey(buckets.cells, b, s, key) ==> buckets.cells[b][s].partial != partial
        invariant slot >= 0 ==> OpenSlot(buckets.cells, b, slot)
        invariant forall s: nat :: slot < s < i ==> !OpenSlot(buckets.cells, b, s)
      {
        var x := buckets.cells[b][i];
        if x.Full? {
          if x.partial == partial && x.key == key {
            return false, i;
          }
        } else {
          slot := i;
        }
        i := i + 1;
      }
      absent := true;
    }

    /** cuckoo_insert: a free candidate slot for an absent key, the duplicate's position, or a full table. */
    method CuckooInsert(key: K, i1: nat, i2: nat) returns (status: InsertStatus, b: nat, s: nat)
      requires Valid() && i1 == IndexHash(buckets.hashpower, hash(key))
      requires i2 == SecondIndex(buckets.hashpower, hash(key))
      requires Migrated(i1) && Migrated(i2)
      modifies this, buckets, oldBuckets
      ensures Valid() && buckets.hashpower == old(buckets.hashpower) && Contents() == old(Contents())
      ensures status.KeyDuplicated? <==> key in Contents()
      ensures status.KeyDuplicated? ==> HasKey(buckets.cells, b, s, key) && s < S
      ensures status.Ok? ==> OpenSlot(buckets.cells, b, s) && s < S
      ensures !status.TableFull? ==> (b == i1 || b == i2) && Migrated(b)
      ensures status.TableFull? ==> Stuck(i1, i2)
    {
      hide Layout, Good, Snapshot, Contents, Sum, Unmigrated, IndexHash, SecondIndex, PartialKey, Stuck;
      var partial := PartialKey(hash(key));
      var absent1, res1 := TryFindInsertBucket(i1, partial, key);
      if !absent1 {
        PresentAt(key, i1, res1);
        return KeyDuplicated, i1, res1;
      }
      var absent2, res2 := TryFindInsertBucket(i2, partial, key);
      if !absent2 {
        PresentAt(key, i2, res2);
        return KeyDuplicated, i2, res2;
      }
      AbsentIf(key, i1, i2);
      if res1 != -1 {
        return Ok, i1, res1;
      }
      if res2 != -1 {
        return Ok, i2, res2;
      }
      status, b, s := InsertByCuckoo(key, i1, i2);
    }

    /** The unlucky case of cuckoo_insert, with its second look for a duplicate. */
    method InsertByCuckoo(key: K, i1: nat, i2: nat) returns (status: InsertStatus, b: nat, s: nat)
      requires Valid() && i1 == IndexHash(buckets.hashpower, hash(key))
      requires i2 == SecondIndex(buckets.hashpower, hash(key))
      modifies this, buckets, oldBuckets
      ensures Valid() && buckets.hashpower == old(buckets.hashpower) && Contents() == old(Contents())
      ensures !status.TableFull? ==> (status.KeyDuplicated? <==> key in Contents())
      ensures status.KeyDuplicated? ==> HasKey(buckets.cells, b, s, key) && s < S
      ensures status.Ok? ==> OpenSlot(buckets.cells, b, s) && s < S
      ensures !status.TableFull? ==> (b == i1 || b == i2) && Migrated(b)
      ensures status.TableFull? ==> Stuck(i1, i2)
    {
      hide Layout, Good, Snapshot, Contents, Sum, Unmigrated, IndexHash, SecondIndex, PartialKey, Stuck, HasKey;
      var ok;
      ghost var passes;
      ok, b, s, passes := RunCuckoo(i1, i2);
      if ok {
        var found, c, t := CuckooFind(key, i1, i2);
        Visible(b);
        if found {
          return KeyDuplicated, c, t;
        }
        return Ok, b, s;
      }
      return TableFull, 0, 0;
    }

    // ---- size and doubling ----

    /** size(): the sum of the per-stripe counters is the number of entries, however the counters drifted. */
    method Size() returns (n: int)
      requires Valid()
      ensures n == |Contents()|
    {
      hide Layout, Good, Snapshot, Contents, Unmigrated;
      n := 0;
      var i := 0;
      while i < |locks|
        invariant 0 <= i <= |locks| && n == Sum(locks[..i])
      {
        assert locks[..i + 1][..i] == locks[..i];
        n := n + locks[i].elemCounter;
        i := i + 1;
      }
      assert locks[..i] == locks;
      SizeIsContents();
    }

    lemma SizeIsContents()
      requires Valid()
      ensures Sum(locks) == |Contents()|
    {
    }

    /** check_resize_validity for an automatic resize. */
    method CheckResizeValidity(origHp: nat, newHp: nat) returns (status: ResizeStatus)
      requires Valid()
      ensures status.MaximumHashpowerExceeded? <==> maximumHashpower.Some? && newHp > maximumHashpower.value
      ensures status == LoadFactorTooLow ==>
        |Contents()| as real < minimumLoad * (Pow2(buckets.hashpower) * S) as real
      ensures status == Resized || status == UnderExpansion ==>
        |Contents()| as real >= minimumLoad * (Pow2(buckets.hashpower) * S) as real
      ensures status == Resized ==> buckets.hashpower == origHp
      ensures buckets.hashpower == origHp ==> status != UnderExpansion
    {
      hide Layout, Good, Snapshot, Contents, Sum, Unmigrated, Pow2, LoadFactor;
      Basics();
      var size := Size();
      if maximumHashpower.Some? && newHp > maximumHashpower.value {
        return MaximumHashpowerExceeded;
      }
      LoadBelowIff(size, S, buckets.hashpower, minimumLoad);
      if LoadFactor(size, S, buckets.hashpower) < minimumLoad {
        return LoadFactorTooLow;
      }
      if buckets.hashpower != origHp {
        return UnderExpansion;
      }
      return Resized;
    }

    /** The loop over rehash_lock<kIsNotLazy>: everything is in the current buckets afterwards. */
    method RehashAll()
      requires Valid()
      modifies this, buckets, oldBuckets
      ensures Layout() && buckets.hashpower == old(buckets.hashpower) && buckets.cells == old(Snapshot())
      ensures forall l :: 0 <= l < |locks| ==> locks[l].isMigrated
      ensures |locks| == old(|locks|) && Sum(locks) == old(Sum(locks)) && remaining == 0
    {
      hide Layout, Good, Snapshot, Contents, Sum, Unmigrated, Table.Contents;
      var i: nat := 0;
      while i < |locks|
        invariant i <= |locks| == old(|locks|) && Layout() && buckets.hashpower == old(buckets.hashpower)
        invariant Snapshot() == old(Snapshot()) && Sum(locks) == old(Sum(locks))
        invariant forall l :: 0 <= l < i ==> locks[l].isMigrated
      {
        SumUpdate(locks, i, locks[i].(isMigrated := true));
        RehashLock(i, false);
        i := i + 1;
      }
      remaining := 0;
      LayoutSized();
      NonePending();
    }

    lemma LayoutSized()
      requires Layout()
      ensures Sized() && |locks| == LockCount(lockBits, buckets.hashpower)
    {
    }

    /** maybe_resize_locks: new stripes start empty and migrated. */
    method MaybeResizeLocks(newHp: nat)
      requires buckets.hashpower + 1 == newHp && |locks| == LockCount(lockBits, buckets.hashpower)
      requires forall l :: 0 <= l < |locks| ==> locks[l].isMigrated
      modifies this`locks
      ensures |locks| == LockCount(lockBits, newHp) && Sum(locks) == old(Sum(locks))
      ensures forall l :: 0 <= l < |locks| ==> locks[l].isMigrated
      ensures old(locks) <= locks && forall l :: old(|locks|) <= l < |locks| ==> locks[l] == Lock(0, true)
    {
      if |locks| < Pow2(lockBits) && |locks| < Pow2(newHp) {
        var target := if Pow2(lockBits) < Pow2(newHp) then Pow2(lockBits) else Pow2(newHp);
        LockCountGrows(lockBits, newHp);
        ghost var before := locks;
        while |locks| < target
          invariant |before| <= |locks| <= target && Sum(locks) == Sum(before) && before <= locks
          invariant forall l :: |before| <= l < |locks| ==> locks[l] == Lock(0, true)
          invariant forall l :: 0 <= l < |locks| ==> locks[l].isMigrated
          decreases target - |locks|
        {
          assert (locks + [Lock(0, true)])[..|locks|] == locks;
          locks := locks + [Lock(0, true)];
        }
      } else {
        LockCountGrows(lockBits, newHp);
      }
    }

    /** Marks every stripe un-migrated. */
    method UnmigrateAll()
      modifies this`locks
      ensures |locks| == old(|locks|) && Sum(locks) == old(Sum(locks)) && Unmigrated(locks) == |locks|
      ensures forall l :: 0 <= l < |locks| ==> !locks[l].isMigrated
    {
      hide Sum, Unmigrated;
      var i: nat := 0;
      while i < |locks|
        invariant i <= |locks| == old(|locks|) && Sum(locks) == old(Sum(locks))
        invariant forall l :: 0 <= l < i ==> !locks[l].isMigrated
      {
        SumUpdate(locks, i, locks[i].(isMigrated := false));
        locks := locks[i := locks[i].(isMigrated := false)];
        i := i + 1;
      }
      UnmigratedFull(locks);
    }

    /** The swap and allocation of cuckoo_fast_double. */
    method SwapInFresh()
      requires Sized()
      modifies buckets, oldBuckets
      ensures Sized() && buckets.hashpower == old(buckets.hashpower) + 1
      ensures oldBuckets.hashpower == old(buckets.hashpower)
      ensures oldBuckets.cells == old(buckets.cells) && buckets.cells == Blank(S, buckets.hashpower)
      ensures Shape(oldBuckets.cells, S, oldBuckets.hashpower)
    {
      var newHp := buckets.hashpower + 1;
      oldBuckets.Swap(buckets);
      buckets.AssignFresh(newHp);
    }

    /** A table below kMaxNumLocks buckets is redistributed at once. */
    method MoveAll()
      requires Sized() && buckets.hashpower == oldBuckets.hashpower + 1
      requires Shape(oldBuckets.cells, S, oldBuckets.hashpower)
      requires buckets.cells == Blank(S, buckets.hashpower)
      modifies buckets
      ensures Sized() && buckets.hashpower == old(buckets.hashpower)
      ensures buckets.cells == Doubled(hash, oldBuckets.hashpower, oldBuckets.cells)
    {
      hide Doubled, View, Blank, Untouched;
      ghost var hp, prior := buckets.hashpower, oldBuckets.cells;
      ghost var waiting := AllBelow(|prior|);
      BlankUntouched<K, V>(S, hp, waiting);
      ViewAllPending(hash, hp - 1, buckets.cells, prior, waiting);
      var i: nat := 0;
      while i < |oldBuckets.cells|
        invariant i <= |prior| && waiting == AllBelow(|prior|) - AllBelow(i)
        invariant Sized() && buckets.hashpower == hp && Untouched(S, hp, buckets.cells, waiting)
        invariant View(hash, hp, buckets.cells, prior, waiting) == Doubled(hash, hp - 1, prior)
      {
        MigrateNext(hp, prior, waiting, i);
        waiting := waiting - {i};
        i := i + 1;
      }
      assert waiting == {};
      ViewNonePending(hash, hp, buckets.cells, prior);
    }

    /** From a fully migrated table: the part of cuckoo_fast_double after rehashing. */
    method Grow()
      requires Layout() && Good(hash, S, buckets.hashpower, buckets.cells) && minimumLoad >= 0.0
      requires forall l :: 0 <= l < |locks| ==> locks[l].isMigrated
      requires Sum(locks) == |Table.Contents(buckets.cells)|
      modifies this, buckets, oldBuckets
      ensures Valid() && buckets.hashpower == old(buckets.hashpower) + 1
      ensures Contents() == Table.Contents(old(buckets.cells))
    {
      hide Good, Doubled, Table.Contents, View, Sum, Unmigrated, Blank;
      var newHp := buckets.hashpower + 1;
      DoublingKeeps(hash, S, buckets.hashpower, buckets.cells);
      MaybeResizeLocks(newHp);
      SwapInFresh();
      if |oldBuckets.cells| < Pow2(lockBits) {
        MoveAll();
        remaining := 0;
        NonePending();
        UnmigratedZero(locks);
      } else {
        UnmigrateAll();
        remaining := |locks|;
        AllPending();
      }
    }

    lemma AllPending()
      requires Sized() && buckets.hashpower == oldBuckets.hashpower + 1
      requires Shape(oldBuckets.cells, S, oldBuckets.hashpower)
      requires |locks| == LockCount(lockBits, buckets.hashpower) && Pow2(lockBits) <= |oldBuckets.cells|
      requires forall l :: 0 <= l < |locks| ==> !locks[l].isMigrated
      requires buckets.cells == Blank(S, buckets.hashpower)
      ensures Layout() && Snapshot() == Doubled(hash, oldBuckets.hashpower, oldBuckets.cells)
    {
      hide Doubled, View, Blank;
      var hp, prior := buckets.hashpower, oldBuckets.cells;
      Pow2Inverse(lockBits, hp - 1);
      Pow2Mono(hp - 1, hp);
      forall ob: nat | ob < |prior| ensures ob in Pending() { StripeInRange(lockBits, hp, ob); }
      BlankUntouched<K, V>(S, hp, Pending());
      ViewAllPending(hash, hp - 1, buckets.cells, prior, Pending());
    }

    /** cuckoo_fast_double: doubles without changing the abstract map, or reports why it did not. */
    method FastDouble(currentHp: nat) returns (status: ResizeStatus)
      requires Valid()
      modifies this, buckets, oldBuckets
      ensures Valid() && Contents() == old(Contents())
      ensures buckets.hashpower == old(buckets.hashpower) + if status == Resized then 1 else 0
      ensures currentHp == old(buckets.hashpower) ==> status != UnderExpansion
      ensures status == Resized ==> !Sparse(|old(Contents())|, S, old(buckets.hashpower), minimumLoad)
      ensures status == LoadFactorTooLow ==> Sparse(|old(Contents())|, S, old(buckets.hashpower), minimumLoad)
      ensures status == MaximumHashpowerExceeded <==> maximumHashpower.Some? && currentHp + 1 > maximumHashpower.value
      ensures status != Resized ==> unchanged(this, buckets, oldBuckets)
    {
      hide Layout, Good, Sum, Unmigrated, Table.Contents, Pow2, View;
      status := CheckResizeValidity(currentHp, currentHp + 1);
      if status != Resized {
        return;
      }
      RehashAll();
      Grow();
    }

    // ---- the public inserting operations ----

    /** Doubling cannot go on for ever: the load factor or a maximum hashpower stops it. */
    ghost predicate Bounded() { minimumLoad > 0.0 || maximumHashpower.Some? }

    /** The hashpower that automatic doubling never passes for this many entries. */
    ghost function LastHp(size: nat): nat
      requires Bounded()
    {
      if minimumLoad > 0.0 then LastHashpower(size, minimumLoad) else maximumHashpower.value
    }

    /**
     * Why an insert of `key` throws: the key is absent, no displacement path frees a slot for it, and the table is
     * below the minimum load factor or already at the maximum hashpower.
     */
    ghost predicate Refused(key: K, error: ResizeStatus)
      requires Valid()
      reads this, buckets, oldBuckets
    {
      && key !in Contents()
      && Stuck(IndexHash(buckets.hashpower, hash(key)), SecondIndex(buckets.hashpower, hash(key)))
      && (error == LoadFactorTooLow || error == MaximumHashpowerExceeded)
      && (error == LoadFactorTooLow ==> Sparse(|Contents()|, S, buckets.hashpower, minimumLoad))
      && (error == MaximumHashpowerExceeded ==>
            maximumHashpower.Some? && buckets.hashpower + 1 > maximumHashpower.value)
    }

    /** The position that an insert of `key` ends with: a free candidate slot, or the slot of the duplicate. */
    ghost predicate Placeable(key: K, status: InsertStatus, b: nat, s: nat)
      requires Valid()
      reads this, buckets, oldBuckets
    {
      && b < Pow2(buckets.hashpower) && s < S && Migrated(b)
      && (status == Ok || status == KeyDuplicated) && (status == KeyDuplicated <==> key in Contents())
      && (status == Ok ==> OpenSlot(buckets.cells, b, s) && Candidate(buckets.hashpower, hash(key), b))
      && (status == KeyDuplicated ==> HasKey(buckets.cells, b, s, key))
    }

    /** One round of cuckoo_insert_loop: it ends the loop with a position or an exception, or the table has doubled. */
    method InsertPass(key: K, i1: nat, i2: nat)
      returns (r: Option<Result<InsertStatus>>, b: nat, s: nat, j1: nat, j2: nat)
      requires Valid() && i1 == IndexHash(buckets.hashpower, hash(key))
      requires i2 == SecondIndex(buckets.hashpower, hash(key))
      requires Migrated(i1) && Migrated(i2)
      modifies this, buckets, oldBuckets
      ensures Valid() && Contents() == old(Contents())
      ensures r.Some? && r.value.Success? ==> Placeable(key, r.value.value, b, s)
      ensures r.Some? && r.value.Thrown? ==> Refused(key, r.value.error)
      ensures r.None? ==>
        && buckets.hashpower == old(buckets.hashpower) + 1 && key !in Contents()
        && !Sparse(|Contents()|, S, old(buckets.hashpower), minimumLoad)
        && (maximumHashpower.Some? ==> buckets.hashpower <= maximumHashpower.value)
        && j1 == IndexHash(buckets.hashpower, hash(key)) && j2 == SecondIndex(buckets.hashpower, hash(key))
        && Migrated(j1) && Migrated(j2)
    {
      hide Layout, Good, Snapshot, Contents, Sum, Unmigrated, IndexHash, SecondIndex, HasKey, OpenSlot, Sparse;
      hide Pow2, Stuck, Refused;
      var status;
      status, b, s := CuckooInsert(key, i1, i2);
      if status != TableFull {
        return Some(Success(status)), b, s, i1, i2;
      }
      r, j1, j2 := DoubleOrThrow(key, i1, i2);
    }

    /** The full-table branch of cuckoo_insert_loop. */
    method DoubleOrThrow(key: K, i1: nat, i2: nat) returns (r: Option<Result<InsertStatus>>, j1: nat, j2: nat)
      requires Valid() && key !in Contents() && Stuck(i1, i2)
      requires i1 == IndexHash(buckets.hashpower, hash(key)) && i2 == SecondIndex(buckets.hashpower, hash(key))
      modifies this, buckets, oldBuckets
      ensures Valid() && Contents() == old(Contents())
      ensures r.Some? ==> r.value.Thrown? && Refused(key, r.value.error)
      ensures r.None? ==>
        && buckets.hashpower == old(buckets.hashpower) + 1
        && !Sparse(|Contents()|, S, old(buckets.hashpower), minimumLoad)
        && (maximumHashpower.Some? ==> buckets.hashpower <= maximumHashpower.value)
        && j1 == IndexHash(buckets.hashpower, hash(key)) && j2 == SecondIndex(buckets.hashpower, hash(key))
        && Migrated(j1) && Migrated(j2)
    {
      hide Layout, Good, Snapshot, Contents, Sum, Unmigrated, IndexHash, SecondIndex, Pow2, Stuck, Sparse;
      assert S >= 1 by { Basics(); }
      j1, j2 := i1, i2;
      var resize := FastDouble(buckets.hashpower);
      if resize == LoadFactorTooLow || resize == MaximumHashpowerExceeded {
        return Some(Thrown(resize)), i1, i2;
      }
      j1, j2 := SnapshotAndLockTwo(key);
      r := None;
    }

    /** cuckoo_insert_loop: ends with a free slot, a duplicate or an exception; only the layout may change. */
    method CuckooInsertLoop(key: K) returns (r: Result<InsertStatus>, b: nat, s: nat)
      requires Valid() && Bounded()
      modifies this, buckets, oldBuckets
      ensures Valid() && Contents() == old(Contents())
      ensures r.Success? ==> Placeable(key, r.value, b, s)
      ensures r.Thrown? ==> Refused(key, r.error)
    {
      hide Layout, Good, Snapshot, Contents, Sum, Unmigrated, IndexHash, SecondIndex, Stuck, Sparse, LastHashpower;
      hide Placeable, Refused;
      var i1, i2 := SnapshotAndLockTwo(key);
      ghost var m := Contents();
      Basics();
      while true
        invariant Valid() && Contents() == m
        invariant i1 == IndexHash(buckets.hashpower, hash(key)) && i2 == SecondIndex(buckets.hashpower, hash(key))
        invariant Migrated(i1) && Migrated(i2)
        decreases LastHp(|m|) - buckets.hashpower
      {
        ghost var hp := buckets.hashpower;
        var pass;
        pass, b, s, i1, i2 := InsertPass(key, i1, i2);
        if pass.Some? {
          return pass.value, b, s;
        }
        if minimumLoad > 0.0 { DoublingStops(|m|, S, hp, minimumLoad); }
      }
    }

    /**
     * With a minimum load factor of 0 and no maximum hashpower the loop need not end: while twice as many keys as a
     * bucket has slots share the hash of an absent key, each of any number of rounds doubles the table.
     */
    method DoublesForever(key: K, ghost ks: set<K>, rounds: nat)
      requires Valid() && minimumLoad == 0.0 && maximumHashpower.None? && key !in Contents()
      requires |ks| == 2 * S && forall k :: k in ks ==> k in Contents() && hash(k) == hash(key)
      modifies this, buckets, oldBuckets
      ensures Valid() && Contents() == old(Contents()) && buckets.hashpower == old(buckets.hashpower) + rounds
    {
      hide Layout, Good, Snapshot, Contents, Sum, Unmigrated, IndexHash, SecondIndex, Placeable, Refused, Sparse;
      var i1, i2 := SnapshotAndLockTwo(key);
      var n := 0;
      while n < rounds
        invariant 0 <= n <= rounds && buckets.hashpower == old(buckets.hashpower) + n
        invariant Valid() && Contents() == old(Contents())
        invariant i1 == IndexHash(buckets.hashpower, hash(key)) && i2 == SecondIndex(buckets.hashpower, hash(key))
        invariant Migrated(i1) && Migrated(i2)
      {
        var pass, b, s;
        pass, b, s, i1, i2 := InsertPass(key, i1, i2);
        if pass.Some? && pass.value.Success? { CollidingFull(key, ks, pass.value.value, b, s); }
        if pass.Some? && pass.value.Thrown? { NeverRefused(key, pass.value.error); }
        n := n + 1;
      }
    }

    /** Colliding keys leave an absent key no free candidate slot. */
    lemma CollidingFull(key: K, ks: set<K>, status: InsertStatus, b: nat, s: nat)
      requires Valid() && key !in Contents()
      requires |ks| == 2 * S && forall k :: k in ks ==> k in Contents() && hash(k) == hash(key)
      ensures !Placeable(key, status, b, s)
    {
      hide Layout, Snapshot, Sum, Unmigrated, IndexHash, SecondIndex, Candidate;
      Basics();
      if Placeable(key, status, b, s) {
        Visible(b);
        CollidingKeysFill(hash, S, buckets.hashpower, Snapshot(), ks, hash(key), b, s);
      }
    }

    /** No table holds less than the share 0 of its slots. */
    lemma NeverRefused(key: K, error: ResizeStatus)
      requires Valid() && minimumLoad == 0.0 && maximumHashpower.None?
      ensures !Refused(key, error)
    {
      hide Layout, Good, Snapshot, Contents, Sum, Unmigrated, IndexHash, SecondIndex, Stuck, Pow2;
      Basics();
    }

    lemma RefusedWhenSparse(key: K, error: ResizeStatus)
      requires Valid() && Refused(key, error)
      ensures error == LoadFactorTooLow ==>
        |Contents()| as real < minimumLoad * (Pow2(buckets.hashpower) * S) as real
    {
      hide Layout, Good, Snapshot, Contents, Sum, Unmigrated, IndexHash, SecondIndex, Stuck, Pow2;
    }

    /** uprase_fn: inserts exactly when the key is absent, otherwise applies fn to the value already there. */
    method UpraseFn(key: K, fn: V -> (V, bool), val: V) returns (r: Result<bool>)
      requires Valid() && Bounded()
      modifies this, buckets, oldBuckets
      ensures Valid()
      ensures r.Thrown? ==> Contents() == old(Contents()) && Refused(key, r.error)
      ensures r.Success? ==> (r.value <==> key !in old(Contents()))
      ensures r == Success(true) ==> Contents() == old(Contents())[key := val]
      ensures r == Success(false) ==>
        Contents() == (if fn(old(Contents())[key]).1 then old(Contents()) - {key}
                       else old(Contents())[key := fn(old(Contents())[key]).0])
    {
      hide Layout, Good, Snapshot, Contents, Sum, Unmigrated, IndexHash, SecondIndex, HasKey, Refused;
      var pos, b, s := CuckooInsertLoop(key);
      if pos.Thrown? {
        return Thrown(pos.error);
      }
      if pos.value == Ok {
        AddToBucket(b, s, key, val);
      } else {
        ApplyErase(b, s, key, fn);
      }
      return Success(pos.value == Ok);
    }

    /** insert: true exactly when the key was absent; a present value is never overwritten. */
    method Insert(key: K, val: V) returns (r: Result<bool>)
      requires Valid() && Bounded()
      modifies this, buckets, oldBuckets
      ensures Valid()
      ensures r.Success? ==> (r.value <==> key !in old(Contents()))
      ensures r.Thrown? ==> Refused(key, r.error)
      ensures r == Thrown(LoadFactorTooLow) ==>
        |Contents()| as real < minimumLoad * (Pow2(buckets.hashpower) * S) as real
      ensures Contents() == if r == Success(true) then old(Contents())[key := val] else old(Contents())
    {
      hide Layout, Good, Snapshot, Contents, Sum, Unmigrated, Refused;
      r := UpraseFn(key, v => (v, false), val);
      if r.Thrown? { RefusedWhenSparse(key, r.error); }
    }

    method InsertOrAssign(key: K, val: V) returns (r: Result<bool>)
      requires Valid() && Bounded()
      modifies this, buckets, oldBuckets
      ensures Valid()
      ensures r.Success? ==> (r.value <==> key !in old(Contents()))
      ensures r.Thrown? ==> Refused(key, r.error)
      ensures r == Thrown(LoadFactorTooLow) ==>
        |Contents()| as real < minimumLoad * (Pow2(buckets.hashpower) * S) as real
      ensures Contents() == if r.Success? then old(Contents())[key := val] else old(Contents())
    {
      hide Layout, Good, Snapshot, Contents, Sum, Unmigrated, Refused;
      r := UpraseFn(key, v => (val, false), val);
      if r.Thrown? { RefusedWhenSparse(key, r.error); }
    }

    /** cuckoo_clear: old buckets may stay allocated, but no stripe refers to them any more. */
    method Clear()
      requires Valid()
      modifies this, buckets
      ensures Valid() && Contents() == map[]
    {
      hide Good, Table.Contents, Sum, Unmigrated, Blank;
      buckets.Clear();
      remaining := 0;
      ResetLocks();
      BlankIsGood<K, V>(hash, S, buckets.hashpower);
      NonePending();
    }

    method ResetLocks()
      modifies this`locks
      ensures |locks| == old(|locks|) && forall l :: 0 <= l < |locks| ==> locks[l] == Lock(0, true)
      ensures Sum(locks) == 0 && Unmigrated(locks) == 0
    {
      var i := 0;
      while i < |locks|
        invariant 0 <= i <= |locks| == old(|locks|)
        invariant forall l :: 0 <= l < i ==> locks[l] == Lock(0, true)
      {
        locks := locks[i := Lock(0, true)];
        i := i + 1;
      }
      SumZero(locks);
      UnmigratedZero(locks);
    }
  }
}
