/** The cuckoo table as a value shared by threads, and the effect of each lock-protected section on it. */
module SharedTable {
  import opened Common
  import opened Bits
  import opened Hashing
  import opened Table
  import opened Doubling
  import opened Container
  import opened Stripes

  /** Hash function, slots per bucket, log2 of the number of stripes and minimum load factor. */
  datatype Config<!K> = Config(h: K -> Hash, S: nat, lb: nat, mlf: real)

  datatype Tab<K, V> = Tab(hp: nat, cur: Buckets<K, V>, prior: Buckets<K, V>, locks: seq<Lock>, remaining: int)

  function Stripe<K>(c: Config<K>, b: nat): (l: nat)
    ensures l < Pow2(c.lb)
  {
    LockInd(c.lb, b)
  }

  ghost predicate StripeMigrated<K, V>(c: Config<K>, t: Tab<K, V>, b: nat) {
    Stripe(c, b) < |t.locks| ==> t.locks[Stripe(c, b)].isMigrated
  }

  ghost function Pending<K, V>(c: Config<K>, t: Tab<K, V>): set<nat> {
    set ob: nat | ob < |t.prior| && !StripeMigrated(c, t, ob)
  }

  ghost predicate AllMigrated(locks: seq<Lock>) {
    forall l :: 0 <= l < |locks| ==> locks[l].isMigrated
  }

  /** At least one bucket per stripe, and un-migrated stripes only while a doubling is half done. */
  ghost predicate Layout<K, V>(c: Config<K>, t: Tab<K, V>) {
    && 1 <= c.S <= 8 && c.lb <= t.hp && Shape(t.cur, c.S, t.hp) && |t.locks| == Pow2(c.lb)
    && (AllMigrated(t.locks) || (c.lb < t.hp && Shape(t.prior, c.S, t.hp - 1)))
    && Untouched(c.S, t.hp, t.cur, Pending(c, t))
  }

  /** The table once every stripe is migrated. */
  ghost function Snap<K, V>(c: Config<K>, t: Tab<K, V>): (r: Buckets<K, V>)
    requires Layout(c, t)
    ensures |r| == |t.cur|
  {
    View(c.h, t.hp, t.cur, t.prior, Pending(c, t))
  }

  ghost function Held<K, V>(c: Config<K>, t: Tab<K, V>): map<K, V>
    requires Layout(c, t)
  {
    Contents(Snap(c, t))
  }

  ghost predicate TabOk<K(!new), V>(c: Config<K>, t: Tab<K, V>) {
    && Layout(c, t) && Good(c.h, c.S, t.hp, Snap(c, t))
    && t.remaining == Unmigrated(t.locks) && Sum(t.locks) == |Held(c, t)|
  }

  // ---- migration ----

  /** The current buckets after stripe l has been migrated. */
  ghost function Refreshed<K, V>(c: Config<K>, t: Tab<K, V>, l: nat, n: nat): (r: Buckets<K, V>)
    requires Layout(c, t) && n <= |t.cur|
    ensures |r| == n
    ensures forall b :: 0 <= b < n ==> r[b] == (if Stripe(c, b) == l then Snap(c, t)[b] else t.cur[b])
  {
    hide Untouched, ViewUpTo, View, Shape;
    if n == 0 then []
    else Refreshed(c, t, l, n - 1) + [if Stripe(c, n - 1) == l then Snap(c, t)[n - 1] else t.cur[n - 1]]
  }

  /** rehash_lock<kIsLazy>(l). */
  ghost function MigrateStripe<K, V>(c: Config<K>, t: Tab<K, V>, l: nat): Tab<K, V>
    requires Layout(c, t) && l < |t.locks|
  {
    if t.locks[l].isMigrated then t
    else
      Tab(t.hp, Refreshed(c, t, l, |t.cur|), if t.remaining == 1 then [] else t.prior,
          t.locks[l := t.locks[l].(isMigrated := true)], t.remaining - 1)
  }

  /** A migrated stripe's buckets can be read in place. */
  lemma {:induction false} Visible<K, V>(c: Config<K>, t: Tab<K, V>, b: nat)
    requires Layout(c, t) && b < |t.cur| && StripeMigrated(c, t, b)
    ensures Snap(c, t)[b] == t.cur[b] && |t.cur[b]| == c.S
    ensures t.hp > 0 ==> OldOf(t.hp - 1, b) !in Pending(c, t)
  {
    hide Untouched, SplitAt, ViewUpTo;
    if t.hp > 0 && OldOf(t.hp - 1, b) in Pending(c, t) {
      SameStripe(c, t.hp, b);
    }
  }

  /** Both destinations of an old bucket carry its stripe. */
  lemma {:induction false} SameStripe<K>(c: Config<K>, hp: nat, b: nat)
    requires c.lb < hp
    ensures Stripe(c, OldOf(hp - 1, b)) == Stripe(c, b)
  {
    if b >= Pow2(hp - 1) { StripeOfUpperHalf(c.lb, hp - 1, b - Pow2(hp - 1)); }
  }

  lemma {:induction false} MigratePending<K, V>(c: Config<K>, t: Tab<K, V>, l: nat)
    requires Layout(c, t) && l < |t.locks| && t.remaining == Unmigrated(t.locks)
    ensures Pending(c, MigrateStripe(c, t, l)) == set ob: nat | ob in Pending(c, t) && Stripe(c, ob) != l
    ensures MigrateStripe(c, t, l).remaining == Unmigrated(MigrateStripe(c, t, l).locks)
  {
    hide Unmigrated, Refreshed, Untouched, Shape;
    var t' := MigrateStripe(c, t, l);
    if !t.locks[l].isMigrated {
      UnmigratedUpdate(t.locks, l, t'.locks[l]);
      UnmigratedZero(t'.locks);
      forall ob: nat | ob in Pending(c, t) && Stripe(c, ob) != l ensures ob in Pending(c, t') {
        assert !t'.locks[Stripe(c, ob)].isMigrated;
      }
    }
  }

  lemma {:induction false} MigrateLayout<K, V>(c: Config<K>, t: Tab<K, V>, l: nat)
    requires Layout(c, t) && l < |t.locks| && t.remaining == Unmigrated(t.locks)
    ensures Layout(c, MigrateStripe(c, t, l))
  {
    hide Unmigrated, Snap, Vacant, LockInd, Shape;
    var t' := MigrateStripe(c, t, l);
    if !t.locks[l].isMigrated {
      MigratePending(c, t, l);
      UnmigratedZero(t'.locks);
      RefreshedShape(c, t, l);
      forall ob | ob in Pending(c, t') ensures Vacant(c.S, t.hp, t'.cur, ob) {
        RefreshedVacant(c, t, l, ob);
      }
    }
  }

  lemma {:induction false} RefreshedVacant<K, V>(c: Config<K>, t: Tab<K, V>, l: nat, ob: nat)
    requires Layout(c, t) && c.lb < t.hp && Stripe(c, ob) != l && ob in Pending(c, t)
    ensures Vacant(c.S, t.hp, Refreshed(c, t, l, |t.cur|), ob)
  {
    hide Snap, LockInd, Empties;
    assert Vacant(c.S, t.hp, t.cur, ob);
    SameStripe(c, t.hp, ob + Pow2(t.hp - 1));
  }

  lemma {:induction false} RefreshedShape<K, V>(c: Config<K>, t: Tab<K, V>, l: nat)
    requires Layout(c, t)
    ensures Shape(Refreshed(c, t, l, |t.cur|), c.S, t.hp)
  {
    hide View, Untouched, Empties;
    forall b: nat | b < |t.cur| ensures |Snap(c, t)[b]| == c.S {
      SnapWidth(c, t, b);
    }
  }

  lemma {:induction false} SnapWidth<K, V>(c: Config<K>, t: Tab<K, V>, b: nat)
    requires Layout(c, t) && b < |t.cur|
    ensures |Snap(c, t)[b]| == c.S
  {
  }

  /** Migrating a stripe changes neither the migrated view nor any answer, and keeps the table's invariant. */
  lemma {:induction false} MigrateKeeps<K(!new), V>(c: Config<K>, t: Tab<K, V>, l: nat)
    requires TabOk(c, t) && l < |t.locks|
    ensures var t' := MigrateStripe(c, t, l);
      && TabOk(c, t') && Snap(c, t') == Snap(c, t) && Held(c, t') == Held(c, t) && t'.hp == t.hp
      && t'.locks[l].isMigrated
  {
    hide Good, Contents, Unmigrated, Sum, Untouched, Shape;
    var t' := MigrateStripe(c, t, l);
    MigrateLayout(c, t, l);
    MigratePending(c, t, l);
    if !t.locks[l].isMigrated {
      SumUpdate(t.locks, l, t'.locks[l]);
      MigrateSnap(c, t, l);
    }
  }

  lemma {:induction false} MigrateSnap<K, V>(c: Config<K>, t: Tab<K, V>, l: nat)
    requires Layout(c, t) && l < |t.locks| && t.remaining == Unmigrated(t.locks) && !t.locks[l].isMigrated
    requires Layout(c, MigrateStripe(c, t, l))
    ensures Snap(c, MigrateStripe(c, t, l)) == Snap(c, t)
  {
    hide Unmigrated, Untouched, SplitAt, Shape, ViewUpTo, LockInd;
    var t' := MigrateStripe(c, t, l);
    MigratePending(c, t, l);
    UnmigratedUpdate(t.locks, l, t'.locks[l]);
    UnmigratedZero(t'.locks);
    forall b: nat | b < |t.cur| ensures Snap(c, t')[b] == Snap(c, t)[b] {
      SameStripe(c, t.hp, b);
    }
  }

  /** What other stripes' owners rely on: their buckets and flags are left alone. */
  ghost predicate Untouching<K, V>(c: Config<K>, t: Tab<K, V>, t': Tab<K, V>, ls: set<nat>) {
    && t'.hp == t.hp && |t'.cur| == |t.cur| && |t'.locks| == |t.locks|
    && (forall b: nat :: b < |t.cur| && Stripe(c, b) !in ls ==> t'.cur[b] == t.cur[b])
    && (forall l :: 0 <= l < |t.locks| && t.locks[l].isMigrated ==> t'.locks[l].isMigrated)
  }

  /** Migrating a stripe touches no other stripe's buckets and un-migrates nothing. */
  lemma {:induction false} MigrateUntouching<K, V>(c: Config<K>, t: Tab<K, V>, l: nat)
    requires Layout(c, t) && l < |t.locks|
    ensures Untouching(c, t, MigrateStripe(c, t, l), {l})
  {
  }

  lemma {:induction false} UntouchingThen<K, V>(c: Config<K>, t: Tab<K, V>, t1: Tab<K, V>, t2: Tab<K, V>,
      ls: set<nat>, ms: set<nat>)
    requires Untouching(c, t, t1, ls) && Untouching(c, t1, t2, ms)
    ensures Untouching(c, t, t2, ls + ms)
  {
  }

  // ---- writes under held stripes ----

  /** Writes one slot and adjusts the stripe's counter. */
  ghost function Store<K, V>(c: Config<K>, t: Tab<K, V>, b: nat, s: nat, x: Slot<K, V>, delta: int): Tab<K, V>
    requires b < |t.cur| && s < |t.cur[b]| && Stripe(c, b) < |t.locks|
  {
    var l := Stripe(c, b);
    t.(cur := Put(t.cur, b, s, x), locks := t.locks[l := t.locks[l].(elemCounter := t.locks[l].elemCounter + delta)])
  }

  lemma {:induction false} StoreLayout<K, V>(c: Config<K>, t: Tab<K, V>, b: nat, s: nat, x: Slot<K, V>, delta: int)
    requires Layout(c, t) && b < |t.cur| && s < c.S && StripeMigrated(c, t, b)
    ensures s < |t.cur[b]|
    ensures Layout(c, Store(c, t, b, s, x, delta)) && Snap(c, Store(c, t, b, s, x, delta)) == Put(Snap(c, t), b, s, x)
  {
    hide Untouched, View, SplitAt;
    var t' := Store(c, t, b, s, x, delta);
    Visible(c, t, b);
    assert Pending(c, t') == Pending(c, t);
    UntouchedPut(c.S, t.hp, t.cur, Pending(c, t), b, s, x);
    ViewPut(c.h, t.hp, t.cur, t.prior, Pending(c, t), b, s, x);
  }

  lemma {:induction false} StoreCounts<K, V>(c: Config<K>, t: Tab<K, V>, b: nat, s: nat, x: Slot<K, V>, delta: int)
    requires b < |t.cur| && s < |t.cur[b]| && Stripe(c, b) < |t.locks|
    ensures Sum(Store(c, t, b, s, x, delta).locks) == Sum(t.locks) + delta
    ensures Unmigrated(Store(c, t, b, s, x, delta).locks) == Unmigrated(t.locks)
  {
    hide Sum, Unmigrated;
    var l := Stripe(c, b);
    var y := t.locks[l].(elemCounter := t.locks[l].elemCounter + delta);
    SumUpdate(t.locks, l, y);
    UnmigratedUpdate(t.locks, l, y);
  }

  lemma {:induction false} StoreUntouching<K, V>(c: Config<K>, t: Tab<K, V>, b: nat, s: nat, x: Slot<K, V>, delta: int)
    requires b < |t.cur| && s < |t.cur[b]| && Stripe(c, b) < |t.locks|
    ensures Untouching(c, t, Store(c, t, b, s, x, delta), {Stripe(c, b)})
  {
  }

  /** add_to_bucket. */
  lemma {:induction false} StoreAdds<K(!new), V>(c: Config<K>, t: Tab<K, V>, b: nat, s: nat, k: K, v: V)
    requires TabOk(c, t) && OpenSlot(t.cur, b, s) && StripeMigrated(c, t, b)
    requires Candidate(t.hp, c.h(k), b) && k !in Held(c, t)
    ensures Stripe(c, b) < |t.locks|
    ensures var t' := Store(c, t, b, s, Full(PartialKey(c.h(k)), k, v), 1);
      TabOk(c, t') && Held(c, t') == Held(c, t)[k := v]
  {
    hide Good, Contents, Sum, Unmigrated, View, Untouched, PartialKey, Candidate;
    var x := Full(PartialKey(c.h(k)), k, v);
    Visible(c, t, b);
    StoreLayout(c, t, b, s, x, 1);
    StoreCounts(c, t, b, s, x, 1);
    AddEntry(c.h, c.S, t.hp, Snap(c, t), b, s, k, v);
  }

  /** del_from_bucket. */
  lemma {:induction false} StoreErases<K(!new), V>(c: Config<K>, t: Tab<K, V>, b: nat, s: nat, k: K)
    requires TabOk(c, t) && HasKey(t.cur, b, s, k) && StripeMigrated(c, t, b)
    ensures Stripe(c, b) < |t.locks| && k in Held(c, t)
    ensures var t' := Store(c, t, b, s, Empty, -1); TabOk(c, t') && Held(c, t') == Held(c, t) - {k}
  {
    hide Good, Contents, Sum, Unmigrated, View, Untouched;
    Visible(c, t, b);
    StoreLayout(c, t, b, s, Empty, -1);
    StoreCounts(c, t, b, s, Empty, -1);
    EraseEntry(c.h, c.S, t.hp, Snap(c, t), b, s, k);
  }

  /** Assigning through the mapped reference. */
  lemma {:induction false} StoreUpdates<K(!new), V>(c: Config<K>, t: Tab<K, V>, b: nat, s: nat, k: K, v: V)
    requires TabOk(c, t) && HasKey(t.cur, b, s, k) && StripeMigrated(c, t, b)
    ensures Stripe(c, b) < |t.locks| && k in Held(c, t)
    ensures var t' := Store(c, t, b, s, t.cur[b][s].(value := v), 0); TabOk(c, t') && Held(c, t') == Held(c, t)[k := v]
  {
    hide Good, Contents, Sum, Unmigrated, View, Untouched;
    Visible(c, t, b);
    var x := t.cur[b][s].(value := v);
    StoreLayout(c, t, b, s, x, 0);
    StoreCounts(c, t, b, s, x, 0);
    UpdateEntry(c.h, c.S, t.hp, Snap(c, t), b, s, k, v);
  }

  /** One displacement of cuckoopath_move. Counters stay where they are, so they drift. */
  ghost function Kick<K, V>(c: Config<K>, t: Tab<K, V>, b: nat, s: nat, d: nat, u: nat): Tab<K, V>
    requires HasAt(t.cur, b, s) && HasAt(t.cur, d, u)
  {
    t.(cur := Displace(t.cur, b, s, d, u))
  }

  lemma {:induction false} KickKeeps<K(!new), V>(c: Config<K>, t: Tab<K, V>, b: nat, s: nat, d: nat, u: nat)
    requires TabOk(c, t) && HasAt(t.cur, b, s) && t.cur[b][s].Full? && OpenSlot(t.cur, d, u)
    requires StripeMigrated(c, t, b) && StripeMigrated(c, t, d)
    requires d == AltIndex(t.hp, PartialKey(c.h(t.cur[b][s].key)), b)
    ensures TabOk(c, Kick(c, t, b, s, d, u)) && Held(c, Kick(c, t, b, s, d, u)) == Held(c, t)
    ensures HasAt(Snap(c, t), b, s) && HasAt(Snap(c, t), d, u)
    ensures Snap(c, Kick(c, t, b, s, d, u)) == Displace(Snap(c, t), b, s, d, u)
  {
    hide Good, Contents, Sum, Unmigrated, View, Untouched, AltIndex, PartialKey;
    Visible(c, t, b);
    Visible(c, t, d);
    PartialAt(c, t, b, s);
    DisplaceKeeps(c.h, c.S, t.hp, Snap(c, t), b, s, d, u);
    var x := t.cur[b][s];
    StoreLayout(c, t, d, u, x, 0);
    var mid := Store(c, t, d, u, x, 0);
    StoreLayout(c, mid, b, s, Empty, 0);
    KickIsTwoStores(c, t, b, s, d, u);
  }

  lemma {:induction false} PartialAt<K(!new), V>(c: Config<K>, t: Tab<K, V>, b: nat, s: nat)
    requires TabOk(c, t) && HasAt(t.cur, b, s) && t.cur[b][s].Full? && StripeMigrated(c, t, b)
    ensures t.cur[b][s].partial == PartialKey(c.h(t.cur[b][s].key)) && Candidate(t.hp, c.h(t.cur[b][s].key), b)
  {
    hide Contents, Sum, Unmigrated, View, Untouched, PartialKey, Candidate, Unique;
    Visible(c, t, b);
    assert HasKey(Snap(c, t), b, s, t.cur[b][s].key);
  }

  lemma {:induction false} KickIsTwoStores<K, V>(c: Config<K>, t: Tab<K, V>, b: nat, s: nat, d: nat, u: nat)
    requires HasAt(t.cur, b, s) && HasAt(t.cur, d, u) && |t.locks| == Pow2(c.lb)
    ensures Store(c, Store(c, t, d, u, t.cur[b][s], 0), b, s, Empty, 0) == Kick(c, t, b, s, d, u)
  {
    var mid := Store(c, t, d, u, t.cur[b][s], 0);
    assert mid.locks == t.locks;
  }

  lemma {:induction false} KickUntouching<K, V>(c: Config<K>, t: Tab<K, V>, b: nat, s: nat, d: nat, u: nat)
    requires HasAt(t.cur, b, s) && HasAt(t.cur, d, u)
    ensures Untouching(c, t, Kick(c, t, b, s, d, u), {Stripe(c, b), Stripe(c, d)})
  {
  }

  // ---- looking up under held stripes ----

  /** try_read_from_bucket from slot i on. */
  function Scan<K(==), V>(bucket: Bucket<K, V>, partial: nat, k: K, i: nat): (r: Option<nat>)
    requires i <= |bucket|
    ensures r.Some? ==> i <= r.value < |bucket| && bucket[r.value].Full? && bucket[r.value].key == k
    ensures r.None? ==> forall s :: i <= s < |bucket| && bucket[s].Full? && bucket[s].key == k ==>
      bucket[s].partial != partial
    decreases |bucket| - i
  {
    if i == |bucket| then None
    else if bucket[i].Full? && bucket[i].partial == partial && bucket[i].key == k then Some(i)
    else Scan(bucket, partial, k, i + 1)
  }

  /** The last empty slot among the first n, as try_find_insert_bucket leaves it. */
  function LastEmpty<K, V>(bucket: Bucket<K, V>, n: nat): (r: Option<nat>)
    requires n <= |bucket|
    ensures r.Some? ==> r.value < n && bucket[r.value].Empty?
  {
    if n == 0 then None else if bucket[n - 1].Empty? then Some(n - 1) else LastEmpty(bucket, n - 1)
  }

  /** cuckoo_find. */
  function Locate<K(==), V>(c: Config<K>, t: Tab<K, V>, k: K): Option<(nat, nat)>
    requires |t.cur| == Pow2(t.hp)
  {
    var i1, i2, p := IndexHash(t.hp, c.h(k)), SecondIndex(t.hp, c.h(k)), PartialKey(c.h(k));
    match Scan(t.cur[i1], p, k, 0)
    case Some(s) => Some((i1, s))
    case None =>
      match Scan(t.cur[i2], p, k, 0)
      case Some(s) => Some((i2, s))
      case None => None
  }

  /** With both stripes migrated, two buckets decide membership in the abstract map. */
  lemma {:induction false} LocateDecides<K(!new), V>(c: Config<K>, t: Tab<K, V>, k: K)
    requires TabOk(c, t) && StripeMigrated(c, t, IndexHash(t.hp, c.h(k)))
    requires StripeMigrated(c, t, SecondIndex(t.hp, c.h(k)))
    ensures match Locate(c, t, k)
      case None => k !in Held(c, t)
      case Some((b, s)) =>
        && HasKey(t.cur, b, s, k) && (b == IndexHash(t.hp, c.h(k)) || b == SecondIndex(t.hp, c.h(k)))
        && k in Held(c, t) && Held(c, t)[k] == t.cur[b][s].value
  {
    hide Contents, Sum, Unmigrated, View, Untouched, PartialKey, IndexHash, SecondIndex, Scan, Unique;
    var i1, i2 := IndexHash(t.hp, c.h(k)), SecondIndex(t.hp, c.h(k));
    Visible(c, t, i1);
    Visible(c, t, i2);
    ContentsRepresents(Snap(c, t));
    if k in Held(c, t) {
      var b: nat, s: nat :| HasKey(Snap(c, t), b, s, k);
      assert HasKey(t.cur, b, s, k);
    }
    if Locate(c, t, k).Some? {
      var (b, s) := Locate(c, t, k).value;
      assert HasKey(Snap(c, t), b, s, k);
    }
  }

  // ---- whole-table sections ----

  ghost function Unflagged(locks: seq<Lock>): (r: seq<Lock>)
    ensures |r| == |locks| && Sum(r) == Sum(locks) && Unmigrated(r) == |locks|
    ensures forall l :: 0 <= l < |r| ==> !r[l].isMigrated
  {
    if locks == [] then []
    else
      var n := |locks| - 1;
      var r := Unflagged(locks[..n]) + [locks[n].(isMigrated := false)];
      assert r[..n] == Unflagged(locks[..n]);
      r
  }

  /** cuckoo_fast_double: finish the migration, keep it as the old buckets and start empty at twice the size. */
  ghost function Double<K, V>(c: Config<K>, t: Tab<K, V>): Tab<K, V>
    requires Layout(c, t)
  {
    Tab(t.hp + 1, Blank(c.S, t.hp + 1), Snap(c, t), Unflagged(t.locks), |t.locks|)
  }

  lemma {:induction false} DoubleKeeps<K(!new), V>(c: Config<K>, t: Tab<K, V>)
    requires TabOk(c, t)
    ensures TabOk(c, Double(c, t)) && Held(c, Double(c, t)) == Held(c, t)
  {
    hide Good, Contents, Sum, Unmigrated, View, Blank, Doubled, Unflagged;
    var t' := Double(c, t);
    GoodShape(c, t);
    DoublingKeeps(c.h, c.S, t.hp, Snap(c, t));
    forall ob: nat ensures ob in Pending(c, t') <==> ob < |t'.prior| { }
    BlankUntouched<K, V>(c.S, t.hp + 1, Pending(c, t'));
    BlankShape<K, V>(c.S, t.hp + 1);
    ViewAllPending(c.h, t.hp, t'.cur, t'.prior, Pending(c, t'));
  }

  lemma {:induction false} GoodShape<K(!new), V>(c: Config<K>, t: Tab<K, V>)
    requires TabOk(c, t)
    ensures Shape(Snap(c, t), c.S, t.hp)
  {
  }

  /** cuckoo_clear. */
  ghost function Cleared<K, V>(c: Config<K>, t: Tab<K, V>): Tab<K, V>
    requires Layout(c, t)
  {
    t.(cur := Blank(c.S, t.hp), locks := Zeroed(|t.locks|), remaining := 0)
  }

  ghost function Zeroed(n: nat): (r: seq<Lock>)
    ensures |r| == n && Sum(r) == 0 && Unmigrated(r) == 0 && forall l :: 0 <= l < n ==> r[l] == Lock(0, true)
  {
    if n == 0 then []
    else
      var r := Zeroed(n - 1) + [Lock(0, true)];
      assert r[..n - 1] == Zeroed(n - 1);
      r
  }

  lemma {:induction false} ClearedEmpty<K(!new), V>(c: Config<K>, t: Tab<K, V>)
    requires TabOk(c, t)
    ensures TabOk(c, Cleared(c, t)) && Held(c, Cleared(c, t)) == map[]
  {
    hide Good, Contents, Sum, Unmigrated, View, Blank;
    var t' := Cleared(c, t);
    BlankIsGood<K, V>(c.h, c.S, t.hp);
    BlankShape<K, V>(c.S, t.hp);
    assert Pending(c, t') == {};
    ViewNonePending(c.h, t.hp, t'.cur, t'.prior);
  }
}
