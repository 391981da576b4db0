/** Doubling: where move_bucket sends each entry, and the view of a half-migrated table. */
module Doubling {
  import opened Bits
  import opened Hashing
  import opened Table

  /** Entry x of old bucket b goes to the upper-half bucket b + 2^o. */
  predicate Mover<K, V>(h: K -> Hash, o: nat, b: nat, x: Slot<K, V>) {
    x.Full? &&
    var hash := h(x.key);
    || (b == IndexHash(o, hash) && IndexHash(o + 1, hash) == b + Pow2(o))
    || (b == SecondIndex(o, hash) && SecondIndex(o + 1, hash) == b + Pow2(o))
  }

  predicate Stayer<K, V>(h: K -> Hash, o: nat, b: nat, x: Slot<K, V>) {
    x.Full? && !Mover(h, o, b, x)
  }

  /** The movers among the first n slots, in order. */
  function Packed<K, V>(h: K -> Hash, o: nat, b: nat, bucket: Bucket<K, V>, n: nat): (r: Bucket<K, V>)
    requires n <= |bucket|
    ensures |r| <= n
  {
    if n == 0 then []
    else if Mover(h, o, b, bucket[n - 1]) then Packed(h, o, b, bucket, n - 1) + [bucket[n - 1]]
    else Packed(h, o, b, bucket, n - 1)
  }

  function Empties<K, V>(n: nat): (r: Bucket<K, V>)
    ensures |r| == n && forall i :: 0 <= i < n ==> r[i].Empty?
  {
    if n == 0 then [] else Empties(n - 1) + [Empty]
  }

  /** What bucket b has received after the first n slots: stayers keep their slots. */
  function Stayed<K, V>(h: K -> Hash, o: nat, b: nat, bucket: Bucket<K, V>, n: nat): (r: Bucket<K, V>)
    requires n <= |bucket|
    ensures |r| == |bucket|
    ensures forall s :: 0 <= s < |bucket| ==>
      r[s] == (if s < n && Stayer(h, o, b, bucket[s]) then bucket[s] else Empty)
  {
    if n == 0 then Empties(|bucket|)
    else
      var r := Stayed(h, o, b, bucket, n - 1);
      if Stayer(h, o, b, bucket[n - 1]) then r[n - 1 := bucket[n - 1]] else r
  }

  /** What bucket b + 2^o has received after the first n slots: movers take the first free slots. */
  function Pushed<K, V>(h: K -> Hash, o: nat, b: nat, bucket: Bucket<K, V>, n: nat): (r: Bucket<K, V>)
    requires n <= |bucket|
    ensures |r| == |bucket|
  {
    var p := Packed(h, o, b, bucket, n);
    p + Empties(|bucket| - |p|)
  }

  function StayPart<K, V>(h: K -> Hash, o: nat, b: nat, bucket: Bucket<K, V>): (r: Bucket<K, V>)
    ensures |r| == |bucket|
  {
    Stayed(h, o, b, bucket, |bucket|)
  }

  function MovePart<K, V>(h: K -> Hash, o: nat, b: nat, bucket: Bucket<K, V>): (r: Bucket<K, V>)
    ensures |r| == |bucket|
  {
    Pushed(h, o, b, bucket, |bucket|)
  }

  /** A stayer's slot in bucket b is still free when its turn comes, and only that slot is written. */
  lemma {:induction false} StayedStep<K, V>(h: K -> Hash, o: nat, b: nat, bucket: Bucket<K, V>, n: nat)
    requires n < |bucket|
    ensures Stayed(h, o, b, bucket, n)[n].Empty?
    ensures Stayed(h, o, b, bucket, n + 1) ==
      if Stayer(h, o, b, bucket[n]) then Stayed(h, o, b, bucket, n)[n := bucket[n]] else Stayed(h, o, b, bucket, n)
  {
  }

  /** A mover takes the first free slot of the upper bucket. */
  lemma {:induction false} PushedStep<K, V>(h: K -> Hash, o: nat, b: nat, bucket: Bucket<K, V>, n: nat)
    requires n < |bucket|
    ensures var j := |Packed(h, o, b, bucket, n)|;
      && Pushed(h, o, b, bucket, n)[j].Empty?
      && |Packed(h, o, b, bucket, n + 1)| == (if Mover(h, o, b, bucket[n]) then j + 1 else j)
      && Pushed(h, o, b, bucket, n + 1) ==
        (if Mover(h, o, b, bucket[n]) then Pushed(h, o, b, bucket, n)[j := bucket[n]] else Pushed(h, o, b, bucket, n))
  {
  }

  /** The old bucket that feeds new bucket b. */
  function OldOf(o: nat, b: nat): nat {
    if b < Pow2(o) then b else b - Pow2(o)
  }

  function SplitAt<K, V>(h: K -> Hash, o: nat, prior: Buckets<K, V>, b: nat): (r: Bucket<K, V>)
    requires OldOf(o, b) < |prior|
    ensures |r| == |prior[OldOf(o, b)]|
  {
    if b < Pow2(o) then StayPart(h, o, b, prior[b])
    else MovePart(h, o, b - Pow2(o), prior[b - Pow2(o)])
  }

  /** The whole table of hashpower o after doubling and migrating every bucket. */
  ghost function Doubled<K, V>(h: K -> Hash, o: nat, prior: Buckets<K, V>): (r: Buckets<K, V>)
    requires |prior| == Pow2(o)
    ensures |r| == Pow2(o + 1)
    ensures forall b :: 0 <= b < |r| ==> r[b] == SplitAt(h, o, prior, b)
  {
    DoubledUpTo(h, o, prior, Pow2(o + 1))
  }

  ghost function DoubledUpTo<K, V>(h: K -> Hash, o: nat, prior: Buckets<K, V>, n: nat): (r: Buckets<K, V>)
    requires |prior| == Pow2(o) && n <= Pow2(o + 1)
    ensures |r| == n && forall b :: 0 <= b < n ==> r[b] == SplitAt(h, o, prior, b)
  {
    if n == 0 then [] else DoubledUpTo(h, o, prior, n - 1) + [SplitAt(h, o, prior, n - 1)]
  }

  /** Packed slot j came from the mover whose rank is j. */
  lemma {:induction false} PackedSource<K, V>(h: K -> Hash, o: nat, b: nat, bucket: Bucket<K, V>, n: nat, j: nat)
    returns (s: nat)
    requires n <= |bucket| && j < |Packed(h, o, b, bucket, n)|
    ensures s < n && Mover(h, o, b, bucket[s]) && bucket[s] == Packed(h, o, b, bucket, n)[j]
    ensures |Packed(h, o, b, bucket, s)| == j
  {
    if Mover(h, o, b, bucket[n - 1]) && j == |Packed(h, o, b, bucket, n - 1)| {
      s := n - 1;
    } else {
      s := PackedSource(h, o, b, bucket, n - 1, j);
    }
  }

  lemma {:induction false} PackedTarget<K, V>(h: K -> Hash, o: nat, b: nat, bucket: Bucket<K, V>, n: nat, s: nat)
    requires s < n <= |bucket| && Mover(h, o, b, bucket[s])
    ensures var j := |Packed(h, o, b, bucket, s)|;
      j < |Packed(h, o, b, bucket, n)| && Packed(h, o, b, bucket, n)[j] == bucket[s]
  {
    if s < n - 1 { PackedTarget(h, o, b, bucket, n - 1, s); }
  }

  /** Where slot (b, s) of the old table ends up. */
  ghost function Target<K, V>(h: K -> Hash, o: nat, prior: Buckets<K, V>, b: nat, s: nat): (nat, nat)
    requires b < |prior| && s < |prior[b]|
  {
    if Mover(h, o, b, prior[b][s]) then (b + Pow2(o), |Packed(h, o, b, prior[b], s)|) else (b, s)
  }

  /** Every old entry is found, unchanged, at its target. */
  lemma {:induction false} SplitForward<K, V>(h: K -> Hash, o: nat, prior: Buckets<K, V>, b: nat, s: nat, k: K)
    requires |prior| == Pow2(o) && HasKey(prior, b, s, k)
    ensures var (c, t) := Target(h, o, prior, b, s);
      HasKey(Doubled(h, o, prior), c, t, k) && Doubled(h, o, prior)[c][t] == prior[b][s]
  {
    var (c, t) := Target(h, o, prior, b, s);
    assert Doubled(h, o, prior)[c] == SplitAt(h, o, prior, c);
    if Mover(h, o, b, prior[b][s]) {
      PackedTarget(h, o, b, prior[b], |prior[b]|, s);
    }
  }

  /** Every new entry is the target of an old entry. */
  lemma {:induction false} SplitBackward<K, V>(h: K -> Hash, o: nat, prior: Buckets<K, V>, c: nat, t: nat, k: K)
    returns (b: nat, s: nat)
    requires |prior| == Pow2(o) && HasKey(Doubled(h, o, prior), c, t, k)
    ensures HasKey(prior, b, s, k) && Target(h, o, prior, b, s) == (c, t)
    ensures Doubled(h, o, prior)[c][t] == prior[b][s]
  {
    var r := Doubled(h, o, prior);
    assert r[c] == SplitAt(h, o, prior, c);
    if c < Pow2(o) {
      b, s := c, t;
    } else {
      b := c - Pow2(o);
      s := PackedSource(h, o, b, prior[b], |prior[b]|, t);
    }
  }

  /** The bucket an entry is sent to is one of its candidates in the larger table. */
  lemma {:induction false} TargetIsCandidate<K, V>(h: K -> Hash, o: nat, prior: Buckets<K, V>, b: nat, s: nat)
    requires b < |prior| && s < |prior[b]| && prior[b][s].Full? && Candidate(o, h(prior[b][s].key), b)
    ensures Candidate(o + 1, h(prior[b][s].key), Target(h, o, prior, b, s).0)
  {
    CandidatesDouble(o, h(prior[b][s].key));
  }

  /** Doubling preserves placement, uniqueness and the abstract map. */
  lemma {:induction false} DoublingKeeps<K(!new), V>(h: K -> Hash, slots: nat, o: nat, prior: Buckets<K, V>)
    requires Good(h, slots, o, prior)
    ensures Good(h, slots, o + 1, Doubled(h, o, prior))
    ensures Contents(Doubled(h, o, prior)) == Contents(prior)
  {
    var r: Buckets<K, V> := Doubled(h, o, prior);
    forall c: nat, t: nat, k: K | HasKey(r, c, t, k)
      ensures r[c][t].partial == PartialKey(h(k)) && Candidate(o + 1, h(k), c)
    {
      var b, s := SplitBackward(h, o, prior, c, t, k);
      TargetIsCandidate(h, o, prior, b, s);
    }
    forall c: nat, t: nat, c': nat, t': nat, k: K | HasKey(r, c, t, k) && HasKey(r, c', t', k)
      ensures c == c' && t == t'
    {
      var b, s := SplitBackward(h, o, prior, c, t, k);
      var b', s' := SplitBackward(h, o, prior, c', t', k);
    }
    DoublingContents(h, o, prior);
  }

  lemma {:induction false} DoublingContents<K(!new), V>(h: K -> Hash, o: nat, prior: Buckets<K, V>)
    requires |prior| == Pow2(o) && Unique(prior) && Unique(Doubled(h, o, prior))
    ensures Contents(Doubled(h, o, prior)) == Contents(prior)
  {
    var r: Buckets<K, V>, m := Doubled(h, o, prior), Contents(prior);
    ContentsRepresents(prior);
    forall c: nat, t: nat, k: K | HasKey(r, c, t, k) ensures k in m && m[k] == r[c][t].value {
      var b, s := SplitBackward(h, o, prior, c, t, k);
    }
    forall k: K | k in m ensures exists c: nat, t: nat :: HasKey(r, c, t, k) {
      var b: nat, s: nat :| HasKey(prior, b, s, k);
      SplitForward(h, o, prior, b, s, k);
      assert HasKey(r, Target(h, o, prior, b, s).0, Target(h, o, prior, b, s).1, k);
    }
    RepresentsIsContents(r, m);
  }

  /** Bucket b of the migrated table. */
  ghost function ViewAt<K, V>(h: K -> Hash, hp: nat, cur: Buckets<K, V>, prior: Buckets<K, V>, pending: set<nat>,
      b: nat)
    : Bucket<K, V>
    requires b < |cur| && forall p :: p in pending ==> hp > 0 && p < |prior|
  {
    if hp > 0 && OldOf(hp - 1, b) in pending then SplitAt(h, hp - 1, prior, b) else cur[b]
  }

  ghost function ViewUpTo<K, V>(h: K -> Hash, hp: nat, cur: Buckets<K, V>, prior: Buckets<K, V>, pending: set<nat>,
      n: nat)
    : (r: Buckets<K, V>)
    requires n <= |cur| && forall p :: p in pending ==> hp > 0 && p < |prior|
    ensures |r| == n && forall b :: 0 <= b < n ==> r[b] == ViewAt(h, hp, cur, prior, pending, b)
  {
    if n == 0 then []
    else ViewUpTo(h, hp, cur, prior, pending, n - 1) + [ViewAt(h, hp, cur, prior, pending, n - 1)]
  }

  /** The migrated form of a table of hashpower hp whose old buckets in `pending` have not been moved yet. */
  ghost function View<K, V>(h: K -> Hash, hp: nat, cur: Buckets<K, V>, prior: Buckets<K, V>, pending: set<nat>)
    : (r: Buckets<K, V>)
    requires forall p :: p in pending ==> hp > 0 && p < |prior|
    ensures |r| == |cur| && forall b :: 0 <= b < |cur| ==> r[b] == ViewAt(h, hp, cur, prior, pending, b)
  {
    ViewUpTo(h, hp, cur, prior, pending, |cur|)
  }

  /** Writing a slot of a bucket that is not waiting to be migrated writes the same slot of the view. */
  lemma {:induction false} ViewPut<K, V>(h: K -> Hash, hp: nat, cur: Buckets<K, V>, prior: Buckets<K, V>,
      pending: set<nat>,
                                         b: nat, s: nat, x: Slot<K, V>)
    requires forall p :: p in pending ==> hp > 0 && p < |prior|
    requires b < |cur| && s < |cur[b]| && (hp > 0 ==> OldOf(hp - 1, b) !in pending)
    ensures View(h, hp, cur, prior, pending)[b] == cur[b]
    ensures View(h, hp, Put(cur, b, s, x), prior, pending) == Put(View(h, hp, cur, prior, pending), b, s, x)
  {
  }

  /** Every old bucket in `waiting` still has two empty destinations. */
  ghost predicate Untouched<K, V>(slots: nat, hp: nat, cur: Buckets<K, V>, waiting: set<nat>) {
    forall ob :: ob in waiting ==> Vacant(slots, hp, cur, ob)
  }

  ghost predicate Vacant<K, V>(slots: nat, hp: nat, cur: Buckets<K, V>, ob: nat) {
    && hp > 0 && ob < Pow2(hp - 1) && ob + Pow2(hp - 1) < |cur|
    && cur[ob] == Empties(slots) && cur[ob + Pow2(hp - 1)] == Empties(slots)
  }

  lemma {:induction false} VacantRange<K, V>(slots: nat, hp: nat, cur: Buckets<K, V>, ob: nat)
    requires Vacant(slots, hp, cur, ob)
    ensures hp > 0 && ob + Pow2(hp - 1) < |cur|
  {
  }

  /** cur after the first n slots of move_bucket(ob). */
  function MigratedTo<K, V>(h: K -> Hash, o: nat, cur: Buckets<K, V>, ob: nat, bucket: Bucket<K, V>,
      n: nat): (r: Buckets<K, V>)
    requires ob + Pow2(o) < |cur| && n <= |bucket|
    ensures |r| == |cur|
  {
    cur[ob := Stayed(h, o, ob, bucket, n)][ob + Pow2(o) := Pushed(h, o, ob, bucket, n)]
  }

  /** cur after move_bucket(ob). */
  function Migrate<K, V>(h: K -> Hash, o: nat, cur: Buckets<K, V>, prior: Buckets<K, V>, ob: nat): (r: Buckets<K, V>)
    requires ob < |prior| && ob + Pow2(o) < |cur|
    ensures |r| == |cur|
  {
    MigratedTo(h, o, cur, ob, prior[ob], |prior[ob]|)
  }

  /** One slot of move_bucket: the slot it writes is free, and writing it is the next step. */
  lemma {:induction false} MigrateStep<K, V>(h: K -> Hash, o: nat, cur: Buckets<K, V>, ob: nat,
      bucket: Bucket<K, V>, n: nat)
    requires ob + Pow2(o) < |cur| && n < |bucket|
    ensures var c, c' := MigratedTo(h, o, cur, ob, bucket, n), MigratedTo(h, o, cur, ob, bucket, n + 1);
      var up, j, x := ob + Pow2(o), |Packed(h, o, ob, bucket, n)|, bucket[n];
      && |c[ob]| == |bucket| == |c[up]| && c[ob][n].Empty? && c[up][j].Empty?
      && (Mover(h, o, ob, x) ==> c' == Put(c, up, j, x) && |Packed(h, o, ob, bucket, n + 1)| == j + 1)
      && (!Mover(h, o, ob, x) ==> |Packed(h, o, ob, bucket, n + 1)| == j)
      && (Stayer(h, o, ob, x) ==> c' == Put(c, ob, n, x))
      && (x.Empty? ==> c' == c)
  {
    StayedStep(h, o, ob, bucket, n);
    PushedStep(h, o, ob, bucket, n);
    var low, high, x := Stayed(h, o, ob, bucket, n), Pushed(h, o, ob, bucket, n), bucket[n];
    PutInPair(cur, ob, ob + Pow2(o), low, high, n, x);
    PutInPair(cur, ob, ob + Pow2(o), low, high, |Packed(h, o, ob, bucket, n)|, x);
  }

  lemma {:induction false} MigrateStart<K, V>(h: K -> Hash, slots: nat, hp: nat, cur: Buckets<K, V>, ob: nat,
      bucket: Bucket<K, V>)
    requires Vacant(slots, hp, cur, ob) && |bucket| == slots
    ensures MigratedTo(h, hp - 1, cur, ob, bucket, 0) == cur && |Packed(h, hp - 1, ob, bucket, 0)| == 0
  {
    assert Stayed(h, hp - 1, ob, bucket, 0) == Empties(slots) == Pushed(h, hp - 1, ob, bucket, 0);
  }

  /** Moving one pending bucket to its two destinations leaves the view as it was. */
  lemma {:induction false} ViewMigrate<K, V>(h: K -> Hash, slots: nat, hp: nat, cur: Buckets<K, V>,
      prior: Buckets<K, V>, pending: set<nat>, ob: nat)
    requires hp > 0 && Shape(cur, slots, hp) && Shape(prior, slots, hp - 1)
    requires forall p :: p in pending ==> p < |prior|
    requires ob in pending && Untouched(slots, hp, cur, pending)
    ensures var r := Migrate(h, hp - 1, cur, prior, ob);
      && Shape(r, slots, hp) && Untouched(slots, hp, r, pending - {ob})
      && View(h, hp, r, prior, pending - {ob}) == View(h, hp, cur, prior, pending)
  {
    var half := Pow2(hp - 1);
    assert Vacant(slots, hp, cur, ob);
    PairShape(cur, ob, ob + half, StayPart(h, hp - 1, ob, prior[ob]), MovePart(h, hp - 1, ob, prior[ob]), slots, hp);
    UntouchedMigrate(h, slots, hp, cur, prior, pending, ob);
    var r := Migrate(h, hp - 1, cur, prior, ob);
    var v, v' := View(h, hp, cur, prior, pending), View(h, hp, r, prior, pending - {ob});
    forall b: nat | b < |cur| ensures v'[b] == v[b] {
      MigrateElsewhere(h, hp - 1, cur, prior, ob, b);
    }
  }

  lemma {:induction false} MigrateElsewhere<K, V>(h: K -> Hash, o: nat, cur: Buckets<K, V>, prior: Buckets<K, V>,
      ob: nat, b: nat)
    requires ob < |prior| && ob < Pow2(o) && ob + Pow2(o) < |cur| && b < |cur|
    ensures Migrate(h, o, cur, prior, ob)[b] ==
      if OldOf(o, b) == ob && b < 2 * Pow2(o) then SplitAt(h, o, prior, b) else cur[b]
  {
  }

  lemma {:induction false} UntouchedMigrate<K, V>(h: K -> Hash, slots: nat, hp: nat, cur: Buckets<K, V>,
      prior: Buckets<K, V>,
                                                  waiting: set<nat>, ob: nat)
    requires hp > 0 && ob < |prior| && ob in waiting && Untouched(slots, hp, cur, waiting)
    ensures Vacant(slots, hp, cur, ob) && Untouched(slots, hp, Migrate(h, hp - 1, cur, prior, ob), waiting - {ob})
  {
    assert Vacant(slots, hp, cur, ob);
    forall b | b in waiting - {ob} ensures Vacant(slots, hp, Migrate(h, hp - 1, cur, prior, ob), b) {
      assert Vacant(slots, hp, cur, b);
    }
  }

  /** Writing elsewhere leaves waiting buckets' destinations empty. */
  lemma {:induction false} UntouchedPut<K, V>(slots: nat, hp: nat, cur: Buckets<K, V>, waiting: set<nat>,
                                              b: nat, s: nat, x: Slot<K, V>)
    requires Untouched(slots, hp, cur, waiting) && b < |cur| && s < |cur[b]|
    requires hp > 0 ==> OldOf(hp - 1, b) !in waiting
    ensures Untouched(slots, hp, Put(cur, b, s, x), waiting)
  {
    forall ob | ob in waiting ensures Vacant(slots, hp, Put(cur, b, s, x), ob) {
      assert Vacant(slots, hp, cur, ob);
    }
  }

  ghost function AllBelow(n: nat): (r: set<nat>)
    ensures forall p: nat :: p in r <==> p < n
  {
    if n == 0 then {} else AllBelow(n - 1) + {n - 1}
  }

  /** A freshly doubled table with every bucket pending already presents the doubled contents. */
  lemma {:induction false} ViewAllPending<K, V>(h: K -> Hash, hp: nat, cur: Buckets<K, V>, prior: Buckets<K, V>,
                                                pending: set<nat>)
    requires |cur| == Pow2(hp + 1) && |prior| == Pow2(hp)
    requires forall p: nat :: p in pending <==> p < |prior|
    ensures View(h, hp + 1, cur, prior, pending) == Doubled(h, hp, prior)
  {
  }

  lemma {:induction false} ViewNonePending<K, V>(h: K -> Hash, hp: nat, cur: Buckets<K, V>, prior: Buckets<K, V>)
    ensures View(h, hp, cur, prior, {}) == cur
  {
  }

  lemma {:induction false} VacantHasNone<K, V>(slots: nat, hp: nat, cur: Buckets<K, V>, pending: set<nat>, b: nat,
      s: nat)
    requires Untouched(slots, hp, cur, pending) && HasAt(cur, b, s) && cur[b][s].Full?
    ensures hp > 0 ==> OldOf(hp - 1, b) !in pending
  {
    forall ob | ob in pending ensures hp > 0 && OldOf(hp - 1, b) != ob { assert Vacant(slots, hp, cur, ob); }
  }

  /** A key with its value sits in a current slot, or in an old slot still waiting to be migrated. */
  ghost predicate Live<K(!new), V>(cur: Buckets<K, V>, prior: Buckets<K, V>, pending: set<nat>, k: K, v: V) {
    || (exists b: nat, s: nat :: HasKey(cur, b, s, k) && cur[b][s].value == v)
    || (exists b: nat, s: nat :: HasKey(prior, b, s, k) && prior[b][s].value == v && b in pending)
  }

  /** The view holds exactly the live slots of both bucket arrays. */
  lemma {:induction false} ViewIsLive<K(!new), V>(h: K -> Hash, slots: nat, hp: nat, cur: Buckets<K, V>,
      prior: Buckets<K, V>,
                                                  pending: set<nat>, k: K, v: V)
    requires Shape(cur, slots, hp) && Untouched(slots, hp, cur, pending)
    requires pending != {} ==> hp > 0 && Shape(prior, slots, hp - 1)
    requires forall p :: p in pending ==> hp > 0 && p < |prior|
    ensures var w := View(h, hp, cur, prior, pending);
      Live(cur, prior, pending, k, v) <==> exists c: nat, t: nat :: HasKey(w, c, t, k) && w[c][t].value == v
  {
    hide SplitAt, Mover, Packed, ViewUpTo, DoubledUpTo, Untouched;
    var w: Buckets<K, V> := View(h, hp, cur, prior, pending);
    if b: nat, s: nat :| HasKey(cur, b, s, k) && cur[b][s].value == v {
      VacantHasNone(slots, hp, cur, pending, b, s);
      assert HasKey(w, b, s, k);
    }
    if b: nat, s: nat :| HasKey(prior, b, s, k) && prior[b][s].value == v && b in pending {
      SplitForward(h, hp - 1, prior, b, s, k);
      var (c, t) := Target(h, hp - 1, prior, b, s);
      assert OldOf(hp - 1, c) == b && Pow2(hp) == 2 * Pow2(hp - 1);
      assert HasKey(w, c, t, k);
    }
    if c: nat, t: nat :| HasKey(w, c, t, k) && w[c][t].value == v {
      if hp > 0 && OldOf(hp - 1, c) in pending {
        assert HasKey(Doubled(h, hp - 1, prior), c, t, k);
        var b, s := SplitBackward(h, hp - 1, prior, c, t, k);
        assert OldOf(hp - 1, c) == b;
      }
    }
  }

  // ---- positions ----

  datatype Position = InCurrent(b: nat, s: nat) | InOld(b: nat, s: nat)

  ghost predicate LiveAt<K, V>(cur: Buckets<K, V>, prior: Buckets<K, V>, pending: set<nat>, p: Position, k: K) {
    match p
    case InCurrent(b, s) => HasKey(cur, b, s, k)
    case InOld(b, s) => HasKey(prior, b, s, k) && b in pending
  }

  /** The view's slot for a live position. */
  ghost function Shown<K, V>(h: K -> Hash, hp: nat, prior: Buckets<K, V>, p: Position): (nat, nat)
    requires p.InOld? ==> hp > 0 && HasAt(prior, p.b, p.s)
  {
    if p.InCurrent? then (p.b, p.s) else Target(h, hp - 1, prior, p.b, p.s)
  }

  lemma {:induction false} ShownHasKey<K, V>(h: K -> Hash, slots: nat, hp: nat, cur: Buckets<K, V>,
      prior: Buckets<K, V>,
                                             pending: set<nat>, p: Position, k: K)
    requires Shape(cur, slots, hp) && Untouched(slots, hp, cur, pending)
    requires pending != {} ==> hp > 0 && Shape(prior, slots, hp - 1)
    requires forall ob :: ob in pending ==> hp > 0 && ob < |prior|
    requires LiveAt(cur, prior, pending, p, k)
    ensures p.InOld? ==> hp > 0 && HasAt(prior, p.b, p.s)
    ensures var (c, t) := Shown(h, hp, prior, p);
      && HasKey(View(h, hp, cur, prior, pending), c, t, k)
      && (hp > 0 ==> (OldOf(hp - 1, c) in pending <==> p.InOld?)) && (p.InOld? ==> OldOf(hp - 1, c) == p.b)
  {
    hide SplitAt, Mover, Packed, ViewUpTo, DoubledUpTo, Untouched;
    if p.InCurrent? {
      VacantHasNone(slots, hp, cur, pending, p.b, p.s);
    } else {
      SplitForward(h, hp - 1, prior, p.b, p.s, k);
    }
  }

  lemma {:induction false} RankGrows<K, V>(h: K -> Hash, o: nat, b: nat, bucket: Bucket<K, V>, s: nat, n: nat)
    requires s < n <= |bucket| && Mover(h, o, b, bucket[s])
    ensures |Packed(h, o, b, bucket, s)| < |Packed(h, o, b, bucket, n)|
  {
    if n > s + 1 { RankGrows(h, o, b, bucket, s, n - 1); }
  }

  lemma {:induction false} TargetInjective<K, V>(h: K -> Hash, o: nat, prior: Buckets<K, V>, b: nat, s: nat, t: nat)
    requires HasAt(prior, b, s) && HasAt(prior, b, t) && Target(h, o, prior, b, s) == Target(h, o, prior, b, t)
    ensures s == t
  {
    hide Mover;
    if s < t && Mover(h, o, b, prior[b][s]) { RankGrows(h, o, b, prior[b], s, t); }
    if t < s && Mover(h, o, b, prior[b][t]) { RankGrows(h, o, b, prior[b], t, s); }
  }

  /** A key has at most one live position, and it is a candidate bucket of the array it is in. */
  lemma {:induction false} LiveUnique<K(!new), V>(h: K -> Hash, slots: nat, hp: nat, cur: Buckets<K, V>,
      prior: Buckets<K, V>,
                                                  pending: set<nat>, k: K, p: Position, q: Position)
    requires Shape(cur, slots, hp) && Untouched(slots, hp, cur, pending)
    requires pending != {} ==> hp > 0 && Shape(prior, slots, hp - 1)
    requires forall ob :: ob in pending ==> hp > 0 && ob < |prior|
    requires Placed(h, hp, View(h, hp, cur, prior, pending)) && Unique(View(h, hp, cur, prior, pending))
    requires LiveAt(cur, prior, pending, p, k) && LiveAt(cur, prior, pending, q, k)
    ensures p == q && (p.InCurrent? ==> Candidate(hp, h(k), p.b))
    ensures (p.InOld? ==> hp > 0 && Candidate(hp - 1, h(k), p.b))
  {
    hide View, Target, Untouched, Candidate;
    ShownHasKey(h, slots, hp, cur, prior, pending, p, k);
    ShownHasKey(h, slots, hp, cur, prior, pending, q, k);
    var (c, t) := Shown(h, hp, prior, p);
    var (d, u) := Shown(h, hp, prior, q);
    assert c == d && t == u;
    assert p.InOld? == q.InOld?;
    if p.InOld? {
      TargetInjective(h, hp - 1, prior, p.b, p.s, q.s);
      CandidateBelow(hp - 1, h(k), Shown(h, hp, prior, p).0);
    }
  }

  /** Dropping the top bit of a candidate gives a candidate of the smaller table. */
  lemma {:induction false} CandidateBelow(o: nat, hash: Hash, c: nat)
    requires Candidate(o + 1, hash, c)
    ensures Candidate(o, hash, OldOf(o, c))
  {
    CandidatesDouble(o, hash);
  }
}
