/** What single steps of the concurrent table answer and leave in its slots, and what a thread achieves alone. */
module ConcurrentLaws {
  import opened Common
  import opened Bits
  import opened Hashing
  import opened Table
  import opened Doubling
  import opened Container
  import opened Stripes
  import opened Sizing
  import opened Paths
  import opened Displacement
  import opened SharedTable
  import opened Concurrent

  // ---- answers, told by the slots ----

  /** Some live slot, in the current buckets or in old ones still to be migrated, holds k with v. */
  ghost predicate InSlots<K(!new), V>(c: Config<K>, t: Tab<K, V>, k: K, v: V) {
    Live(t.cur, t.prior, Pending(c, t), k, v)
  }

  ghost predicate KeyInSlots<K(!new), V(!new)>(c: Config<K>, t: Tab<K, V>, k: K) {
    exists v :: InSlots(c, t, k, v)
  }

  lemma {:induction false} SlotsAreMap<K(!new), V(!new)>(c: Config<K>, s: State<K, V>, k: K)
    requires Inv(c, s)
    ensures forall v :: InSlots(c, s.tab, k, v) <==> k in Replay(s.log) && Replay(s.log)[k] == v
    ensures KeyInSlots(c, s.tab, k) <==> k in Replay(s.log)
  {
    hide Live, TabOk, Exclusive, ThreadOk, Legal, Replay, Held;
    forall v ensures InSlots(c, s.tab, k, v) <==> k in Replay(s.log) && Replay(s.log)[k] == v {
      HeldIsLive(c, s.tab, k, v);
    }
    if k in Replay(s.log) { assert InSlots(c, s.tab, k, Replay(s.log)[k]); }
  }

  /**
   * What an answer means for the slots of the table, before and after the step that gives it: a find reports the
   * value in the slots; a successful insert or update leaves exactly its value for its key, an erase nothing, and no
   * other key is affected; the result tells whether the key was there before.
   */
  lemma {:induction false} AnswersInSlots<K(!new), V(!new)>(c: Config<K>, s: State<K, V>, step: Step<K, V>,
      s': State<K, V>, j: K, w: V)
    requires Inv(c, s) && StepTo(c, s, step, s') && s'.log != s.log
    ensures |s'.log| == |s.log| + 1
    ensures var e := s'.log[|s.log|];
      match e.op
      case Find(k) =>
        && (e.ret == Got(Some(w)) <==> InSlots(c, s.tab, k, w)) && (e.ret == Got(None) <==> !KeyInSlots(c, s.tab, k))
        && (InSlots(c, s'.tab, j, w) <==> InSlots(c, s.tab, j, w))
      case Insert(k, v) =>
        && (e.ret.Did? ==> (e.ret.ok <==> !KeyInSlots(c, s.tab, k)))
        && (InSlots(c, s'.tab, j, w) <==> if e.ret == Did(true) && j == k then w == v else InSlots(c, s.tab, j, w))
      case Erase(k) =>
        && e.ret == Did(KeyInSlots(c, s.tab, k))
        && (InSlots(c, s'.tab, j, w) <==> j != k && InSlots(c, s.tab, j, w))
      case Update(k, v) =>
        && e.ret == Did(KeyInSlots(c, s.tab, k))
        && (InSlots(c, s'.tab, j, w) <==> if e.ret.ok && j == k then w == v else InSlots(c, s.tab, j, w))
      case Clear => !InSlots(c, s'.tab, j, w)
  {
    hide Live, TabOk, Exclusive, ThreadOk, Held, Result, Commit, Histories, InSlots, KeyInSlots, Sparse;
    EffectInsideCall(c, s, step, s');
    StepToKeepsInv(c, s, step, s');
    var log := s'.log;
    assert log[..|log| - 1] == s.log;
    SlotsAreMap(c, s', j);
    SlotsAreMap(c, s, j);
    var e := log[|s.log|];
    if !e.op.Clear? { SlotsAreMap(c, s, e.op.k); }
  }

  // ---- one section of a path walk ----

  /** In the migrated view the recorded entry can go to the recorded slot. */
  ghost predicate Possible<K, V>(c: Config<K>, m: Buckets<K, V>, from: CuckooRecord, to: CuckooRecord) {
    && OpenSlot(m, to.bucket, to.slot) && HasAt(m, from.bucket, from.slot)
    && m[from.bucket][from.slot].Full? && c.h(m[from.bucket][from.slot].key) == from.hash
  }

  /** Two buckets that can be read in place offer what the migrated view offers. */
  lemma {:induction false} SeenInPlace<K, V>(c: Config<K>, t: Tab<K, V>, from: CuckooRecord, to: CuckooRecord)
    requires Layout(c, t) && from.bucket < |t.cur| && to.bucket < |t.cur|
    requires StripeMigrated(c, t, from.bucket) && StripeMigrated(c, t, to.bucket)
    ensures Possible(c, Snap(c, t), from, to) <==> Possible(c, t.cur, from, to)
  {
    hide Snap, Untouched, StripeMigrated, Pending;
    Visible(c, t, from.bucket);
    Visible(c, t, to.bucket);
  }

  /** A displacement section moves the entry exactly when the view still shows what the search wrote down. */
  lemma {:induction false} MoveDecides<K(!new), V>(c: Config<K>, t: Tab<K, V>, k: K, v: V, path: seq<CuckooRecord>,
      depth: nat)
    requires TabOk(c, t) && PathOk(c, t.hp, k, path, depth) && depth > 0
    ensures var o, m := MoveSection(c, t, k, v, path, depth), Snap(c, t);
      var from, to := path[depth - 1], path[depth];
      && TabOk(c, o.tab) && o.ret.None? && o.tab.hp == t.hp
      && if Possible(c, m, from, to) then
           && Snap(c, o.tab) == Displace(m, from.bucket, from.slot, to.bucket, to.slot)
           && o.thread == (if depth == 1 then Holding(k, v, t.hp, from.bucket, from.slot)
                           else Moving(k, v, t.hp, path, depth - 1))
         else Snap(c, o.tab) == m && o.thread == Searching(k, v, t.hp)
  {
    hide Layout, Good, Held, Sum, Unmigrated, Untouching, Snap, MoveLocks, StripeMigrated, AltIndex, PartialKey;
    hide First, Second, Stripe, Displace;
    var from, to := path[depth - 1], path[depth];
    var r := MoveLocks(c, t, k, path, depth);
    LayoutOf(c, r);
    SeenInPlace(c, r, from, to);
    if Possible(c, r.cur, from, to) { KickKeeps(c, r, from.bucket, from.slot, to.bucket, to.slot); }
  }

  lemma {:induction false} ClaimDecides<K(!new), V>(c: Config<K>, t: Tab<K, V>, k: K, v: V, b: nat, s: nat)
    requires TabOk(c, t) && (b == First(c, t.hp, k) || b == Second(c, t.hp, k))
    ensures var o, m := ClaimSection(c, t, k, v, b, s), Snap(c, t);
      && TabOk(c, o.tab) && Snap(c, o.tab) == m && o.ret.None? && o.tab.hp == t.hp
      && o.thread == if OpenSlot(m, b, s) then Holding(k, v, t.hp, b, s) else Searching(k, v, t.hp)
  {
    hide Layout, Good, Held, Sum, Unmigrated, Snap, Lock2, Untouching, First, Second, StripeMigrated;
    var r := Lock2(c, t, First(c, t.hp, k), Second(c, t.hp, k));
    LayoutOf(c, r);
    Visible(c, r, b);
  }

  /** Thread th goes on as now and the view m becomes m': what was recorded is done exactly when m still allows it. */
  ghost predicate Walks<K, V>(c: Config<K>, m: Buckets<K, V>, th: Thread<K, V>, m': Buckets<K, V>, now: Thread<K, V>) {
    && th.Moving? && th.depth < |th.path|
    && if th.depth == 0 then
         && m' == m
         && now == (if OpenSlot(m, th.path[0].bucket, th.path[0].slot) then
                      Holding(th.k, th.v, th.hp, th.path[0].bucket, th.path[0].slot)
                    else Searching(th.k, th.v, th.hp))
       else
         var from, to := th.path[th.depth - 1], th.path[th.depth];
         if Possible(c, m, from, to) then
           && m' == Displace(m, from.bucket, from.slot, to.bucket, to.slot)
           && now == (if th.depth == 1 then Holding(th.k, th.v, th.hp, from.bucket, from.slot)
                      else Moving(th.k, th.v, th.hp, th.path, th.depth - 1))
         else m' == m && now == Searching(th.k, th.v, th.hp)
  }

  /**
   * One section of a path walk, re-validated under its locks: it does what was recorded exactly when the slots,
   * seen through the migration, still allow it; otherwise nothing is moved and the search starts again.
   */
  lemma {:induction false} AdvanceDecides<K(!new), V>(c: Config<K>, s: State<K, V>, tid: nat, s': State<K, V>)
    requires Inv(c, s) && StepTo(c, s, Advance(tid), s')
    ensures Layout(c, s.tab) && Layout(c, s'.tab) && s'.log == s.log && s'.tab.hp == s.tab.hp
    ensures tid in s.threads && tid in s'.threads
    ensures Walks(c, Snap(c, s.tab), s.threads[tid], Snap(c, s'.tab), s'.threads[tid])
  {
    hide Layout, Good, Held, Sum, Unmigrated, Snap, Linearized, Exclusive, ThreadOk, First, Second, Possible;
    hide MoveSection, ClaimSection, Displace, Result, Enabled, TabOk, PathOk;
    ResultOfAdvance(c, s, tid);
    var th, t := s.threads[tid], s.tab;
    LayoutOf(c, t);
    PathStart(c, t.hp, th.k, th.path, th.depth);
    if th.depth == 0 {
      ClaimDecides(c, t, th.k, th.v, th.path[0].bucket, th.path[0].slot);
    } else {
      MoveDecides(c, t, th.k, th.v, th.path, th.depth);
    }
    LayoutOf(c, s'.tab);
  }

  lemma {:induction false} ResultOfAdvance<K(!new), V>(c: Config<K>, s: State<K, V>, tid: nat)
    requires TabOk(c, s.tab) && Enabled(c, s, Advance(tid))
    ensures tid in s.threads
    ensures var th, t := s.threads[tid], s.tab;
      && th.Moving? && th.hp == t.hp && PathOk(c, t.hp, th.k, th.path, th.depth)
      && Result(c, s, Advance(tid)) ==
        if th.depth == 0 then ClaimSection(c, t, th.k, th.v, th.path[0].bucket, th.path[0].slot)
        else MoveSection(c, t, th.k, th.v, th.path, th.depth)
  {
    hide Layout, Good, Held, Sum, Unmigrated, Snap, Untouching, Locate, Lock1, Lock2, First, Second, Stripe;
    hide OpSection, MoveSection, ClaimSection, FinishSection, ExpandSection, Cleared, TabOk, StripeMigrated;
  }

  // ---- the first section of an insert ----

  ghost predicate FullBucket<K, V>(m: Buckets<K, V>, b: nat) {
    b < |m| && forall j :: 0 <= j < |m[b]| ==> m[b][j].Full?
  }

  lemma {:induction false} LastEmptyIff<K, V>(bucket: Bucket<K, V>, n: nat)
    requires n <= |bucket|
    ensures LastEmpty(bucket, n).None? <==> forall j :: 0 <= j < n ==> bucket[j].Full?
  {
    if n > 0 { LastEmptyIff(bucket, n - 1); }
  }

  lemma {:induction false} SectionDecides<K(!new), V>(c: Config<K>, t: Tab<K, V>, k: K, v: V)
    requires TabOk(c, t)
    ensures var o, m := OpSection(c, t, Insert(k, v)), Snap(c, t);
      && TabOk(c, o.tab) && o.tab.hp == t.hp
      && (o.ret.None? <==> k !in Held(c, t) && FullBucket(m, First(c, t.hp, k)) && FullBucket(m, Second(c, t.hp, k)))
      && (o.ret.None? ==> Snap(c, o.tab) == m && o.thread == Searching(k, v, t.hp))
      && (o.ret.Some? ==> o.ret == Some(Did(k !in Held(c, t))))
  {
    hide Layout, Good, Held, Sum, Unmigrated, IndexHash, SecondIndex, Untouching;
    hide StripeMigrated, Locate, Lock2, Snap, Store, PartialKey, LastEmpty;
    OpSectionSound(c, t, Insert(k, v));
    var i1, i2 := First(c, t.hp, k), Second(c, t.hp, k);
    var r := Lock2(c, t, i1, i2);
    LayoutOf(c, t);
    LayoutOf(c, r);
    LocateDecides(c, r, k);
    Visible(c, r, i1);
    Visible(c, r, i2);
    LastEmptyIff(r.cur[i1], |r.cur[i1]|);
    LastEmptyIff(r.cur[i2], |r.cur[i2]|);
    if Locate(c, r, k).None? { InsertOutcome(c, t, k, v, r); }
  }

  lemma {:induction false} InsertOutcome<K(!new), V>(c: Config<K>, t: Tab<K, V>, k: K, v: V, r: Tab<K, V>)
    requires TabOk(c, t) && r == Lock2(c, t, First(c, t.hp, k), Second(c, t.hp, k)) && Locate(c, r, k).None?
    ensures var i1, i2 := First(c, t.hp, k), Second(c, t.hp, k);
      var f1, f2 := LastEmpty(r.cur[i1], |r.cur[i1]|), LastEmpty(r.cur[i2], |r.cur[i2]|);
      var o := OpSection(c, t, Insert(k, v));
      && (f1.None? && f2.None? ==> o == Outcome(r, Searching(k, v, t.hp), None))
      && (f1.Some? || f2.Some? ==> o.ret == Some(Did(true)) && o.tab.hp == t.hp)
  {
    hide Layout, Good, Held, Sum, Unmigrated, IndexHash, SecondIndex, Untouching;
    hide StripeMigrated, Locate, Lock2, Snap, PartialKey, LastEmpty;
    LayoutOf(c, r);
  }

  // ---- a thread alone ----

  /** Some step of thread tid leads from s to s'. */
  ghost predicate StepBy<K(!new), V(!new)>(c: Config<K>, s: State<K, V>, tid: nat, s': State<K, V>) {
    exists step: Step<K, V> :: step.tid == tid && StepTo(c, s, step, s')
  }

  /** A run in which only thread tid moves. */
  ghost predicate Solo<K(!new), V(!new)>(c: Config<K>, run: seq<State<K, V>>, tid: nat) {
    |run| > 0 && forall i :: 0 <= i < |run| - 1 ==> StepBy(c, run[i], tid, run[i + 1])
  }

  lemma {:induction false} SoloStep<K(!new), V(!new)>(c: Config<K>, s: State<K, V>, step: Step<K, V>, s': State<K, V>,
      rest: seq<State<K, V>>)
    requires StepTo(c, s, step, s') && Solo(c, rest, step.tid) && rest[0] == s'
    ensures Solo(c, [s] + rest, step.tid)
  {
    hide StepTo;
    var run := [s] + rest;
    assert StepBy(c, s, step.tid, s');
    forall i | 0 <= i < |run| - 1 ensures StepBy(c, run[i], step.tid, run[i + 1]) {
      if i > 0 { assert run[i] == rest[i - 1] && run[i + 1] == rest[i - 1 + 1]; }
    }
  }

  /** What one step of a thread leaves alone. */
  lemma {:induction false} OthersStay<K(!new), V>(c: Config<K>, s: State<K, V>, step: Step<K, V>, s': State<K, V>)
    requires Inv(c, s) && StepTo(c, s, step, s')
    ensures Inv(c, s') && step.tid in s'.threads && (NoHolder(s, step.tid) ==> NoHolder(s', step.tid))
  {
    hide Inv, Result, TabOk, Enabled;
    StepKeepsInv(c, s, step);
  }

  /** With both stripes held, the insert ends: added if the key is absent, refused if it is there. */
  lemma {:induction false} FinishDecides<K(!new), V>(c: Config<K>, s: State<K, V>, tid: nat) returns (s': State<K, V>)
    requires Inv(c, s) && tid in s.threads && s.threads[tid].Holding?
    ensures StepTo(c, s, Finish(tid), s')
    ensures var th := s.threads[tid];
      s'.threads[tid] == Answered(Event(tid, Insert(th.k, th.v), Did(th.k !in Replay(s.log))))
  {
    hide TabOk, PathOk, Exclusive, Legal, Replay, Result, Held;
    NothingIsBlocked(c, s, tid);
    s' := Commit(s, tid, Result(c, s, Finish(tid)));
    FinishAnswer(c, s.tab, s.threads[tid]);
    ResultOfFinish(c, s, tid);
  }

  lemma {:induction false} ResultOfFinish<K(!new), V>(c: Config<K>, s: State<K, V>, tid: nat)
    requires TabOk(c, s.tab) && tid in s.threads && s.threads[tid].Holding? && ThreadOk(c, s.tab, s.threads[tid])
    requires Enabled(c, s, Finish(tid))
    ensures Result(c, s, Finish(tid)) == FinishSection(c, s.tab, s.threads[tid])
  {
    hide Layout, Good, Held, Sum, Unmigrated, Snap, Untouching, Locate, Lock1, Lock2, First, Second, Stripe;
    hide OpSection, MoveSection, ClaimSection, FinishSection, ExpandSection, Cleared, PathOk, TabOk, StripeMigrated;
  }

  lemma {:induction false} FinishAnswer<K(!new), V>(c: Config<K>, t: Tab<K, V>, th: Thread<K, V>)
    requires TabOk(c, t) && th.Holding? && ThreadOk(c, t, th)
    ensures FinishSection(c, t, th).ret == Some(Did(th.k !in Held(c, t)))
  {
    hide Layout, Good, Held, Sum, Unmigrated, Snap, Locate, Store, PartialKey;
    LocateDecides(c, t, th.k);
    LayoutOf(c, t);
  }

  /** The end of a walk: the freed slot is held, and the insert ends there. */
  lemma {:induction false} HeldSlotInserts<K(!new), V(!new)>(c: Config<K>, s: State<K, V>, tid: nat)
    returns (run: seq<State<K, V>>)
    requires Inv(c, s) && tid in s.threads && s.threads[tid].Holding?
    ensures Solo(c, run, tid) && run[0] == s && tid in run[|run| - 1].threads
    ensures var th := s.threads[tid];
      run[|run| - 1].threads[tid] == Answered(Event(tid, Insert(th.k, th.v), Did(th.k !in Replay(s.log))))
  {
    hide Inv, StepTo;
    var s' := FinishDecides(c, s, tid);
    OthersStay(c, s, Finish(tid), s');
    run := [s] + [s'];
    SoloStep(c, s, Finish(tid), s', [s']);
  }

  /**
   * A thread that walks back a path which nobody disturbs, while nobody else holds a stripe, makes every move of the
   * path, and its insert of an absent key succeeds.
   */
  lemma {:induction false} UndisturbedWalkInserts<K(!new), V(!new)>(c: Config<K>, s: State<K, V>, tid: nat)
    returns (run: seq<State<K, V>>)
    requires Inv(c, s) && tid in s.threads && NoHolder(s, tid)
    requires var th := s.threads[tid];
      && th.Moving? && th.hp == s.tab.hp && th.k !in Replay(s.log)
      && Movable(c.h, th.hp, Snap(c, s.tab), th.path, th.depth)
    ensures Solo(c, run, tid) && run[0] == s && tid in run[|run| - 1].threads
    ensures var th := s.threads[tid];
      run[|run| - 1].threads[tid] == Answered(Event(tid, Insert(th.k, th.v), Did(true)))
    decreases s.threads[tid].depth
  {
    hide TabOk, PathOk, Exclusive, Legal, Replay, Result, Held, Snap, Movable, Commit, Displace, Layout;
    var th := s.threads[tid];
    var step: Step<K, V> := Advance(tid);
    NothingIsBlocked(c, s, tid);
    assert Enabled(c, s, step) by { NothingHeld(c, s, tid); }
    var s1 := Commit(s, tid, Result(c, s, step));
    AdvanceDecides(c, s, tid, s1);
    OthersStay(c, s, step, s1);
    if th.depth == 0 {
      MovableEnd(c.h, th.hp, Snap(c, s.tab), th.path);
    } else {
      MovableAt(c.h, th.hp, Snap(c, s.tab), th.path, th.depth);
      MovableStep(c.h, th.hp, Snap(c, s.tab), th.path, th.depth);
    }
    var rest;
    if th.depth <= 1 {
      rest := HeldSlotInserts(c, s1, tid);
    } else {
      rest := UndisturbedWalkInserts(c, s1, tid);
    }
    run := [s] + rest;
    SoloStep(c, s, step, s1, rest);
  }

  lemma {:induction false} NothingHeld<K, V>(c: Config<K>, s: State<K, V>, tid: nat)
    requires NoHolder(s, tid)
    ensures forall ls :: Free(c, s, tid, ls)
  {}

  /** A movable path is a path of linked buckets. */
  lemma {:induction false} MovableIsPath<K(!new), V>(c: Config<K>, t: Tab<K, V>, k: K, path: seq<CuckooRecord>, d: nat)
    requires TabOk(c, t) && Movable(c.h, t.hp, Snap(c, t), path, d)
    requires path[0].bucket == First(c, t.hp, k) || path[0].bucket == Second(c, t.hp, k)
    ensures PathOk(c, t.hp, k, path, d)
  {
    hide Held, Sum, Unmigrated, Snap, Layout, First, Second, AltIndex, PartialKey, Candidate, Unique;
    var m: Buckets<K, V> := Snap(c, t);
    GoodShape(c, t);
    LayoutOf(c, t);
    forall j: nat | j < d ensures path[j + 1].bucket == AltIndex(t.hp, PartialKey(path[j].hash), path[j].bucket) {
      assert Link(c.h, t.hp, m, path, j);
      var x := m[path[j].bucket][path[j].slot];
      assert HasKey(m, path[j].bucket, path[j].slot, x.key);
    }
  }

  /**
   * When a search without interference has written down the first open path, a thread alone takes it and its insert
   * of an absent key succeeds: no entry of a table with an open path is refused.
   */
  lemma {:induction false} FirstOpenPathInserts<K(!new), V(!new)>(c: Config<K>, s: State<K, V>, tid: nat, n: nat,
      slot: nat, recs: seq<CuckooRecord>) returns (run: seq<State<K, V>>)
    requires Inv(c, s) && tid in s.threads && NoHolder(s, tid)
    requires var th := s.threads[tid]; th.Searching? && th.hp == s.tab.hp && th.k !in Replay(s.log)
    requires c.S >= 1
    requires var k, hp, m := s.threads[tid].k, s.tab.hp, Snap(c, s.tab);
      && FirstOpen(c.S, hp, m, First(c, hp, k), Second(c, hp, k), n)
      && var slots := Extend(PathAt(c.S, n), slot).slots;
      FilledTo(c.h, hp, m, Start(First(c, hp, k), Second(c, hp, k), PathAt(c.S, n)), slots, recs, |slots|)
    ensures Solo(c, run, tid) && run[0] == s && tid in run[|run| - 1].threads
    ensures var th := s.threads[tid];
      run[|run| - 1].threads[tid] == Answered(Event(tid, Insert(th.k, th.v), Did(true)))
  {
    hide TabOk, Exclusive, Legal, Replay, Held, Snap, Movable, FirstOpen, FilledTo, Layout, First, Second, PathAt;
    InvTab(c, s);
    LayoutOf(c, s.tab);
    var th, hp := s.threads[tid], s.tab.hp;
    var i1, i2, d := First(c, hp, th.k), Second(c, hp, th.k), |PathAt(c.S, n).slots|;
    RecordedIsMovable(c.h, c.S, hp, Snap(c, s.tab), i1, i2, n, slot, recs);
    var path := recs[..d + 1];
    MovableIsPath(c, s.tab, th.k, path, d);
    var step: Step<K, V> := FoundPath(tid, path, d);
    var s1 := Commit(s, tid, Result(c, s, step));
    OthersStay(c, s, step, s1);
    var rest := UndisturbedWalkInserts(c, s1, tid);
    run := [s] + rest;
    SoloStep(c, s, step, s1, rest);
  }

  // ---- no thread needs another to finish ----

  /** Doublings that are still possible at this size, and what a thread has to do before the next one. */
  ghost function Doublings<K, V>(c: Config<K>, s: State<K, V>): nat
    requires c.mlf > 0.0
  {
    var last := LastHashpower(|Replay(s.log)|, c.mlf);
    if s.tab.hp < last then last - s.tab.hp else 0
  }

  ghost function Rank<K, V>(th: Thread<K, V>, hp: nat): nat {
    match th
    case Holding(_, _, _, _, _) => 1
    case Expanding(_, _, old') => if old' == hp then 2 else 6
    case Searching(_, _, old') => if old' == hp then 3 else 6
    case Primed(_, old') => if old' == hp then 4 else 6
    case Moving(_, _, old', _, depth) => if old' == hp then 7 + depth else 6
    case Ready(_) => 5
    case _ => 0
  }

  ghost predicate Nearer<K, V>(c: Config<K>, s: State<K, V>, s': State<K, V>, tid: nat)
    requires c.mlf > 0.0 && tid in s.threads && tid in s'.threads
  {
    && Busy(s'.threads[tid])
    && (Doublings(c, s') < Doublings(c, s) ||
        (Doublings(c, s') == Doublings(c, s) && Rank(s'.threads[tid], s'.tab.hp) < Rank(s.threads[tid], s.tab.hp)))
  }

  /** The step that a thread alone takes next. */
  lemma {:induction false} NextAlone<K(!new), V>(c: Config<K>, s: State<K, V>, tid: nat) returns (step: Step<K, V>)
    requires Inv(c, s) && tid in s.threads && Busy(s.threads[tid]) && NoHolder(s, tid)
    ensures step.tid == tid && Enabled(c, s, step)
    ensures var th, hp := s.threads[tid], s.tab.hp;
      && (step.ReadHashpower? <==> th.Ready? && !th.op.Clear?) && (step.ClearAll? <==> th == Ready(Clear))
      && (step.Restart? <==> (th.Primed? || th.Searching? || th.Moving?) && th.hp != hp)
      && (step.Section? <==> th.Primed? && th.hp == hp) && (step.NoPath? <==> th.Searching? && th.hp == hp)
      && (step.Advance? <==> th.Moving? && th.hp == hp) && (step.Finish? <==> th.Holding?)
      && (step.Expand? <==> th.Expanding?) && !step.Touch? && !step.FoundPath? && !step.Invoke? && !step.Return?
  {
    hide TabOk, PathOk, Exclusive, Linearized;
    NothingIsBlocked(c, s, tid);
    NothingHeld(c, s, tid);
    var th, hp := s.threads[tid], s.tab.hp;
    match th
    case Ready(op) => step := if op.Clear? then ClearAll(tid) else ReadHashpower(tid);
    case Primed(_, old') => step := if old' == hp then Section(tid) else Restart(tid);
    case Searching(_, _, old') => step := if old' == hp then NoPath(tid) else Restart(tid);
    case Moving(_, _, old', _, _) => step := if old' == hp then Advance(tid) else Restart(tid);
    case Holding(_, _, _, _, _) => step := Finish(tid);
    case Expanding(_, _, _) => step := Expand(tid);
  }

  /** That step answers the call or brings the thread nearer to its answer. */
  lemma {:induction false} AloneProgresses<K(!new), V>(c: Config<K>, s: State<K, V>, step: Step<K, V>, s': State<K, V>)
    requires Inv(c, s) && StepTo(c, s, step, s') && c.mlf > 0.0 && Busy(s.threads[step.tid])
    requires !step.Touch? && !step.FoundPath? && (step.NoPath? ==> s.threads[step.tid].hp == s.tab.hp)
    ensures s'.threads[step.tid].Answered? || Nearer(c, s, s', step.tid)
  {
    hide Layout, Good, Held, Sum, Unmigrated, Snap, Untouching, Locate, Lock1, Lock2, First, Second, Stripe;
    hide OpSection, MoveSection, ClaimSection, FinishSection, ExpandSection, Cleared, PathOk, TabOk, StripeMigrated;
    hide Exclusive, Linearized, LastHashpower, Sparse, Pow2, Replay;
    StepCarriesOn(c, s, step);
    match step
    case Expand(tid) => ExpandProgresses(c, s, step, s');
    case Advance(tid) => AdvanceDecides(c, s, tid, s');
    case Section(tid) => SectionProgresses(c, s, step, s');
    case Finish(tid) => var s1 := FinishDecides(c, s, tid);
    case ClearAll(tid) => assert s'.threads[tid].Answered?;
    case _ =>
  }

  lemma {:induction false} ExpandProgresses<K(!new), V>(c: Config<K>, s: State<K, V>, step: Step<K, V>, s': State<K, V>)
    requires Inv(c, s) && StepTo(c, s, step, s') && c.mlf > 0.0 && step.Expand?
    ensures s'.threads[step.tid].Answered? || Nearer(c, s, s', step.tid)
  {
    hide TabOk, PathOk, Exclusive, Linearized, LastHashpower, Pow2, Replay, Result;
    ExpandDecides(c, s, step, s');
    LayoutOf(c, s.tab);
    if !s'.threads[step.tid].Answered? { DoublingStops(|Replay(s.log)|, c.S, s.tab.hp, c.mlf); }
  }

  lemma {:induction false} SectionProgresses<K(!new), V>(c: Config<K>, s: State<K, V>, step: Step<K, V>,
      s': State<K, V>)
    requires Inv(c, s) && StepTo(c, s, step, s') && step.Section?
    ensures s'.threads[step.tid].Answered? ||
      (s'.threads[step.tid].Searching? && s'.threads[step.tid].hp == s'.tab.hp == s.tab.hp && s'.log == s.log)
  {
    hide TabOk, PathOk, Exclusive, Linearized, OpSection, Untouching, Sound;
    OpSectionSound(c, s.tab, s.threads[step.tid].op);
    SectionAnswers(c, s.tab, s.threads[step.tid].op);
    SameSize(c, s.tab, s.threads[step.tid].op);
  }

  lemma {:induction false} SameSize<K(!new), V>(c: Config<K>, t: Tab<K, V>, op: Op<K, V>)
    requires TabOk(c, t) && !op.Clear?
    ensures OpSection(c, t, op).tab.hp == t.hp
  {
    hide Layout, Good, Held, Sum, Unmigrated, IndexHash, SecondIndex, StripeMigrated, Locate, Lock2, Snap, PartialKey;
    OpSectionSound(c, t, op);
  }

  /** A step inside a call goes on with its operation, or logs it with its answer. */
  lemma {:induction false} CallGoesOn<K(!new), V>(c: Config<K>, s: State<K, V>, step: Step<K, V>, s': State<K, V>)
    requires StepTo(c, s, step, s') && Busy(s.threads[step.tid])
    ensures step.tid in s'.threads && s'.returned == s.returned
    ensures var before, after := s.threads[step.tid], s'.threads[step.tid];
      if after.Answered? then
        after.event.tid == step.tid && after.event.op == OpOf(before) && s'.log == s.log + [after.event]
      else Busy(after) && OpOf(after) == OpOf(before) && s'.log == s.log
  {
    hide TabOk, Result, Enabled;
    StepCarriesOn(c, s, step);
  }

  /**
   * No call depends on another thread's progress: from every reachable state, as long as nobody else holds a stripe,
   * a thread inside a call reaches the answer to it by its own steps.
   */
  lemma {:induction false} AloneFinishes<K(!new), V(!new)>(c: Config<K>, s: State<K, V>, tid: nat)
    returns (run: seq<State<K, V>>)
    requires Inv(c, s) && tid in s.threads && Busy(s.threads[tid]) && NoHolder(s, tid) && c.mlf > 0.0
    ensures Solo(c, run, tid) && run[0] == s
    ensures var s' := run[|run| - 1];
      && Inv(c, s') && tid in s'.threads && s'.threads[tid].Answered? && s'.returned == s.returned
      && var e := s'.threads[tid].event;
      e.tid == tid && e.op == OpOf(s.threads[tid]) && s'.log == s.log + [e]
    decreases Doublings(c, s), Rank(s.threads[tid], s.tab.hp)
  {
    hide Inv, Result, TabOk, Enabled, Commit, Doublings, Rank, NoHolder, Busy, OpOf;
    var step := NextAlone(c, s, tid);
    InvTab(c, s);
    var s1 := Commit(s, tid, Result(c, s, step));
    OthersStay(c, s, step, s1);
    CallGoesOn(c, s, step, s1);
    AloneProgresses(c, s, step, s1);
    var rest := [s1];
    if !s1.threads[tid].Answered? { rest := AloneFinishes(c, s1, tid); }
    run := [s] + rest;
    SoloStep(c, s, step, s1, rest);
  }

  /** An idle thread can call any operation; alone, it returns from it with the plain map's answer. */
  lemma {:induction false} AnyCallReturns<K(!new), V(!new)>(c: Config<K>, s: State<K, V>, tid: nat, op: Op<K, V>)
    returns (run: seq<State<K, V>>, e: Event<K, V>)
    requires Inv(c, s) && Histories(s) && tid in s.threads && s.threads[tid].Idle? && NoHolder(s, tid) && c.mlf > 0.0
    ensures Solo(c, run, tid) && run[0] == s && tid in s.returned && e.tid == tid && e.op == op
    ensures Agrees(c, Replay(s.log), op, e.ret)
    ensures var s' := run[|run| - 1];
      && Inv(c, s') && s'.log == s.log + [e]
      && tid in s'.threads && s'.threads[tid] == Idle && tid in s'.returned && s'.returned[tid] == s.returned[tid] + [e]
  {
    hide Inv, Result, TabOk, Commit, NoHolder, History, Agrees, StepTo, StepBy;
    assert HistoryOk(s, tid);
    var s1 := Invoked(c, s, tid, op);
    OthersStay(c, s, Invoke(tid, op), s1);
    var rest := AloneFinishes(c, s1, tid);
    var s2 := rest[|rest| - 1];
    e := s2.threads[tid].event;
    var s3 := Returned(c, s2, tid);
    OthersStay(c, s2, Return(tid), s3);
    AnswerAgrees(c, s2);
    SoloBack(c, rest, Return(tid), s3);
    run := [s] + (rest + [s3]);
    SoloStep(c, s, Invoke(tid, op), s1, rest + [s3]);
  }

  lemma {:induction false} Invoked<K(!new), V>(c: Config<K>, s: State<K, V>, tid: nat, op: Op<K, V>)
    returns (s': State<K, V>)
    requires Inv(c, s) && tid in s.threads && s.threads[tid].Idle?
    ensures StepTo(c, s, Invoke(tid, op), s') && tid in s'.threads && s'.threads[tid] == Ready(op)
    ensures s'.log == s.log && s'.returned == s.returned
  {
    hide TabOk, Exclusive, Linearized;
    s' := Commit(s, tid, Result(c, s, Invoke(tid, op)));
  }

  lemma {:induction false} Returned<K(!new), V>(c: Config<K>, s: State<K, V>, tid: nat) returns (s': State<K, V>)
    requires Inv(c, s) && tid in s.threads && s.threads[tid].Answered? && tid in s.returned
    ensures StepTo(c, s, Return(tid), s') && tid in s'.threads && s'.threads[tid] == Idle
    ensures s'.log == s.log && s'.returned == s.returned[tid := s.returned[tid] + [s.threads[tid].event]]
  {
    hide TabOk, Exclusive, Linearized;
    s' := Commit(s, tid, Result(c, s, Return(tid)));
  }

  lemma {:induction false} AnswerAgrees<K(!new), V>(c: Config<K>, s: State<K, V>)
    requires Inv(c, s) && s.log != []
    ensures var e := s.log[|s.log| - 1]; Agrees(c, Replay(s.log[..|s.log| - 1]), e.op, e.ret)
  {
    hide TabOk, Exclusive, ThreadOk, Held, Agrees, Replay;
  }

  lemma {:induction false} SoloBack<K(!new), V(!new)>(c: Config<K>, run: seq<State<K, V>>, step: Step<K, V>,
      s': State<K, V>)
    requires Solo(c, run, step.tid) && StepTo(c, run[|run| - 1], step, s')
    ensures Solo(c, run + [s'], step.tid)
  {
    hide StepTo;
    assert StepBy(c, run[|run| - 1], step.tid, s');
  }

  // ---- lazy migration ----

  /** Locking one bucket during a search migrates its stripe and disturbs nothing else. */
  lemma {:induction false} TouchMigrates<K(!new), V>(c: Config<K>, s: State<K, V>, tid: nat, b: nat, s': State<K, V>)
    requires Inv(c, s) && StepTo(c, s, Touch(tid, b), s')
    ensures StripeMigrated(c, s'.tab, b) && Untouching(c, s.tab, s'.tab, {Stripe(c, b)})
    ensures Layout(c, s.tab) && Layout(c, s'.tab) && Snap(c, s'.tab) == Snap(c, s.tab)
    ensures s'.threads == s.threads && s'.log == s.log
  {
    hide Layout, Good, Held, Sum, Unmigrated, Untouching, Lock1, StripeMigrated, Snap, Exclusive, Linearized;
    LayoutOf(c, s.tab);
    LayoutOf(c, s'.tab);
    assert s'.threads == s.threads;
  }

  /** Under its locks a key's two candidate buckets are migrated, whatever the operation finds there. */
  lemma {:induction false} SectionMigrates<K(!new), V>(c: Config<K>, t: Tab<K, V>, op: Op<K, V>)
    requires TabOk(c, t) && !op.Clear?
    ensures var t' := OpSection(c, t, op).tab;
      StripeMigrated(c, t', First(c, t.hp, op.k)) && StripeMigrated(c, t', Second(c, t.hp, op.k))
  {
    hide Layout, Good, Held, Sum, Unmigrated, IndexHash, SecondIndex, Untouching, PartialKey, LastEmpty;
    hide Locate, Lock2, Snap;
    LayoutOf(c, t);
    LayoutOf(c, Lock2(c, t, First(c, t.hp, op.k), Second(c, t.hp, op.k)));
  }

  lemma {:induction false} TouchOne<K(!new), V>(c: Config<K>, s: State<K, V>, tid: nat, b: nat)
    returns (s': State<K, V>)
    requires Inv(c, s) && tid in s.threads && NoHolder(s, tid)
    requires s.threads[tid].Searching? && s.threads[tid].hp == s.tab.hp
    ensures StepTo(c, s, Touch(tid, b), s')
  {
    hide TabOk, Exclusive, Linearized, Result;
    NothingHeld(c, s, tid);
    s' := Commit(s, tid, Result(c, s, Touch(tid, b)));
  }

  /** A search that passes the first n stripes has migrated them. */
  lemma {:induction false} TouchFirst<K(!new), V(!new)>(c: Config<K>, s: State<K, V>, tid: nat, n: nat)
    returns (run: seq<State<K, V>>)
    requires Inv(c, s) && tid in s.threads && NoHolder(s, tid) && n <= |s.tab.locks|
    requires s.threads[tid].Searching? && s.threads[tid].hp == s.tab.hp
    ensures Solo(c, run, tid) && run[0] == s
    ensures var s' := run[|run| - 1];
      && Inv(c, s') && s'.threads == s.threads && s'.log == s.log && s'.tab.hp == s.tab.hp
      && |s'.tab.locks| == |s.tab.locks| && forall l :: 0 <= l < n ==> s'.tab.locks[l].isMigrated
    decreases n
  {
    hide Inv, TabOk, StepTo, StepBy, Layout, Snap;
    run := [s];
    if n > 0 {
      run := TouchFirst(c, s, tid, n - 1);
      var s1 := run[|run| - 1];
      var s2 := TouchOne(c, s1, tid, n - 1);
      OthersStay(c, s1, Touch(tid, n - 1), s2);
      TouchMigrates(c, s1, tid, n - 1, s2);
      StripeOfItself(c, s1, n - 1);
      SoloBack(c, run, Touch(tid, n - 1), s2);
      run := run + [s2];
    }
  }

  lemma {:induction false} StripeOfItself<K(!new), V>(c: Config<K>, s: State<K, V>, l: nat)
    requires Inv(c, s) && l < |s.tab.locks|
    ensures Stripe(c, l) == l
  {
    hide Good, Held, Sum, Unmigrated, Snap, Exclusive, Linearized, ThreadOk;
    LowFixed(l, c.lb);
  }

  /** A migration ends when every stripe has been locked once: none is pending and the contents are as before. */
  lemma {:induction false} MigrationCompletes<K(!new), V(!new)>(c: Config<K>, s: State<K, V>, tid: nat)
    returns (run: seq<State<K, V>>)
    requires Inv(c, s) && tid in s.threads && NoHolder(s, tid)
    requires s.threads[tid].Searching? && s.threads[tid].hp == s.tab.hp
    ensures Solo(c, run, tid) && run[0] == s
    ensures var s' := run[|run| - 1];
      Inv(c, s') && AllMigrated(s'.tab.locks) && s'.tab.remaining == 0 && s'.log == s.log && s'.tab.hp == s.tab.hp
  {
    hide Inv;
    run := TouchFirst(c, s, tid, |s.tab.locks|);
    var s' := run[|run| - 1];
    InvTab(c, s');
    UnmigratedZero(s'.tab.locks);
  }

  lemma InvTab<K(!new), V>(c: Config<K>, s: State<K, V>)
    requires Inv(c, s)
    ensures TabOk(c, s.tab)
  {
    hide TabOk, Exclusive, Linearized, ThreadOk;
  }
}
