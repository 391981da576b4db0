/**
 * Threads taking batches of stripe locks. One step is one test-and-set of a spinlock that succeeds, one
 * hashpower check, or one unlock, so steps of different threads interleave inside a batch.
 */
module Locking {
  import opened Bits
  import opened Hashing

  /** What a thread asks for: the buckets it wants guarded and the hashpower it read before. */
  datatype Request =
    | One(hp: nat, i1: nat)
    | Two(hp: nat, i1: nat, i2: nat)
    | Three(hp: nat, i1: nat, i2: nat, i3: nat)
    | All

  /** The three compare-and-swaps of `lock_three`. */
  function SortThree(a: nat, b: nat, c: nat): (r: (nat, nat, nat))
    ensures r.0 <= r.1 <= r.2
    ensures multiset{r.0, r.1, r.2} == multiset{a, b, c}
  {
    var (b1, c1) := if c < b then (c, b) else (b, c);
    var (a1, c2) := if c1 < a then (c1, a) else (a, c1);
    if b1 < a1 then (b1, a1, c2) else (a1, b1, c2)
  }

  /** No stripe index is lost by the compare-and-swaps. */
  lemma {:induction false} SortThreeSame(a: nat, b: nat, c: nat)
    ensures var r := SortThree(a, b, c); {r.0, r.1, r.2} == {a, b, c}
  {}

  function Upto(n: nat): (s: seq<nat>)
    ensures |s| == n
    ensures forall j :: 0 <= j < n ==> s[j] == j
  {
    if n == 0 then [] else Upto(n - 1) + [n - 1]
  }

  predicate Increasing(s: seq<nat>) {
    forall i, j :: 0 <= i < j < |s| ==> s[i] < s[j]
  }

  /** Of three sorted stripes, one that equals its predecessor is not locked again. */
  function TakeDistinct(a: nat, b: nat, c: nat): (s: seq<nat>)
    requires a <= b <= c
    ensures Increasing(s) && |s| >= 1
    ensures forall l :: l in s <==> l == a || l == b || l == c
  {
    [a] + (if b != a then [b] else []) + (if c != b then [c] else [])
  }

  /** The stripes a request locks, in the order in which it locks them. */
  function Batch(lb: nat, req: Request): seq<nat> {
    match req
    case One(_, i1) => [LockInd(lb, i1)]
    case Two(_, i1, i2) =>
      var l1, l2 := LockInd(lb, i1), LockInd(lb, i2);
      var (a, b) := if l2 < l1 then (l2, l1) else (l1, l2);
      [a] + if b != a then [b] else []
    case Three(_, i1, i2, i3) =>
      var l := SortThree(LockInd(lb, i1), LockInd(lb, i2), LockInd(lb, i3));
      TakeDistinct(l.0, l.1, l.2)
    case All => Upto(Pow2(lb))
  }

  /** The stripes that have to be held for the buckets of a request. */
  predicate Wanted(lb: nat, req: Request, l: nat) {
    match req
    case One(_, i1) => l == LockInd(lb, i1)
    case Two(_, i1, i2) => l == LockInd(lb, i1) || l == LockInd(lb, i2)
    case Three(_, i1, i2, i3) => l == LockInd(lb, i1) || l == LockInd(lb, i2) || l == LockInd(lb, i3)
    case All => l < Pow2(lb)
  }

  lemma {:induction false} ThreeInBatch(x: nat, y: nat, z: nat)
    ensures var r := SortThree(x, y, z);
      forall l: nat :: l in TakeDistinct(r.0, r.1, r.2) <==> l == x || l == y || l == z
  {
    hide TakeDistinct;
    SortThreeSame(x, y, z);
    var r := SortThree(x, y, z);
    forall l: nat ensures l in TakeDistinct(r.0, r.1, r.2) <==> l == x || l == y || l == z {
      assert l in {r.0, r.1, r.2} <==> l in {x, y, z};
    }
  }

  /** Every batch is strictly increasing and holds exactly the wanted stripes: none missing, none taken twice. */
  lemma {:induction false} BatchOrdered(lb: nat, req: Request)
    ensures Increasing(Batch(lb, req))
    ensures |Batch(lb, req)| >= 1
    ensures forall l: nat :: l in Batch(lb, req) <==> Wanted(lb, req, l)
    ensures forall l: nat :: l in Batch(lb, req) ==> l < Pow2(lb)
  {
    hide SortThree, LockInd, Pow2, TakeDistinct;
    match req
    case One(_, _) =>
    case Two(_, i1, i2) =>
    case Three(_, i1, i2, i3) =>
      ThreeInBatch(LockInd(lb, i1), LockInd(lb, i2), LockInd(lb, i3));
    case All =>
      forall l: nat ensures l in Batch(lb, req) <==> l < Pow2(lb) {
        if l < Pow2(lb) { assert Upto(Pow2(lb))[l] == l; }
      }
  }

  /**
   * `n` counts the locks of the batch taken so far; `checked` tells that the hashpower has been compared, which
   * happens right after the first lock and never for `lock_all`.
   */
  datatype Thread =
    | Idle
    | Acquiring(req: Request, n: nat, checked: bool)
    | Running(req: Request, held: set<nat>)

  /** `locked` is the set of stripes whose spinlock bit is set. */
  datatype State = State(hp: nat, locked: set<nat>, threads: seq<Thread>)

  datatype Step =
    | Start(t: nat, req: Request)
    | Acquire(t: nat)
    | Check(t: nat)
    | Enter(t: nat, hp: nat)
    | Release(t: nat, l: nat)
    | Finish(t: nat)

  function First(s: seq<nat>, n: nat): (r: set<nat>)
    requires n <= |s|
    ensures forall l :: l in r <==> exists j :: 0 <= j < n && s[j] == l
    ensures |r| <= n
  {
    if n == 0 then {} else First(s, n - 1) + {s[n - 1]}
  }

  predicate ThreadOk(lb: nat, th: Thread) {
    match th
    case Idle => true
    case Acquiring(req, n, checked) =>
      && n <= |Batch(lb, req)|
      && (n > 1 ==> checked)
      && (checked ==> req.All? || n > 0)
      && (req.All? ==> checked)
    case Running(req, held) => forall l :: l in held ==> l in Batch(lb, req)
  }

  /** The stripes a thread has locked. */
  function Held(lb: nat, th: Thread): (h: set<nat>)
    requires ThreadOk(lb, th)
  {
    match th
    case Idle => {}
    case Acquiring(req, n, _) => First(Batch(lb, req), n)
    case Running(_, held) => held
  }

  /** Whether a thread may take a step; `Acquire` spins until the bit is clear. */
  predicate Enabled(lb: nat, s: State, e: Step) {
    && e.t < |s.threads|
    && var th := s.threads[e.t];
    match e
    case Start(_, req) => th.Idle?
    case Acquire(_) =>
      && th.Acquiring?
      && th.n < |Batch(lb, th.req)|
      && (th.n == 1 ==> th.checked)
      && Batch(lb, th.req)[th.n] !in s.locked
    case Check(_) => th.Acquiring? && th.n == 1 && !th.checked
    case Enter(_, hp) => th.Acquiring? && th.checked && th.n == |Batch(lb, th.req)| && (th.req.All? || hp == s.hp)
    case Release(_, l) => th.Running? && l in th.held
    case Finish(_) => th.Running? && th.held == {}
  }

  function At(s: State, t: nat, th: Thread): State
    requires t < |s.threads|
  {
    s.(threads := s.threads[t := th])
  }

  function Next(lb: nat, s: State, e: Step): State
    requires Enabled(lb, s, e)
  {
    var th := s.threads[e.t];
    match e
    case Start(t, req) => At(s, t, Acquiring(req, 0, req.All?))
    case Acquire(t) => At(s.(locked := s.locked + {Batch(lb, th.req)[th.n]}), t, th.(n := th.n + 1))
    // The exit on a changed hashpower unlocks the one stripe that is held.
    case Check(t) =>
      if th.req.All? || s.hp == th.req.hp then At(s, t, th.(checked := true))
      else At(s.(locked := s.locked - {Batch(lb, th.req)[0]}), t, Idle)
    case Enter(t, hp) => At(s.(hp := hp), t, Running(th.req, First(Batch(lb, th.req), th.n)))
    case Release(t, l) => At(s.(locked := s.locked - {l}), t, th.(held := th.held - {l}))
    case Finish(t) => At(s, t, Idle)
  }

  /** A spinlock bit is set exactly when one thread, and no other, holds that stripe. */
  ghost predicate Inv(lb: nat, s: State) {
    && (forall t :: 0 <= t < |s.threads| ==> ThreadOk(lb, s.threads[t]))
    && (forall l :: l in s.locked <==> exists t :: 0 <= t < |s.threads| && l in Held(lb, s.threads[t]))
    && (forall t, u :: 0 <= t < u < |s.threads| ==> Held(lb, s.threads[t]) !! Held(lb, s.threads[u]))
  }

  /** One thread changes from `was` to `now`, gaining stripes that were free or giving some back. */
  lemma {:induction false} ChangeKeepsInv(lb: nat, s: State, s': State, t: nat)
    requires Inv(lb, s) && t < |s.threads| && |s'.threads| == |s.threads|
    requires forall u :: 0 <= u < |s.threads| && u != t ==> s'.threads[u] == s.threads[u]
    requires ThreadOk(lb, s'.threads[t])
    requires forall l :: l in Held(lb, s'.threads[t]) ==> l in Held(lb, s.threads[t]) || l !in s.locked
    requires s'.locked == s.locked - Held(lb, s.threads[t]) + Held(lb, s'.threads[t])
    ensures Inv(lb, s')
  {
    hide Batch, First, ThreadOk, Held;
    forall u | 0 <= u < |s'.threads| ensures ThreadOk(lb, s'.threads[u]) {}
    forall u, l | 0 <= u < |s'.threads| && l in Held(lb, s'.threads[u]) && u != t
      ensures l !in Held(lb, s'.threads[t]) && l !in Held(lb, s.threads[t])
    {
      assert l in Held(lb, s.threads[u]);
    }
    forall l ensures l in s'.locked <==> exists u :: 0 <= u < |s'.threads| && l in Held(lb, s'.threads[u]) {
      if l in s'.locked && l !in Held(lb, s'.threads[t]) {
        var u :| 0 <= u < |s.threads| && l in Held(lb, s.threads[u]);
        assert l in Held(lb, s'.threads[u]);
      }
      if u :| 0 <= u < |s'.threads| && l in Held(lb, s'.threads[u]) {
        if u != t { assert l in Held(lb, s.threads[u]); }
      }
    }
  }

  /** The new thread state `th` is well formed, takes only free stripes, and `locked` follows what it holds. */
  ghost predicate Follows(lb: nat, s: State, t: nat, th: Thread, locked: set<nat>)
    requires Inv(lb, s) && t < |s.threads|
  {
    && ThreadOk(lb, th)
    && (forall l :: l in Held(lb, th) ==> l in Held(lb, s.threads[t]) || l !in s.locked)
    && locked == s.locked - Held(lb, s.threads[t]) + Held(lb, th)
  }

  lemma {:induction false} AcquireFollows(lb: nat, s: State, t: nat)
    requires Inv(lb, s) && Enabled(lb, s, Acquire(t))
    ensures var s' := Next(lb, s, Acquire(t)); Follows(lb, s, t, s'.threads[t], s'.locked)
  {
    hide Batch, Inv, First;
    HeldIsLocked(lb, s, t);
    var th := s.threads[t];
    var b := Batch(lb, th.req);
    assert First(b, th.n + 1) == First(b, th.n) + {b[th.n]} by { FirstNext(b, th.n); }
  }

  lemma {:induction false} FirstNext(s: seq<nat>, n: nat)
    requires n < |s|
    ensures First(s, n + 1) == First(s, n) + {s[n]}
    ensures First(s, 0) == {}
  {}

  lemma {:induction false} CheckFollows(lb: nat, s: State, t: nat)
    requires Inv(lb, s) && Enabled(lb, s, Check(t))
    ensures var s' := Next(lb, s, Check(t)); Follows(lb, s, t, s'.threads[t], s'.locked)
  {
    hide Batch, Inv, First;
    HeldIsLocked(lb, s, t);
    FirstNext(Batch(lb, s.threads[t].req), 0);
  }

  lemma {:induction false} EnterFollows(lb: nat, s: State, t: nat, hp: nat)
    requires Inv(lb, s) && Enabled(lb, s, Enter(t, hp))
    ensures var s' := Next(lb, s, Enter(t, hp)); Follows(lb, s, t, s'.threads[t], s'.locked)
  {
    hide Batch, Inv;
    HeldIsLocked(lb, s, t);
    InFirst(Batch(lb, s.threads[t].req), s.threads[t].n);
  }

  lemma {:induction false} InFirst(s: seq<nat>, n: nat)
    requires n <= |s|
    ensures forall l :: l in First(s, n) ==> l in s
  {}

  lemma {:induction false} UnlockFollows(lb: nat, s: State, e: Step)
    requires Inv(lb, s) && Enabled(lb, s, e) && (e.Release? || e.Finish?)
    ensures var s' := Next(lb, s, e); Follows(lb, s, e.t, s'.threads[e.t], s'.locked)
  {
    hide Batch, Inv, First;
    HeldIsLocked(lb, s, e.t);
  }

  lemma {:induction false} StartFollows(lb: nat, s: State, t: nat, req: Request)
    requires Inv(lb, s) && Enabled(lb, s, Start(t, req))
    ensures var s' := Next(lb, s, Start(t, req)); Follows(lb, s, t, s'.threads[t], s'.locked)
  {
    hide Batch, Inv, First;
    HeldIsLocked(lb, s, t);
    BatchOrdered(lb, req);
    FirstNext(Batch(lb, req), 0);
  }

  lemma {:induction false} StepFollows(lb: nat, s: State, e: Step)
    requires Inv(lb, s) && Enabled(lb, s, e)
    ensures var s' := Next(lb, s, e); |s'.threads| == |s.threads| && Follows(lb, s, e.t, s'.threads[e.t], s'.locked)
  {
    hide Batch, Inv, First, Follows;
    match e
    case Start(t, req) => StartFollows(lb, s, t, req);
    case Acquire(t) => AcquireFollows(lb, s, t);
    case Check(t) => CheckFollows(lb, s, t);
    case Enter(t, hp) => EnterFollows(lb, s, t, hp);
    case Release(_, _) => UnlockFollows(lb, s, e);
    case Finish(_) => UnlockFollows(lb, s, e);
  }

  lemma {:induction false} HeldIsLocked(lb: nat, s: State, t: nat)
    requires Inv(lb, s) && t < |s.threads|
    ensures ThreadOk(lb, s.threads[t])
    ensures forall l :: l in Held(lb, s.threads[t]) ==> l in s.locked
  {
    hide Batch, First, ThreadOk, Held;
  }

  lemma {:induction false} StepKeepsInv(lb: nat, s: State, e: Step)
    requires Inv(lb, s) && Enabled(lb, s, e)
    ensures Inv(lb, Next(lb, s, e))
  {
    hide Batch, Inv, Held, ThreadOk, First;
    StepFollows(lb, s, e);
    assert forall u :: 0 <= u < |s.threads| && u != e.t ==> Next(lb, s, e).threads[u] == s.threads[u];
    ChangeKeepsInv(lb, s, Next(lb, s, e), e.t);
  }

  predicate Waiting(lb: nat, th: Thread) {
    th.Acquiring? && th.n < |Batch(lb, th.req)| && (th.n == 1 ==> th.checked)
  }

  /** A thread that is busy and not waiting for a stripe can move. */
  lemma {:induction false} NotWaitingMoves(lb: nat, s: State, t: nat) returns (e: Step)
    requires t < |s.threads| && !s.threads[t].Idle? && ThreadOk(lb, s.threads[t]) && !Waiting(lb, s.threads[t])
    ensures Enabled(lb, s, e) && !e.Start?
  {
    hide Batch;
    var th := s.threads[t];
    if th.Running? {
      if l :| l in th.held { e := Release(t, l); } else { e := Finish(t); }
    } else if th.n == 1 && !th.checked {
      e := Check(t);
    } else {
      assert th.checked by { BatchOrdered(lb, th.req); }
      e := Enter(t, s.hp);
    }
  }

  /** The stripe a waiting thread spins on. */
  function Want(lb: nat, th: Thread): (l: nat)
    requires Waiting(lb, th)
  {
    Batch(lb, th.req)[th.n]
  }

  /** A waiting thread wants a stripe above every stripe it holds. */
  lemma {:induction false} WantsHigher(lb: nat, th: Thread)
    requires Waiting(lb, th) && ThreadOk(lb, th)
    ensures Want(lb, th) < Pow2(lb)
    ensures forall l :: l in Held(lb, th) ==> l < Want(lb, th)
  {
    hide Batch, First;
    BatchOrdered(lb, th.req);
    assert Batch(lb, th.req)[th.n] in Batch(lb, th.req);
  }

  /** Whoever holds the stripe another thread waits for either can move or itself waits for a higher stripe. */
  lemma {:induction false} Chase(lb: nat, s: State, t: nat) returns (e: Step)
    requires Inv(lb, s) && t < |s.threads| && Waiting(lb, s.threads[t])
    ensures Enabled(lb, s, e) && !e.Start?
    decreases Pow2(lb) - Want(lb, s.threads[t])
  {
    hide Batch, Held, ThreadOk;
    WantsHigher(lb, s.threads[t]);
    if Want(lb, s.threads[t]) !in s.locked {
      e := Acquire(t);
    } else {
      var u :| 0 <= u < |s.threads| && Want(lb, s.threads[t]) in Held(lb, s.threads[u]);
      if Waiting(lb, s.threads[u]) {
        WantsHigher(lb, s.threads[u]);
        e := Chase(lb, s, u);
      } else {
        assert !s.threads[u].Idle? by { IdleHolds(lb, s.threads[u]); }
        e := NotWaitingMoves(lb, s, u);
      }
    }
  }

  lemma {:induction false} IdleHolds(lb: nat, th: Thread)
    requires ThreadOk(lb, th)
    ensures th.Idle? ==> Held(lb, th) == {}
  {}

  /** Deadlock freedom: while any thread is inside an operation, some thread inside an operation can move. */
  lemma {:induction false} Progress(lb: nat, s: State, t: nat) returns (e: Step)
    requires Inv(lb, s) && t < |s.threads| && !s.threads[t].Idle?
    ensures Enabled(lb, s, e) && !e.Start?
  {
    hide Batch, Held, Waiting;
    if Waiting(lb, s.threads[t]) { e := Chase(lb, s, t); } else { e := NotWaitingMoves(lb, s, t); }
  }

  /** An upper bound on the steps a thread still takes before it is idle. */
  function Work(lb: nat, th: Thread): nat
    requires ThreadOk(lb, th)
  {
    match th
    case Idle => 0
    case Acquiring(req, n, checked) => 2 * |Batch(lb, req)| - n + 2 + if checked then 0 else 1
    case Running(_, held) => |held| + 1
  }

  ghost predicate AllOk(lb: nat, threads: seq<Thread>) {
    forall t :: 0 <= t < |threads| ==> ThreadOk(lb, threads[t])
  }

  ghost function TotalWork(lb: nat, threads: seq<Thread>): nat
    requires AllOk(lb, threads)
  {
    if threads == [] then 0
    else TotalWork(lb, threads[..|threads| - 1]) + Work(lb, threads[|threads| - 1])
  }

  lemma {:induction false} TotalWorkUpdate(lb: nat, threads: seq<Thread>, t: nat, th: Thread)
    requires AllOk(lb, threads) && t < |threads| && ThreadOk(lb, th)
    ensures TotalWork(lb, threads[t := th]) == TotalWork(lb, threads) - Work(lb, threads[t]) + Work(lb, th)
  {
    hide ThreadOk, Work;
    var n := |threads| - 1;
    if t == n {
      assert threads[t := th][..n] == threads[..n];
    } else {
      assert threads[t := th][..n] == threads[..n][t := th];
      TotalWorkUpdate(lb, threads[..n], t, th);
    }
  }

  /** Every step other than the start of a new operation brings its thread nearer to idle. */
  lemma {:induction false} StepWorks(lb: nat, s: State, e: Step)
    requires Inv(lb, s) && Enabled(lb, s, e) && !e.Start?
    ensures Inv(lb, Next(lb, s, e))
    ensures TotalWork(lb, Next(lb, s, e).threads) < TotalWork(lb, s.threads)
  {
    hide Batch, TotalWork, Held;
    StepKeepsInv(lb, s, e);
    var s' := Next(lb, s, e);
    assert s'.threads == s.threads[e.t := s'.threads[e.t]];
    TotalWorkUpdate(lb, s.threads, e.t, s'.threads[e.t]);
  }

  predicate ValidRun(lb: nat, s: State, run: seq<Step>)
    decreases |run|
  {
    run == [] || (Enabled(lb, s, run[0]) && ValidRun(lb, Next(lb, s, run[0]), run[1..]))
  }

  function After(lb: nat, s: State, run: seq<Step>): State
    requires ValidRun(lb, s, run)
    decreases |run|
  {
    if run == [] then s else After(lb, Next(lb, s, run[0]), run[1..])
  }

  lemma {:induction false} RunKeepsInv(lb: nat, s: State, run: seq<Step>)
    requires Inv(lb, s) && ValidRun(lb, s, run)
    ensures Inv(lb, After(lb, s, run))
    decreases |run|
  {
    hide Inv, Enabled, Next;
    if run != [] {
      StepKeepsInv(lb, s, run[0]);
      RunKeepsInv(lb, Next(lb, s, run[0]), run[1..]);
    }
  }

  predicate Initial(s: State) {
    s.locked == {} && forall t :: 0 <= t < |s.threads| ==> s.threads[t].Idle?
  }

  /** No run from an unlocked table ever reaches a deadlock. */
  lemma {:induction false} NeverDeadlocked(lb: nat, s: State, run: seq<Step>)
    requires Initial(s) && ValidRun(lb, s, run)
    ensures Inv(lb, After(lb, s, run))
    ensures var s' := After(lb, s, run);
      (exists t :: 0 <= t < |s'.threads| && !s'.threads[t].Idle?) <==> (exists e :: Enabled(lb, s', e) && !e.Start?)
  {
    hide Batch, Next, After;
    assert Inv(lb, s);
    RunKeepsInv(lb, s, run);
    var s' := After(lb, s, run);
    if t :| 0 <= t < |s'.threads| && !s'.threads[t].Idle? {
      var e := Progress(lb, s', t);
    }
  }

  predicate NoStart(run: seq<Step>) {
    forall j :: 0 <= j < |run| ==> !run[j].Start?
  }

  /**
   * Once no new operation starts, every schedule is finite: its length is bounded by the work left, and where it
   * cannot be prolonged every thread is idle and every spinlock is free.
   */
  lemma {:induction false} EveryScheduleDrains(lb: nat, s: State, run: seq<Step>)
    requires Inv(lb, s) && ValidRun(lb, s, run) && NoStart(run)
    ensures |run| <= TotalWork(lb, s.threads)
    ensures (forall e :: Enabled(lb, After(lb, s, run), e) ==> e.Start?) ==> Initial(After(lb, s, run))
    decreases |run|
  {
    hide Enabled, Next, Held, TotalWork, ThreadOk;
    if run == [] {
      if t :| 0 <= t < |s.threads| && !s.threads[t].Idle? {
        var e := Progress(lb, s, t);
      } else {
        IdleHoldsNothing(lb, s);
      }
    } else {
      StepWorks(lb, s, run[0]);
      EveryScheduleDrains(lb, Next(lb, s, run[0]), run[1..]);
    }
  }

  lemma {:induction false} IdleHoldsNothing(lb: nat, s: State)
    requires Inv(lb, s) && forall t :: 0 <= t < |s.threads| ==> s.threads[t].Idle?
    ensures s.locked == {}
  {
    hide Batch, First;
    assert forall t :: 0 <= t < |s.threads| ==> Held(lb, s.threads[t]) == {};
    forall l ensures l !in s.locked {}
  }

  /**
   * Mutual exclusion: a thread that has entered its section and released nothing holds every stripe of its
   * buckets and no other thread holds any of them; after `lock_all` no other thread holds anything.
   */
  lemma {:induction false} Exclusive(lb: nat, s: State, e: Step, u: nat)
    requires Inv(lb, s) && Enabled(lb, s, e) && e.Enter? && u < |s.threads| && u != e.t
    ensures Inv(lb, Next(lb, s, e))
    ensures forall l: nat :: Wanted(lb, s.threads[e.t].req, l) ==>
      l in Held(lb, Next(lb, s, e).threads[e.t]) && l !in Held(lb, Next(lb, s, e).threads[u])
    ensures s.threads[e.t].req.All? ==> Held(lb, Next(lb, s, e).threads[u]) == {}
  {
    hide Batch, Wanted, Inv, First;
    StepKeepsInv(lb, s, e);
    var s' := Next(lb, s, e);
    var req := s.threads[e.t].req;
    BatchOrdered(lb, req);
    FirstAll(Batch(lb, req));
    assert forall l: nat :: Wanted(lb, req, l) ==> l in Held(lb, s'.threads[e.t]);
    Apart(lb, s', e.t, u);
    if req.All? {
      HeldInRange(lb, s'.threads[u]);
      forall l: nat | l < Pow2(lb) ensures l !in Held(lb, s'.threads[u]) { WantsAll(lb, l); }
    }
  }

  lemma {:induction false} FirstAll(s: seq<nat>)
    ensures forall l :: l in First(s, |s|) <==> l in s
  {}

  lemma {:induction false} Apart(lb: nat, s: State, t: nat, u: nat)
    requires Inv(lb, s) && t < |s.threads| && u < |s.threads| && t != u
    ensures ThreadOk(lb, s.threads[t]) && ThreadOk(lb, s.threads[u])
    ensures Held(lb, s.threads[t]) !! Held(lb, s.threads[u])
  {
    hide Held, ThreadOk;
  }

  lemma {:induction false} HeldInRange(lb: nat, th: Thread)
    requires ThreadOk(lb, th)
    ensures forall l :: l in Held(lb, th) ==> l < Pow2(lb)
  {
    hide Batch, First;
    if !th.Idle? { BatchOrdered(lb, th.req); }
    if th.Acquiring? { InFirst(Batch(lb, th.req), th.n); }
  }

  lemma WantsAll(lb: nat, l: nat)
    requires l < Pow2(lb)
    ensures Wanted(lb, All, l)
  {}

  // ---- one hashpower check covers the whole batch ----

  /** The hashpower a thread compared is still the current one, as long as it holds a stripe. */
  predicate StillCurrent(s: State, th: Thread) {
    match th
    case Idle => true
    case Acquiring(req, _, checked) => checked && !req.All? ==> req.hp == s.hp
    case Running(req, held) => held != {} && !req.All? ==> req.hp == s.hp
  }

  ghost predicate AllCurrent(s: State) {
    forall t :: 0 <= t < |s.threads| ==> StillCurrent(s, s.threads[t])
  }

  /** A thread that relies on its check holds at least one stripe. */
  lemma {:induction false} ReliesOnStripe(lb: nat, th: Thread)
    requires ThreadOk(lb, th) && !th.Idle? && !th.req.All?
    requires th.Acquiring? ==> th.checked
    requires th.Running? ==> th.held != {}
    ensures Held(lb, th) != {}
  {
    hide Batch;
    if th.Acquiring? { assert Batch(lb, th.req)[0] in First(Batch(lb, th.req), th.n); }
  }

  /** Only a thread that holds every stripe changes the hashpower, and then no other thread relies on a check. */
  lemma {:induction false} StepKeepsCurrent(lb: nat, s: State, e: Step)
    requires Inv(lb, s) && AllCurrent(s) && Enabled(lb, s, e)
    ensures AllCurrent(Next(lb, s, e))
  {
    hide Batch, Inv, Held, First, ThreadOk;
    var s' := Next(lb, s, e);
    forall u | 0 <= u < |s'.threads| ensures StillCurrent(s', s'.threads[u]) {
      assert StillCurrent(s, s.threads[u]);
      if u != e.t && e.Enter? && s.threads[e.t].req.All? { OthersHoldNothing(lb, s, e, u); }
    }
  }

  lemma {:induction false} OthersHoldNothing(lb: nat, s: State, e: Step, u: nat)
    requires Inv(lb, s) && Enabled(lb, s, e) && e.Enter? && s.threads[e.t].req.All? && u < |s.threads| && u != e.t
    ensures StillCurrent(Next(lb, s, e), s.threads[u])
  {
    hide Batch, First;
    Exclusive(lb, s, e, u);
    var th := s.threads[u];
    assert Next(lb, s, e).threads[u] == th;
    if !th.Idle? && !th.req.All? && (th.Acquiring? ==> th.checked) && (th.Running? ==> th.held != {}) {
      ReliesOnStripe(lb, th);
    }
  }

  lemma {:induction false} RunKeepsCurrent(lb: nat, s: State, run: seq<Step>)
    requires Inv(lb, s) && AllCurrent(s) && ValidRun(lb, s, run)
    ensures AllCurrent(After(lb, s, run))
    decreases |run|
  {
    hide Inv, Enabled, Next, AllCurrent;
    if run != [] {
      StepKeepsInv(lb, s, run[0]);
      StepKeepsCurrent(lb, s, run[0]);
      RunKeepsCurrent(lb, Next(lb, s, run[0]), run[1..]);
    }
  }

  /**
   * The comparison made right after the first lock holds for the whole batch: in every run, a thread that enters its
   * section does so at the hashpower it computed its buckets for, and that stays so while it holds any stripe.
   */
  lemma {:induction false} EntersAtItsHashpower(lb: nat, s: State, run: seq<Step>, t: nat, hp: nat)
    requires Initial(s) && ValidRun(lb, s, run) && t < |After(lb, s, run).threads|
    ensures var s' := After(lb, s, run);
      && (Enabled(lb, s', Enter(t, hp)) && !s'.threads[t].req.All? ==> s'.threads[t].req.hp == s'.hp == hp)
      && (s'.threads[t].Running? && s'.threads[t].held != {} && !s'.threads[t].req.All? ==>
        s'.threads[t].req.hp == s'.hp)
  {
    hide Batch, Next, After, ValidRun;
    assert Inv(lb, s);
    RunKeepsCurrent(lb, s, run);
    assert StillCurrent(After(lb, s, run), After(lb, s, run).threads[t]);
  }

  // ---- what the comparison decides ----

  /**
   * Right after its first lock a thread goes on with that lock exactly when the hashpower is the one it read before;
   * otherwise it gives back the one stripe it holds and is idle again. Nothing else changes either way.
   */
  lemma {:induction false} CheckDecides(lb: nat, s: State, t: nat)
    requires Inv(lb, s) && Enabled(lb, s, Check(t))
    ensures !s.threads[t].req.All? && |Held(lb, s.threads[t])| == 1
    ensures var s', req := Next(lb, s, Check(t)), s.threads[t].req;
      && s'.hp == s.hp
      && (s.hp == req.hp ==> s'.locked == s.locked && s'.threads == s.threads[t := Acquiring(req, 1, true)])
      && (s.hp != req.hp ==>
            s'.locked == s.locked - Held(lb, s.threads[t]) && s'.threads == s.threads[t := Idle])
  {
    hide Batch, Inv, First;
    HeldIsLocked(lb, s, t);
    FirstNext(Batch(lb, s.threads[t].req), 0);
  }

  /** The stripes of the batch from position n on are free. */
  ghost predicate RestFree(lb: nat, s: State, req: Request, n: nat) {
    forall j :: n <= j < |Batch(lb, req)| ==> Batch(lb, req)[j] !in s.locked
  }

  /** Thread t has entered its section with every stripe it wants, and nothing else has moved. */
  ghost predicate Entered(lb: nat, s: State, s': State, t: nat, req: Request)
    requires t < |s.threads|
  {
    && |s'.threads| == |s.threads| && s'.threads[t].Running? && s'.threads[t].req == req
    && (forall l: nat :: l in s'.threads[t].held <==> Wanted(lb, req, l))
    && (forall u :: 0 <= u < |s.threads| && u != t ==> s'.threads[u] == s.threads[u])
    && s'.hp == s.hp
  }

  lemma RunStep(lb: nat, s: State, e: Step, rest: seq<Step>)
    requires Enabled(lb, s, e) && ValidRun(lb, Next(lb, s, e), rest)
    ensures ValidRun(lb, s, [e] + rest) && After(lb, s, [e] + rest) == After(lb, Next(lb, s, e), rest)
  {
    hide Enabled, Next;
    assert ([e] + rest)[1..] == rest;
  }

  lemma {:induction false} JustEnters(lb: nat, s: State, t: nat) returns (run: seq<Step>)
    requires t < |s.threads| && s.threads[t].Acquiring? && s.threads[t].checked
    requires s.threads[t].n == |Batch(lb, s.threads[t].req)|
    ensures ValidRun(lb, s, run) && Entered(lb, s, After(lb, s, run), t, s.threads[t].req)
  {
    hide Batch, First, Wanted;
    var e := Enter(t, s.hp);
    run := [e] + [];
    RunStep(lb, s, e, []);
    BatchOrdered(lb, s.threads[t].req);
    FirstAll(Batch(lb, s.threads[t].req));
  }

  /** A checked thread whose remaining stripes are free takes them one after the other and enters. */
  lemma {:induction false} TakesTheRest(lb: nat, s: State, t: nat) returns (run: seq<Step>)
    requires t < |s.threads| && s.threads[t].Acquiring? && s.threads[t].checked
    requires s.threads[t].n <= |Batch(lb, s.threads[t].req)| && RestFree(lb, s, s.threads[t].req, s.threads[t].n)
    ensures ValidRun(lb, s, run) && Entered(lb, s, After(lb, s, run), t, s.threads[t].req)
    decreases |Batch(lb, s.threads[t].req)| - s.threads[t].n
  {
    hide Batch, First, Wanted, ValidRun, After;
    var th := s.threads[t];
    var b := Batch(lb, th.req);
    if th.n == |b| {
      run := JustEnters(lb, s, t);
    } else {
      var s1 := Next(lb, s, Acquire(t));
      assert RestFree(lb, s1, th.req, th.n + 1) by { assert Increasing(b) by { BatchOrdered(lb, th.req); } }
      var rest := TakesTheRest(lb, s1, t);
      RunStep(lb, s, Acquire(t), rest);
      run := [Acquire(t)] + rest;
    }
  }

  /**
   * A thread that asks with the current hashpower for stripes nobody holds enters its section with all of them by
   * its own steps, whatever the other threads hold elsewhere.
   */
  lemma {:induction false} AloneEnters(lb: nat, s: State, t: nat, req: Request) returns (run: seq<Step>)
    requires Inv(lb, s) && t < |s.threads| && s.threads[t].Idle? && (req.All? || req.hp == s.hp)
    requires forall l: nat :: Wanted(lb, req, l) ==> l !in s.locked
    ensures ValidRun(lb, s, run) && Entered(lb, s, After(lb, s, run), t, req)
  {
    hide Batch, First, Wanted, ValidRun, After, Inv;
    BatchOrdered(lb, req);
    var b := Batch(lb, req);
    assert RestFree(lb, s, req, 0) by {
      forall j | 0 <= j < |b| ensures b[j] !in s.locked { assert b[j] in b; }
    }
    var s1 := Next(lb, s, Start(t, req));
    if req.All? {
      var rest := TakesTheRest(lb, s1, t);
      RunStep(lb, s, Start(t, req), rest);
      run := [Start(t, req)] + rest;
    } else {
      var s2 := Next(lb, s1, Acquire(t));
      var s3 := Next(lb, s2, Check(t));
      StepKeepsInv(lb, s, Start(t, req));
      StepKeepsInv(lb, s1, Acquire(t));
      CheckDecides(lb, s2, t);
      assert RestFree(lb, s3, req, 1);
      var rest := TakesTheRest(lb, s3, t);
      RunStep(lb, s2, Check(t), rest);
      RunStep(lb, s1, Acquire(t), [Check(t)] + rest);
      RunStep(lb, s, Start(t, req), [Acquire(t)] + ([Check(t)] + rest));
      run := [Start(t, req)] + ([Acquire(t)] + ([Check(t)] + rest));
    }
  }

  /** A thread that asks with an outdated hashpower is idle again after one lock and holds nothing. */
  lemma {:induction false} StaleBacksOff(lb: nat, s: State, t: nat, req: Request)
    requires Inv(lb, s) && t < |s.threads| && s.threads[t].Idle? && !req.All? && req.hp != s.hp
    requires forall l: nat :: Wanted(lb, req, l) ==> l !in s.locked
    ensures var run := [Start(t, req), Acquire(t), Check(t)]; ValidRun(lb, s, run) && After(lb, s, run) == s
  {
    hide Batch, First, Wanted, ValidRun, After, Inv;
    BatchOrdered(lb, req);
    assert Batch(lb, req)[0] in Batch(lb, req);
    var s1 := Next(lb, s, Start(t, req));
    var s2 := Next(lb, s1, Acquire(t));
    StepKeepsInv(lb, s, Start(t, req));
    StepKeepsInv(lb, s1, Acquire(t));
    FirstNext(Batch(lb, req), 0);
    CheckDecides(lb, s2, t);
    var s3 := Next(lb, s2, Check(t));
    assert s3.threads == s.threads && s3.locked == s.locked;
    EmptyRun(lb, s3);
    RunStep(lb, s2, Check(t), []);
    RunStep(lb, s1, Acquire(t), [Check(t)] + []);
    RunStep(lb, s, Start(t, req), [Acquire(t)] + ([Check(t)] + []));
    assert [Start(t, req)] + ([Acquire(t)] + ([Check(t)] + [])) == [Start(t, req), Acquire(t), Check(t)];
  }

  lemma EmptyRun(lb: nat, s: State)
    ensures ValidRun(lb, s, []) && After(lb, s, []) == s
  {}
}
