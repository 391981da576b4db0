/** Any number of threads on one shared cuckoo table. A step is one lock-protected section; between two sections
    of a thread the others may do anything. A thread that has displaced entries keeps the stripes of its two
    insert buckets until it has looked for a duplicate again and inserted. */
module Concurrent {
  import opened Common
  import opened Bits
  import opened Hashing
  import opened Table
  import opened Doubling
  import opened Container
  import opened Stripes
  import opened Sizing
  import opened Displacement
  import opened SharedTable

  datatype Op<K, V> = Find(k: K) | Insert(k: K, v: V) | Erase(k: K) | Update(k: K, v: V) | Clear

  /** `LoadFactorTooLow` carries the hashpower at which the exception was thrown. */
  datatype Ret<V> = Got(found: Option<V>) | Did(ok: bool) | LoadFactorTooLow(hp: nat) | Done

  datatype Event<K, V> = Event(tid: nat, op: Op<K, V>, ret: Ret<V>)

  datatype Thread<K, V> =
    | Idle
    | Answered(event: Event<K, V>)                                           // about to return
    | Ready(op: Op<K, V>)                                                    // about to read the hashpower
    | Primed(op: Op<K, V>, hp: nat)                                          // about to lock both buckets
    | Searching(k: K, v: V, hp: nat)                                         // both buckets full, no lock held
    | Moving(k: K, v: V, hp: nat, path: seq<CuckooRecord>, depth: nat)       // walking back a cuckoo path
    | Holding(k: K, v: V, hp: nat, b: nat, s: nat)                           // freed (b, s), both stripes held
    | Expanding(k: K, v: V, hp: nat)                                         // no path found, about to double

  /** `log` holds the calls in the order in which they took effect; `invoked` and `returned` are kept per thread. */
  datatype State<K, V> = State(tab: Tab<K, V>, threads: map<nat, Thread<K, V>>, log: seq<Event<K, V>>,
                               invoked: map<nat, seq<Op<K, V>>>, returned: map<nat, seq<Event<K, V>>>)

  /** What a section leaves behind: the table, the thread's next state and, at its end, the answer. */
  datatype Outcome<K, V> = Outcome(tab: Tab<K, V>, thread: Thread<K, V>, ret: Option<Ret<V>>)

  // ---- the plain map ----

  /**
   * ret is a correct answer of op on the plain map m. An insert may give up only when m is too small for the table;
   * the source decides that without looking at the key again.
   */
  ghost predicate Agrees<K, V>(c: Config<K>, m: map<K, V>, op: Op<K, V>, ret: Ret<V>) {
    match op
    case Find(k) => ret == Got(if k in m then Some(m[k]) else None)
    case Insert(k, v) =>
      ret == Did(k !in m) || (ret.LoadFactorTooLow? && Sparse(|m|, c.S, ret.hp, c.mlf))
    case Erase(k) => ret == Did(k in m)
    case Update(k, v) => ret == Did(k in m)
    case Clear => ret == Done
  }

  /** The plain map after op answered ret. */
  ghost function Effect<K, V>(m: map<K, V>, op: Op<K, V>, ret: Ret<V>): map<K, V> {
    match op
    case Find(k) => m
    case Insert(k, v) => if ret == Did(true) then m[k := v] else m
    case Erase(k) => m - {k}
    case Update(k, v) => if ret == Did(true) then m[k := v] else m
    case Clear => map[]
  }

  ghost function Replay<K, V>(log: seq<Event<K, V>>): map<K, V> {
    if log == [] then map[]
    else Effect(Replay(log[..|log| - 1]), log[|log| - 1].op, log[|log| - 1].ret)
  }

  /** Every answer in the log is the one a plain map would have given at that point. */
  ghost predicate Legal<K, V>(c: Config<K>, log: seq<Event<K, V>>) {
    log == [] ||
    (Legal(c, log[..|log| - 1]) && Agrees(c, Replay(log[..|log| - 1]), log[|log| - 1].op, log[|log| - 1].ret))
  }

  // ---- sections ----

  /** Taking one stripe migrates it first. */
  ghost function Lock1<K(!new), V>(c: Config<K>, t: Tab<K, V>, i: nat): (r: Tab<K, V>)
    requires TabOk(c, t)
    ensures TabOk(c, r) && r.hp == t.hp && Held(c, r) == Held(c, t) && Snap(c, r) == Snap(c, t)
    ensures StripeMigrated(c, r, i) && Untouching(c, t, r, {Stripe(c, i)})
  {
    hide Layout, Good, Held, Sum, Unmigrated, Untouching, Snap;
    LayoutOf(c, t);
    MigrateKeeps(c, t, Stripe(c, i));
    MigrateUntouching(c, t, Stripe(c, i));
    MigrateStripe(c, t, Stripe(c, i))
  }

  ghost function Lock2<K(!new), V>(c: Config<K>, t: Tab<K, V>, i1: nat, i2: nat): (r: Tab<K, V>)
    requires TabOk(c, t)
    ensures TabOk(c, r) && r.hp == t.hp && Held(c, r) == Held(c, t) && Snap(c, r) == Snap(c, t)
    ensures StripeMigrated(c, r, i1) && StripeMigrated(c, r, i2)
    ensures Untouching(c, t, r, {Stripe(c, i1), Stripe(c, i2)})
  {
    hide Layout, Good, Held, Sum, Unmigrated, Untouching, Snap, Lock1, StripeMigrated;
    var m := Lock1(c, t, i1);
    var r := Lock1(c, m, i2);
    StaysMigrated(c, m, r, {Stripe(c, i2)}, i1);
    UntouchingThen(c, t, m, r, {Stripe(c, i1)}, {Stripe(c, i2)});
    assert {Stripe(c, i1)} + {Stripe(c, i2)} == {Stripe(c, i1), Stripe(c, i2)};
    r
  }

  lemma {:induction false} StaysMigrated<K, V>(c: Config<K>, t: Tab<K, V>, r: Tab<K, V>, ls: set<nat>, b: nat)
    requires Untouching(c, t, r, ls) && StripeMigrated(c, t, b)
    ensures StripeMigrated(c, r, b)
  {
  }

  ghost function First<K>(c: Config<K>, hp: nat, k: K): (i: nat)
    ensures i < Pow2(hp)
  {
    IndexHash(hp, c.h(k))
  }

  ghost function Second<K>(c: Config<K>, hp: nat, k: K): (i: nat)
    ensures i < Pow2(hp)
  {
    SecondIndex(hp, c.h(k))
  }

  /** The stripes a thread keeps between two of its sections. */
  ghost function HeldStripes<K, V>(c: Config<K>, th: Thread<K, V>): set<nat> {
    if th.Holding? then {Stripe(c, First(c, th.hp, th.k)), Stripe(c, Second(c, th.hp, th.k))} else {}
  }

  /** The section of find_fn, erase_fn, update_fn and of the first part of an insert, hashpower unchanged. */
  ghost function OpSection<K(!new), V>(c: Config<K>, t: Tab<K, V>, op: Op<K, V>): Outcome<K, V>
    requires TabOk(c, t) && !op.Clear?
  {
    hide Layout, Good, Held, Sum, Unmigrated, IndexHash, SecondIndex, PartialKey;
    hide Untouching, StripeMigrated, Locate, Lock2, Snap;
    LayoutOf(c, t);
    var i1, i2 := First(c, t.hp, op.k), Second(c, t.hp, op.k);
    var r := Lock2(c, t, i1, i2);
    LayoutOf(c, r);
    LocateDecides(c, r, op.k);
    var pos := Locate(c, r, op.k);
    match op
    case Find(k) => Outcome(r, Idle, Some(Got(if pos.None? then None else Some(ValueAt(r, pos.value)))))
    case Erase(k) =>
      if pos.None? then Outcome(r, Idle, Some(Did(false)))
      else Outcome(StoreAt(c, r, pos.value, Empty, -1), Idle, Some(Did(true)))
    case Update(k, v) =>
      if pos.None? then Outcome(r, Idle, Some(Did(false)))
      else Outcome(StoreAt(c, r, pos.value, SlotAt(r, pos.value, v), 0), Idle, Some(Did(true)))
    case Insert(k, v) =>
      if pos.Some? then Outcome(r, Idle, Some(Did(false)))
      else
        var f1, f2 := LastEmpty(r.cur[i1], |r.cur[i1]|), LastEmpty(r.cur[i2], |r.cur[i2]|);
        var x := Full(PartialKey(c.h(k)), k, v);
        if f1.Some? then Outcome(StoreAt(c, r, (i1, f1.value), x, 1), Idle, Some(Did(true)))
        else if f2.Some? then Outcome(StoreAt(c, r, (i2, f2.value), x, 1), Idle, Some(Did(true)))
        else Outcome(r, Searching(k, v, t.hp), None)
  }

  ghost function ValueAt<K, V>(t: Tab<K, V>, p: (nat, nat)): V
    requires HasAt(t.cur, p.0, p.1) && t.cur[p.0][p.1].Full?
  {
    t.cur[p.0][p.1].value
  }

  ghost function SlotAt<K, V>(t: Tab<K, V>, p: (nat, nat), v: V): Slot<K, V>
    requires HasAt(t.cur, p.0, p.1) && t.cur[p.0][p.1].Full?
  {
    t.cur[p.0][p.1].(value := v)
  }

  ghost function StoreAt<K, V>(c: Config<K>, t: Tab<K, V>, p: (nat, nat), x: Slot<K, V>, delta: int): Tab<K, V>
    requires HasAt(t.cur, p.0, p.1) && Stripe(c, p.0) < |t.locks|
  {
    Store(c, t, p.0, p.1, x, delta)
  }

  /** The section is a correct step of op on the plain map: silent without an answer, atomic with one. */
  ghost predicate Sound<K(!new), V>(c: Config<K>, t: Tab<K, V>, op: Op<K, V>, o: Outcome<K, V>)
    requires TabOk(c, t)
  {
    && TabOk(c, o.tab)
    && (o.ret.None? ==> Held(c, o.tab) == Held(c, t))
    && (o.ret.Some? ==> Agrees(c, Held(c, t), op, o.ret.value) && Held(c, o.tab) == Effect(Held(c, t), op, o.ret.value))
  }

  ghost function KeyStripes<K>(c: Config<K>, hp: nat, k: K): set<nat> {
    {Stripe(c, First(c, hp, k)), Stripe(c, Second(c, hp, k))}
  }

  lemma {:induction false} StoreAtUntouching<K, V>(c: Config<K>, t: Tab<K, V>, r: Tab<K, V>, p: (nat, nat),
      x: Slot<K, V>, delta: int,
                                                   ls: set<nat>)
    requires Untouching(c, t, r, ls) && HasAt(r.cur, p.0, p.1) && Stripe(c, p.0) < |r.locks| && Stripe(c, p.0) in ls
    ensures Untouching(c, t, StoreAt(c, r, p, x, delta), ls)
  {
    StoreUntouching(c, r, p.0, p.1, x, delta);
    UntouchingThen(c, t, r, StoreAt(c, r, p, x, delta), ls, {Stripe(c, p.0)});
    assert ls + {Stripe(c, p.0)} == ls;
  }

  lemma {:induction false} OpSectionSound<K(!new), V>(c: Config<K>, t: Tab<K, V>, op: Op<K, V>)
    requires TabOk(c, t) && !op.Clear?
    ensures Sound(c, t, op, OpSection(c, t, op))
    ensures Untouching(c, t, OpSection(c, t, op).tab, KeyStripes(c, t.hp, op.k))
    ensures OpSection(c, t, op).thread == Idle ||
      (op.Insert? && OpSection(c, t, op).thread == Searching(op.k, op.v, t.hp))
  {
    hide Layout, Good, Held, Sum, Unmigrated, IndexHash, SecondIndex, Untouching;
    hide StripeMigrated, Locate, Lock2, Snap, Store, PartialKey;
    var i1, i2 := First(c, t.hp, op.k), Second(c, t.hp, op.k);
    var r := Lock2(c, t, i1, i2);
    LayoutOf(c, r);
    LocateDecides(c, r, op.k);
    var pos := Locate(c, r, op.k);
    if pos.Some? && !op.Find? && !op.Insert? {
      var (b, s) := pos.value;
      var x := if op.Erase? then Empty else SlotAt(r, pos.value, op.v);
      StoreAtUntouching(c, t, r, pos.value, x, if op.Erase? then -1 else 0, KeyStripes(c, t.hp, op.k));
      if op.Erase? { StoreErases(c, r, b, s, op.k); } else { StoreUpdates(c, r, b, s, op.k, op.v); }
    }
    if pos.None? && op.Erase? { assert Held(c, r) - {op.k} == Held(c, r); }
    if pos.None? && op.Insert? { InsertSectionSound(c, t, op.k, op.v); }
  }

  lemma {:induction false} LayoutOf<K(!new), V>(c: Config<K>, t: Tab<K, V>)
    requires TabOk(c, t)
    ensures Layout(c, t) && |t.locks| == Pow2(c.lb) && |t.cur| == Pow2(t.hp) && 1 <= c.S <= 8
  {
  }

  /** The insert section when the key is in neither bucket. */
  lemma {:induction false} InsertSectionSound<K(!new), V>(c: Config<K>, t: Tab<K, V>, k: K, v: V)
    requires TabOk(c, t) && Locate(c, Lock2(c, t, First(c, t.hp, k), Second(c, t.hp, k)), k).None?
    ensures Sound(c, t, Insert(k, v), OpSection(c, t, Insert(k, v)))
    ensures Untouching(c, t, OpSection(c, t, Insert(k, v)).tab, KeyStripes(c, t.hp, k))
  {
    hide Layout, Good, Held, Sum, Unmigrated, IndexHash, SecondIndex, Untouching;
    hide StripeMigrated, Locate, Lock2, Snap, Store, PartialKey;
    var i1, i2 := First(c, t.hp, k), Second(c, t.hp, k);
    var r := Lock2(c, t, i1, i2);
    LayoutOf(c, r);
    LocateDecides(c, r, k);
    var f1, f2 := LastEmpty(r.cur[i1], |r.cur[i1]|), LastEmpty(r.cur[i2], |r.cur[i2]|);
    var x := Full(PartialKey(c.h(k)), k, v);
    if f1.Some? {
      StoreAdds(c, r, i1, f1.value, k, v);
      StoreAtUntouching(c, t, r, (i1, f1.value), x, 1, KeyStripes(c, t.hp, k));
    } else if f2.Some? {
      StoreAdds(c, r, i2, f2.value, k, v);
      StoreAtUntouching(c, t, r, (i2, f2.value), x, 1, KeyStripes(c, t.hp, k));
    }
  }

  /** What the unlocked search may have written down: buckets linked by alternate indices, contents unknown. */
  ghost predicate PathOk<K>(c: Config<K>, hp: nat, k: K, path: seq<CuckooRecord>, depth: nat) {
    && depth < |path|
    && (forall j: nat :: j <= depth ==> path[j].bucket < Pow2(hp) && path[j].slot < c.S)
    && (path[0].bucket == First(c, hp, k) || path[0].bucket == Second(c, hp, k))
    && (forall j: nat :: j < depth ==> path[j + 1].bucket == AltIndex(hp, PartialKey(path[j].hash), path[j].bucket))
  }

  /** The last check of cuckoopath_move at depth 0: is the slot still empty? */
  ghost function ClaimSection<K(!new), V>(c: Config<K>, t: Tab<K, V>, k: K, v: V, b: nat, s: nat): Outcome<K, V>
    requires TabOk(c, t)
  {
    var r := Lock2(c, t, First(c, t.hp, k), Second(c, t.hp, k));
    Outcome(r, if OpenSlot(r.cur, b, s) then Holding(k, v, t.hp, b, s) else Searching(k, v, t.hp), None)
  }

  /** The stripes taken for one displacement: the last one also takes both insert buckets. */
  ghost function MoveStripes<K>(c: Config<K>, hp: nat, k: K, path: seq<CuckooRecord>, depth: nat): set<nat>
    requires 0 < depth < |path|
  {
    if depth == 1 then KeyStripes(c, hp, k) + {Stripe(c, path[1].bucket)}
    else {Stripe(c, path[depth - 1].bucket), Stripe(c, path[depth].bucket)}
  }

  ghost function MoveLocks<K(!new), V>(c: Config<K>, t: Tab<K, V>, k: K, path: seq<CuckooRecord>,
      depth: nat): (r: Tab<K, V>)
    requires TabOk(c, t) && 0 < depth < |path| && PathOk(c, t.hp, k, path, depth)
    ensures TabOk(c, r) && r.hp == t.hp && Held(c, r) == Held(c, t) && Snap(c, r) == Snap(c, t)
    ensures StripeMigrated(c, r, path[depth - 1].bucket) && StripeMigrated(c, r, path[depth].bucket)
    ensures depth == 1 ==> StripeMigrated(c, r, First(c, t.hp, k)) && StripeMigrated(c, r, Second(c, t.hp, k))
    ensures Untouching(c, t, r, MoveStripes(c, t.hp, k, path, depth))
  {
    hide Layout, Good, Held, Sum, Unmigrated, Untouching, Snap, Lock1, Lock2, StripeMigrated, First, Second, Stripe;
    if depth == 1 then
      var m := Lock2(c, t, First(c, t.hp, k), Second(c, t.hp, k));
      var r := Lock1(c, m, path[1].bucket);
      StaysMigrated(c, m, r, {Stripe(c, path[1].bucket)}, First(c, t.hp, k));
      StaysMigrated(c, m, r, {Stripe(c, path[1].bucket)}, Second(c, t.hp, k));
      UntouchingThen(c, t, m, r, KeyStripes(c, t.hp, k), {Stripe(c, path[1].bucket)});
      r
    else Lock2(c, t, path[depth - 1].bucket, path[depth].bucket)
  }

  /** One displacement section of cuckoopath_move: re-validated, and given up if anything changed. */
  ghost function MoveSection<K(!new), V>(c: Config<K>, t: Tab<K, V>, k: K, v: V, path: seq<CuckooRecord>,
      depth: nat): Outcome<K, V>
    requires TabOk(c, t) && PathOk(c, t.hp, k, path, depth) && depth > 0
  {
    hide Good, Held, Sum, Unmigrated, Untouching, Snap, MoveLocks, StripeMigrated;
    var from, to := path[depth - 1], path[depth];
    var r := MoveLocks(c, t, k, path, depth);
    if OpenSlot(r.cur, to.bucket, to.slot) && HasAt(r.cur, from.bucket, from.slot)
       && r.cur[from.bucket][from.slot].Full? && c.h(r.cur[from.bucket][from.slot].key) == from.hash then
      Outcome(Kick(c, r, from.bucket, from.slot, to.bucket, to.slot),
              if depth == 1 then Holding(k, v, t.hp, from.bucket, from.slot)
              else Moving(k, v, t.hp, path, depth - 1), None)
    else Outcome(r, Searching(k, v, t.hp), None)
  }

  lemma {:induction false} MoveSectionSound<K(!new), V>(c: Config<K>, t: Tab<K, V>, k: K, v: V,
      path: seq<CuckooRecord>, depth: nat)
    requires TabOk(c, t) && PathOk(c, t.hp, k, path, depth) && depth > 0
    ensures Sound(c, t, Insert(k, v), MoveSection(c, t, k, v, path, depth))
    ensures Untouching(c, t, MoveSection(c, t, k, v, path, depth).tab, MoveStripes(c, t.hp, k, path, depth))
    ensures ThreadOk(c, MoveSection(c, t, k, v, path, depth).tab, MoveSection(c, t, k, v, path, depth).thread)
    ensures var th := MoveSection(c, t, k, v, path, depth).thread;
      th.Holding? ==> depth == 1 && th.k == k && th.hp == t.hp
  {
    hide Layout, Good, Held, Sum, Unmigrated, Untouching, Snap, MoveLocks;
    hide StripeMigrated, AltIndex, PartialKey, First, Second, Stripe, Displace;
    var from, to := path[depth - 1], path[depth];
    var r := MoveLocks(c, t, k, path, depth);
    LayoutOf(c, r);
    if OpenSlot(r.cur, to.bucket, to.slot) && HasAt(r.cur, from.bucket, from.slot)
       && r.cur[from.bucket][from.slot].Full? && c.h(r.cur[from.bucket][from.slot].key) == from.hash {
      var t' := Kick(c, r, from.bucket, from.slot, to.bucket, to.slot);
      KickKeeps(c, r, from.bucket, from.slot, to.bucket, to.slot);
      KickUntouching(c, r, from.bucket, from.slot, to.bucket, to.slot);
      var ls := {Stripe(c, from.bucket), Stripe(c, to.bucket)};
      UntouchingThen(c, t, r, t', MoveStripes(c, t.hp, k, path, depth), ls);
      assert MoveStripes(c, t.hp, k, path, depth) + ls == MoveStripes(c, t.hp, k, path, depth);
      KickFrees(c, r, from.bucket, from.slot, to.bucket, to.slot);
      StaysMigrated(c, r, t', ls, from.bucket);
      if depth == 1 {
        StaysMigrated(c, r, t', ls, First(c, t.hp, k));
        StaysMigrated(c, r, t', ls, Second(c, t.hp, k));
      }
    }
  }

  lemma {:induction false} KickFrees<K, V>(c: Config<K>, t: Tab<K, V>, b: nat, s: nat, d: nat, u: nat)
    requires HasAt(t.cur, b, s) && t.cur[b][s].Full? && OpenSlot(t.cur, d, u)
    ensures OpenSlot(Kick(c, t, b, s, d, u).cur, b, s) && Kick(c, t, b, s, d, u).hp == t.hp
  {
  }

  /** What a thread may rely on between two of its sections. */
  ghost predicate ThreadOk<K, V>(c: Config<K>, t: Tab<K, V>, th: Thread<K, V>) {
    && (th.Moving? ==> PathOk(c, th.hp, th.k, th.path, th.depth))
    && (th.Primed? ==> !th.op.Clear?)
    && (th.Holding? ==>
          && th.hp == t.hp && OpenSlot(t.cur, th.b, th.s)
          && (th.b == First(c, t.hp, th.k) || th.b == Second(c, t.hp, th.k))
          && StripeMigrated(c, t, First(c, t.hp, th.k)) && StripeMigrated(c, t, Second(c, t.hp, th.k)))
  }

  /** The end of a displacing insert: look for a duplicate again, then fill the freed slot. */
  ghost function FinishSection<K(!new), V>(c: Config<K>, t: Tab<K, V>, th: Thread<K, V>): Outcome<K, V>
    requires TabOk(c, t) && th.Holding? && ThreadOk(c, t, th)
  {
    hide Good, Held, Sum, Unmigrated, Snap, Locate;
    LayoutOf(c, t);
    if Locate(c, t, th.k).Some? then Outcome(t, Idle, Some(Did(false)))
    else Outcome(Store(c, t, th.b, th.s, Full(PartialKey(c.h(th.k)), th.k, th.v), 1), Idle, Some(Did(true)))
  }

  lemma {:induction false} FinishSectionSound<K(!new), V>(c: Config<K>, t: Tab<K, V>, th: Thread<K, V>)
    requires TabOk(c, t) && th.Holding? && ThreadOk(c, t, th)
    ensures Sound(c, t, Insert(th.k, th.v), FinishSection(c, t, th))
    ensures Untouching(c, t, FinishSection(c, t, th).tab, HeldStripes(c, th)) && FinishSection(c, t, th).thread == Idle
  {
    hide Layout, Good, Held, Sum, Unmigrated, Snap, Locate, Store, PartialKey;
    LocateDecides(c, t, th.k);
    LayoutOf(c, t);
    var x := Full(PartialKey(c.h(th.k)), th.k, th.v);
    if Locate(c, t, th.k).None? {
      StoreAdds(c, t, th.b, th.s, th.k, th.v);
      StoreUntouching(c, t, th.b, th.s, x, 1);
    }
  }

  /** cuckoo_fast_double under all stripes: load factor first, then the hashpower, then the doubling. */
  ghost function ExpandSection<K(!new), V>(c: Config<K>, t: Tab<K, V>, k: K, v: V, hp: nat): Outcome<K, V>
    requires TabOk(c, t)
  {
    if LoadFactor(Sum(t.locks), c.S, t.hp) < c.mlf then Outcome(t, Idle, Some(LoadFactorTooLow(t.hp)))
    else if t.hp != hp then Outcome(t, Ready(Insert(k, v)), None)
    else Outcome(Double(c, t), Ready(Insert(k, v)), None)
  }

  // ---- steps ----

  datatype Step<K, V> =
    | Invoke(tid: nat, op: Op<K, V>)
    | ReadHashpower(tid: nat)
    | Restart(tid: nat)                                            // hashpower_changed
    | Section(tid: nat)
    | Touch(tid: nat, b: nat)                                      // lock_one during a search
    | FoundPath(tid: nat, path: seq<CuckooRecord>, depth: nat)
    | NoPath(tid: nat)
    | Advance(tid: nat)                                            // one section of cuckoopath_move
    | Finish(tid: nat)
    | Expand(tid: nat)
    | ClearAll(tid: nat)
    | Return(tid: nat)

  /** No other thread holds one of these stripes. */
  ghost predicate Free<K, V>(c: Config<K>, s: State<K, V>, tid: nat, ls: set<nat>) {
    forall u :: u in s.threads && u != tid ==> HeldStripes(c, s.threads[u]) !! ls
  }

  /** lock_all succeeds: no other thread holds any stripe. */
  ghost predicate NoHolder<K, V>(s: State<K, V>, tid: nat) {
    forall u :: u in s.threads && u != tid ==> !s.threads[u].Holding?
  }

  ghost predicate Enabled<K, V>(c: Config<K>, s: State<K, V>, step: Step<K, V>) {
    step.tid in s.threads &&
    var th, hp := s.threads[step.tid], s.tab.hp;
    match step
    case Invoke(tid, op) => th.Idle?
    case ReadHashpower(tid) => th.Ready? && !th.op.Clear?
    case Restart(tid) => (th.Primed? || th.Searching? || th.Moving?) && th.hp != hp
    case Section(tid) => th.Primed? && th.hp == hp && !th.op.Clear? && Free(c, s, tid, KeyStripes(c, hp, th.op.k))
    case Touch(tid, b) => th.Searching? && th.hp == hp && Free(c, s, tid, {Stripe(c, b)})
    case FoundPath(tid, path, depth) => th.Searching? && PathOk(c, th.hp, th.k, path, depth)
    case NoPath(tid) => th.Searching?
    case Advance(tid) => th.Moving? && th.hp == hp && PathOk(c, hp, th.k, th.path, th.depth)
      && Free(c, s, tid, if th.depth == 0 then KeyStripes(c, hp, th.k) else MoveStripes(c, hp, th.k, th.path, th.depth))
    case Finish(tid) => th.Holding? && ThreadOk(c, s.tab, th)
    case Expand(tid) => th.Expanding? && NoHolder(s, tid)
    case ClearAll(tid) => th == Ready(Clear) && NoHolder(s, tid)
    case Return(tid) => th.Answered?
  }

  ghost function OpOf<K, V>(th: Thread<K, V>): Op<K, V> {
    match th
    case Idle => Clear
    case Answered(event) => event.op
    case Ready(op) => op
    case Primed(op, _) => op
    case _ => Insert(th.k, th.v)
  }

  ghost function Result<K(!new), V>(c: Config<K>, s: State<K, V>, step: Step<K, V>): Outcome<K, V>
    requires TabOk(c, s.tab) && Enabled(c, s, step)
  {
    hide Layout, Good, Held, Sum, Unmigrated, Snap, OpSection;
    hide MoveSection, ClaimSection, FinishSection, ExpandSection, Lock1;
    LayoutOf(c, s.tab);
    var th, t := s.threads[step.tid], s.tab;
    match step
    case Invoke(tid, op) => Outcome(t, Ready(op), None)
    case ReadHashpower(tid) => Outcome(t, Primed(th.op, t.hp), None)
    case Restart(tid) => Outcome(t, Ready(OpOf(th)), None)
    case Section(tid) => OpSection(c, t, th.op)
    case Touch(tid, b) => Outcome(Lock1(c, t, b), th, None)
    case FoundPath(tid, path, depth) => Outcome(t, Moving(th.k, th.v, th.hp, path, depth), None)
    case NoPath(tid) => Outcome(t, Expanding(th.k, th.v, th.hp), None)
    case Advance(tid) =>
      if th.depth == 0 then ClaimSection(c, t, th.k, th.v, th.path[0].bucket, th.path[0].slot)
      else MoveSection(c, t, th.k, th.v, th.path, th.depth)
    case Finish(tid) => FinishSection(c, t, th)
    case Expand(tid) => ExpandSection(c, t, th.k, th.v, th.hp)
    case ClearAll(tid) => Outcome(Cleared(c, t), Idle, Some(Done))
    case Return(tid) => Outcome(t, Idle, None)
  }

  /** The history of thread tid after its step. */
  ghost function Appended<T>(m: map<nat, seq<T>>, tid: nat, x: Option<T>): map<nat, seq<T>> {
    if x.Some? && tid in m then m[tid := m[tid] + [x.value]] else m
  }

  /** A section with an answer takes effect now; an idle thread that becomes ready has just been called. */
  ghost function Commit<K, V>(s: State<K, V>, tid: nat, o: Outcome<K, V>): State<K, V>
    requires tid in s.threads
  {
    var th := s.threads[tid];
    var event := if o.ret.None? then None else Some(Event(tid, OpOf(th), o.ret.value));
    State(o.tab, s.threads[tid := if event.Some? then Answered(event.value) else o.thread],
          if event.Some? then s.log + [event.value] else s.log,
          Appended(s.invoked, tid, if th.Idle? then Some(OpOf(o.thread)) else None),
          Appended(s.returned, tid, if th.Answered? then Some(th.event) else None))
  }

  ghost predicate Next<K(!new), V(!new)>(c: Config<K>, s: State<K, V>, s': State<K, V>) {
    exists step :: StepTo(c, s, step, s')
  }

  ghost predicate StepTo<K(!new), V>(c: Config<K>, s: State<K, V>, step: Step<K, V>, s': State<K, V>) {
    TabOk(c, s.tab) && Enabled(c, s, step) && s' == Commit(s, step.tid, Result(c, s, step))
  }

  // ---- the invariant ----

  /** Two threads never hold the same stripe. */
  ghost predicate Exclusive<K, V>(c: Config<K>, s: State<K, V>) {
    forall u, w :: u in s.threads && w in s.threads && u != w ==>
      HeldStripes(c, s.threads[u]) !! HeldStripes(c, s.threads[w])
  }

  /** The log is a correct sequential history of a plain map, and the table holds what it leads to. */
  ghost predicate Linearized<K, V>(c: Config<K>, s: State<K, V>)
    requires Layout(c, s.tab)
  {
    Legal(c, s.log) && Replay(s.log) == Held(c, s.tab)
  }

  ghost predicate Inv<K(!new), V>(c: Config<K>, s: State<K, V>) {
    && TabOk(c, s.tab)
    && (forall u :: u in s.threads ==> ThreadOk(c, s.tab, s.threads[u]))
    && Exclusive(c, s)
    && Linearized(c, s)
  }

  lemma {:induction false} LogStep<K(!new), V>(c: Config<K>, s: State<K, V>, tid: nat, o: Outcome<K, V>)
    requires TabOk(c, s.tab) && Linearized(c, s) && tid in s.threads && Sound(c, s.tab, OpOf(s.threads[tid]), o)
    ensures Linearized(c, Commit(s, tid, o))
  {
    hide Good, Held, Sum, Unmigrated, Snap, Agrees, Effect;
    if o.ret.Some? {
      var log := s.log + [Event(tid, OpOf(s.threads[tid]), o.ret.value)];
      assert log[..|log| - 1] == s.log;
    }
  }

  /** A thread that holds stripes is not disturbed by a section on other stripes. */
  lemma {:induction false} OthersOk<K, V>(c: Config<K>, t: Tab<K, V>, t': Tab<K, V>, th: Thread<K, V>, ls: set<nat>)
    requires ThreadOk(c, t, th) && Untouching(c, t, t', ls) && HeldStripes(c, th) !! ls && |t.cur| == Pow2(t.hp)
    ensures ThreadOk(c, t', th)
  {
    hide PathOk, First, Second, Stripe;
    if th.Holding? {
      StaysMigrated(c, t, t', ls, First(c, t.hp, th.k));
      StaysMigrated(c, t, t', ls, Second(c, t.hp, th.k));
      assert Stripe(c, th.b) in HeldStripes(c, th);
    }
  }

  lemma {:induction false} LocalCommit<K(!new), V>(c: Config<K>, s: State<K, V>, tid: nat, o: Outcome<K, V>,
      ls: set<nat>)
    requires Inv(c, s) && tid in s.threads && Free(c, s, tid, ls)
    requires Sound(c, s.tab, OpOf(s.threads[tid]), o) && Untouching(c, s.tab, o.tab, ls)
    requires ThreadOk(c, o.tab, o.thread) && HeldStripes(c, o.thread) <= ls
    ensures Inv(c, Commit(s, tid, o))
  {
    hide Layout, Good, Held, Sum, Unmigrated, Snap, Legal, Replay, Agrees, Effect, HeldStripes, ThreadOk, Untouching;
    var s' := Commit(s, tid, o);
    LayoutOf(c, s.tab);
    LogStep(c, s, tid, o);
    forall u | u in s'.threads ensures ThreadOk(c, s'.tab, s'.threads[u]) {
      if u != tid { OthersOk(c, s.tab, o.tab, s.threads[u], ls); }
      if u == tid && o.ret.Some? { AnsweredHoldsNothing(c, s'.tab, s'.threads[tid]); }
    }
    ExclusiveStep(c, s, tid, o, ls);
  }

  lemma {:induction false} AnsweredHoldsNothing<K, V>(c: Config<K>, t: Tab<K, V>, th: Thread<K, V>)
    requires th.Answered?
    ensures ThreadOk(c, t, th) && HeldStripes(c, th) == {}
  {
  }

  lemma {:induction false} ExclusiveStep<K, V>(c: Config<K>, s: State<K, V>, tid: nat, o: Outcome<K, V>, ls: set<nat>)
    requires Exclusive(c, s) && tid in s.threads && Free(c, s, tid, ls) && HeldStripes(c, o.thread) <= ls
    ensures Exclusive(c, Commit(s, tid, o))
  {
    hide HeldStripes;
    if o.ret.Some? { AnsweredHoldsNothing(c, s.tab, Commit(s, tid, o).threads[tid]); }
  }

  /** A section under all stripes: nobody else holds anything that could be disturbed. */
  lemma {:induction false} GlobalCommit<K(!new), V>(c: Config<K>, s: State<K, V>, tid: nat, o: Outcome<K, V>)
    requires Inv(c, s) && tid in s.threads && NoHolder(s, tid)
    requires Sound(c, s.tab, OpOf(s.threads[tid]), o) && (o.thread.Idle? || o.thread.Ready?)
    ensures Inv(c, Commit(s, tid, o))
  {
    hide Layout, Good, Held, Sum, Unmigrated, Snap, Legal, Replay, Agrees, Effect, PathOk;
    LogStep(c, s, tid, o);
    ExclusiveStep(c, s, tid, o, {});
  }

  lemma {:induction false} ExpandSound<K(!new), V>(c: Config<K>, t: Tab<K, V>, k: K, v: V, hp: nat)
    requires TabOk(c, t)
    ensures Sound(c, t, Insert(k, v), ExpandSection(c, t, k, v, hp))
    ensures var th := ExpandSection(c, t, k, v, hp).thread; th.Idle? || th.Ready?
  {
    hide Layout, Good, Held, Sum, Unmigrated, Snap, Double, LoadFactor, Sparse;
    LayoutOf(c, t);
    LoadBelowIff(|Held(c, t)|, c.S, t.hp, c.mlf);
    DoubleKeeps(c, t);
  }

  lemma {:induction false} ClaimSound<K(!new), V>(c: Config<K>, t: Tab<K, V>, k: K, v: V, b: nat, s: nat)
    requires TabOk(c, t) && (b == First(c, t.hp, k) || b == Second(c, t.hp, k))
    ensures var o := ClaimSection(c, t, k, v, b, s);
      && Sound(c, t, Insert(k, v), o) && Untouching(c, t, o.tab, KeyStripes(c, t.hp, k))
      && ThreadOk(c, o.tab, o.thread) && HeldStripes(c, o.thread) <= KeyStripes(c, t.hp, k)
  {
    hide Layout, Good, Held, Sum, Unmigrated, Snap, Lock2, Untouching, First, Second, StripeMigrated;
  }

  lemma {:induction false} ClearSound<K(!new), V>(c: Config<K>, t: Tab<K, V>)
    requires TabOk(c, t)
    ensures Layout(c, t) && Sound(c, t, Clear, Outcome(Cleared(c, t), Idle, Some(Done)))
  {
    hide Good, Held, Sum, Unmigrated, Snap, Cleared;
    ClearedEmpty(c, t);
  }

  /** A step that leaves the table alone. */
  lemma {:induction false} StillCommit<K(!new), V>(c: Config<K>, s: State<K, V>, tid: nat, o: Outcome<K, V>)
    requires Inv(c, s) && tid in s.threads && o.tab == s.tab && o.ret.None?
    requires ThreadOk(c, o.tab, o.thread) && !o.thread.Holding?
    ensures Inv(c, Commit(s, tid, o))
  {
    hide Layout, Good, Held, Sum, Unmigrated, Snap, Legal, Replay, Agrees, Effect, ThreadOk, Linearized;
    ExclusiveStep(c, s, tid, o, {});
    LogStep(c, s, tid, o);
  }

  lemma {:induction false} PathStart<K>(c: Config<K>, hp: nat, k: K, path: seq<CuckooRecord>, depth: nat)
    requires PathOk(c, hp, k, path, depth)
    ensures depth < |path| && (path[0].bucket == First(c, hp, k) || path[0].bucket == Second(c, hp, k))
  {
  }

  lemma {:induction false} FinishFree<K, V>(c: Config<K>, s: State<K, V>, tid: nat)
    requires Exclusive(c, s) && tid in s.threads
    ensures Free(c, s, tid, HeldStripes(c, s.threads[tid]))
  {
  }

  /** Every step of every thread keeps the invariant. */
  lemma {:induction false} StepKeepsInv<K(!new), V>(c: Config<K>, s: State<K, V>, step: Step<K, V>)
    requires Inv(c, s) && Enabled(c, s, step)
    ensures Inv(c, Commit(s, step.tid, Result(c, s, step)))
  {
    hide Layout, Good, Held, Sum, Unmigrated, Snap, Legal, Replay, Agrees;
    hide Effect, Untouching, Locate, Lock1, Lock2, First, Second, Stripe;
    hide OpSection, MoveSection, ClaimSection, FinishSection, ExpandSection, Cleared;
    hide PathOk, TabOk, Exclusive, Linearized, StripeMigrated;
    var tid, th, t := step.tid, s.threads[step.tid], s.tab;
    var o := Result(c, s, step);
    match step
    case Invoke(_, op) => StillCommit(c, s, tid, o);
    case ReadHashpower(_) => StillCommit(c, s, tid, o);
    case Restart(_) => StillCommit(c, s, tid, o);
    case FoundPath(_, path, depth) => StillCommit(c, s, tid, o);
    case NoPath(_) => StillCommit(c, s, tid, o);
    case Return(_) => StillCommit(c, s, tid, o);
    case Section(_) =>
      OpSectionSound(c, t, th.op);
      LocalCommit(c, s, tid, o, KeyStripes(c, t.hp, th.op.k));
    case Touch(_, b) =>
      LocalCommit(c, s, tid, o, {Stripe(c, b)});
    case Advance(_) =>
      PathStart(c, t.hp, th.k, th.path, th.depth);
      if th.depth == 0 {
        ClaimSound(c, t, th.k, th.v, th.path[0].bucket, th.path[0].slot);
        LocalCommit(c, s, tid, o, KeyStripes(c, t.hp, th.k));
      } else {
        MoveSectionSound(c, t, th.k, th.v, th.path, th.depth);
        LocalCommit(c, s, tid, o, MoveStripes(c, t.hp, th.k, th.path, th.depth));
      }
    case Finish(_) =>
      FinishSectionSound(c, t, th);
      FinishFree(c, s, tid);
      LocalCommit(c, s, tid, o, HeldStripes(c, th));
    case Expand(_) =>
      ExpandSound(c, t, th.k, th.v, th.hp);
      GlobalCommit(c, s, tid, o);
    case ClearAll(_) =>
      ClearSound(c, t);
      GlobalCommit(c, s, tid, o);
  }

  // ---- calls and their effects ----

  /** The calls of thread tid in the log. */
  ghost function EventsOf<K, V>(log: seq<Event<K, V>>, tid: nat): seq<Event<K, V>> {
    if log == [] then []
    else EventsOf(log[..|log| - 1], tid) + if log[|log| - 1].tid == tid then [log[|log| - 1]] else []
  }

  ghost function OpsOf<K, V>(events: seq<Event<K, V>>): (ops: seq<Op<K, V>>)
    ensures |ops| == |events| && forall i :: 0 <= i < |ops| ==> ops[i] == events[i].op
  {
    if events == [] then [] else OpsOf(events[..|events| - 1]) + [events[|events| - 1].op]
  }

  /** A thread is inside a call that has not taken effect yet. */
  predicate Busy<K, V>(th: Thread<K, V>) { !th.Idle? && !th.Answered? }

  /**
   * The logged calls of a thread are those it returned from, in order, and the one it is about to return from; the
   * operations it was called with are theirs, and the one it is busy with.
   */
  ghost predicate History<K, V>(th: Thread<K, V>, events: seq<Event<K, V>>, invoked: seq<Op<K, V>>,
                                returned: seq<Event<K, V>>) {
    && events == returned + (if th.Answered? then [th.event] else [])
    && invoked == OpsOf(events) + (if Busy(th) then [OpOf(th)] else [])
  }

  ghost predicate HistoryOk<K, V>(s: State<K, V>, tid: nat)
    requires tid in s.threads
  {
    && tid in s.invoked && tid in s.returned
    && History(s.threads[tid], EventsOf(s.log, tid), s.invoked[tid], s.returned[tid])
  }

  ghost predicate Histories<K, V>(s: State<K, V>) {
    forall tid :: tid in s.threads ==> HistoryOk(s, tid)
  }

  /** A step carries its call on: it is called, goes on with the same operation, is answered or returns. */
  ghost predicate CarriesOn<K, V>(th: Thread<K, V>, o: Outcome<K, V>) {
    && (th.Idle? ==> o.ret.None? && Busy(o.thread))
    && (th.Answered? ==> o.ret.None? && o.thread.Idle?)
    && (Busy(th) && o.ret.None? ==> Busy(o.thread) && OpOf(o.thread) == OpOf(th))
  }

  lemma {:induction false} StepCarriesOn<K(!new), V>(c: Config<K>, s: State<K, V>, step: Step<K, V>)
    requires TabOk(c, s.tab) && Enabled(c, s, step)
    ensures CarriesOn(s.threads[step.tid], Result(c, s, step))
  {
    hide Layout, Good, Held, Sum, Unmigrated, Untouching, Locate, Lock1, Lock2, First, Second, Stripe, Snap;
    hide TabOk, PathOk, StripeMigrated, OpSection, Cleared, LoadFactor, MoveLocks, Kick, Store, Double;
    if step.Section? {
      OpSectionSound(c, s.tab, s.threads[step.tid].op);
      SectionAnswers(c, s.tab, s.threads[step.tid].op);
    }
  }

  lemma {:induction false} SectionAnswers<K(!new), V>(c: Config<K>, t: Tab<K, V>, op: Op<K, V>)
    requires TabOk(c, t) && !op.Clear?
    ensures OpSection(c, t, op).thread.Idle? ==> OpSection(c, t, op).ret.Some?
  {
    hide Good, Held, Untouched, Sum, Unmigrated, IndexHash, SecondIndex;
    hide Untouching, StripeMigrated, Locate, Lock2, Snap;
    var r := Lock2(c, t, First(c, t.hp, op.k), Second(c, t.hp, op.k));
    LocateDecides(c, r, op.k);
  }

  lemma {:induction false} EventsSnoc<K, V>(log: seq<Event<K, V>>, e: Event<K, V>, tid: nat)
    ensures e.tid == tid ==> EventsOf(log + [e], tid) == EventsOf(log, tid) + [e]
    ensures e.tid != tid ==> EventsOf(log + [e], tid) == EventsOf(log, tid)
  {
    assert (log + [e])[..|log|] == log;
  }

  lemma {:induction false} OpsSnoc<K, V>(events: seq<Event<K, V>>, e: Event<K, V>)
    ensures OpsOf(events + [e]) == OpsOf(events) + [e.op]
  {
  }

  lemma {:induction false} AnswerKeepsHistory<K, V>(th: Thread<K, V>, e: Event<K, V>, events: seq<Event<K, V>>,
                                                   invoked: seq<Op<K, V>>, returned: seq<Event<K, V>>)
    requires History(th, events, invoked, returned) && Busy(th) && e.op == OpOf(th)
    ensures History(Answered(e), events + [e], invoked, returned)
  {
    hide OpsOf, OpOf;
    OpsSnoc(events, e);
  }

  /** What the step of a thread means for its own history. */
  lemma {:induction false} OwnHistory<K, V>(s: State<K, V>, tid: nat, o: Outcome<K, V>)
    requires tid in s.threads && HistoryOk(s, tid) && CarriesOn(s.threads[tid], o)
    ensures HistoryOk(Commit(s, tid, o), tid)
  {
    hide OpsOf, OpOf, EventsOf;
    var th := s.threads[tid];
    if o.ret.Some? {
      var e := Event(tid, OpOf(th), o.ret.value);
      EventsSnoc(s.log, e, tid);
      AnswerKeepsHistory(th, e, EventsOf(s.log, tid), s.invoked[tid], s.returned[tid]);
    }
  }

  lemma {:induction false} CommitKeepsHistory<K, V>(s: State<K, V>, tid: nat, o: Outcome<K, V>, u: nat)
    requires Histories(s) && tid in s.threads && CarriesOn(s.threads[tid], o) && u in s.threads
    ensures HistoryOk(Commit(s, tid, o), u)
  {
    hide History, CarriesOn, EventsOf, OpOf;
    assert HistoryOk(s, u);
    if u == tid {
      OwnHistory(s, tid, o);
    } else if o.ret.Some? {
      EventsSnoc(s.log, Event(tid, OpOf(s.threads[tid]), o.ret.value), u);
    }
  }

  lemma {:induction false} StepKeepsHistories<K(!new), V>(c: Config<K>, s: State<K, V>, step: Step<K, V>)
    requires TabOk(c, s.tab) && Enabled(c, s, step) && Histories(s)
    ensures Histories(Commit(s, step.tid, Result(c, s, step)))
  {
    hide TabOk, Result, CarriesOn, HistoryOk;
    StepCarriesOn(c, s, step);
    var o := Result(c, s, step);
    forall u | u in Commit(s, step.tid, o).threads ensures HistoryOk(Commit(s, step.tid, o), u) {
      CommitKeepsHistory(s, step.tid, o, u);
    }
  }

  /** A call takes effect once, in a step of its own thread between its invocation and its return. */
  lemma {:induction false} EffectInsideCall<K(!new), V>(c: Config<K>, s: State<K, V>, step: Step<K, V>, s': State<K, V>)
    requires StepTo(c, s, step, s')
    ensures s'.log == s.log ||
      (var before, after := s.threads[step.tid], s'.threads[step.tid];
       && Busy(before) && after.Answered? && s'.log == s.log + [after.event]
       && after.event.tid == step.tid && after.event.op == OpOf(before))
    ensures s'.invoked != s.invoked ==> step.Invoke?
    ensures s'.returned != s.returned ==> step.Return?
  {
    hide TabOk, Result;
    StepCarriesOn(c, s, step);
  }

  /** An insert gives up only at the table's own hashpower, when the plain map is too small for it. */
  lemma {:induction false} GivesUpWhenSparse<K(!new), V>(c: Config<K>, s: State<K, V>, step: Step<K, V>,
      s': State<K, V>)
    requires Inv(c, s) && StepTo(c, s, step, s') && s'.log != s.log
    ensures s'.log[|s'.log| - 1].ret.LoadFactorTooLow? ==>
      && s'.log[|s'.log| - 1].ret.hp == s.tab.hp && s'.tab == s.tab
      && |Replay(s.log)| as real < c.mlf * (Pow2(s.tab.hp) * c.S) as real
  {
    hide Good, Held, Untouched, Sum, Unmigrated, IndexHash, SecondIndex;
    hide Untouching, StripeMigrated, Locate, Lock1, Lock2;
    hide Snap, PathOk, LoadFactor, MoveLocks, Kick, Store, Double;
    hide Exclusive, ThreadOk, Legal, Replay, OpSection, Cleared;
    if step.Section? { SectionNeverGivesUp(c, s.tab, s.threads[step.tid].op); }
    if step.Expand? { ExpandDecides(c, s, step, s'); }
  }

  /**
   * Under all stripes an insert that found no path gives up exactly when the plain map fills less than the minimum
   * share of the slots; otherwise it starts again, in a table of twice the size unless another thread has grown it.
   */
  lemma {:induction false} ExpandDecides<K(!new), V>(c: Config<K>, s: State<K, V>, step: Step<K, V>, s': State<K, V>)
    requires Inv(c, s) && StepTo(c, s, step, s') && step.Expand?
    ensures var th, now := s.threads[step.tid], s'.threads[step.tid];
      if |Replay(s.log)| as real < c.mlf * (Pow2(s.tab.hp) * c.S) as real then
        now == Answered(Event(step.tid, Insert(th.k, th.v), LoadFactorTooLow(s.tab.hp))) && s'.tab == s.tab
      else
        && now == Ready(Insert(th.k, th.v)) && s'.log == s.log
        && s'.tab.hp == s.tab.hp + (if th.hp == s.tab.hp then 1 else 0)
  {
    hide Good, Held, Untouched, Sum, Unmigrated, Snap, PathOk, LoadFactor, Exclusive, ThreadOk, Legal, Replay, Pow2;
    LayoutOf(c, s.tab);
    LoadBelowIff(|Held(c, s.tab)|, c.S, s.tab.hp, c.mlf);
  }

  lemma {:induction false} SectionNeverGivesUp<K(!new), V>(c: Config<K>, t: Tab<K, V>, op: Op<K, V>)
    requires TabOk(c, t) && !op.Clear?
    ensures var ret := OpSection(c, t, op).ret; ret.Some? ==> !ret.value.LoadFactorTooLow?
  {
    hide Good, Held, Untouched, Sum, Unmigrated, IndexHash, SecondIndex;
    hide Untouching, StripeMigrated, Locate, Lock2, Snap;
    var r := Lock2(c, t, First(c, t.hp, op.k), Second(c, t.hp, op.k));
    LocateDecides(c, r, op.k);
  }

  /** The guards that speak of the invariant block nothing: threads that hold or move can always go on. */
  lemma {:induction false} NothingIsBlocked<K(!new), V>(c: Config<K>, s: State<K, V>, tid: nat)
    requires Inv(c, s) && tid in s.threads
    ensures TabOk(c, s.tab)
    ensures s.threads[tid].Holding? ==> Enabled(c, s, Finish(tid))
    ensures var th := s.threads[tid]; th.Moving? && th.hp == s.tab.hp ==> PathOk(c, s.tab.hp, th.k, th.path, th.depth)
    ensures s.threads[tid].Primed? ==> !s.threads[tid].op.Clear?
  {
    hide TabOk, PathOk, Exclusive, Linearized;
    assert ThreadOk(c, s.tab, s.threads[tid]);
  }

  // ---- whole runs ----

  /** An empty table of at least one bucket per stripe, and idle threads. */
  ghost function Init<K, V>(c: Config<K>, hp: nat, tids: set<nat>): State<K, V> {
    State(Tab(hp, Blank(c.S, hp), [], Zeroed(Pow2(c.lb)), 0), map tid | tid in tids :: Idle, [],
          map tid | tid in tids :: [], map tid | tid in tids :: [])
  }

  ghost predicate Run<K(!new), V(!new)>(c: Config<K>, hp: nat, tids: set<nat>, run: seq<State<K, V>>) {
    && |run| > 0 && run[0] == Init(c, hp, tids)
    && forall i :: 0 <= i < |run| - 1 ==> Next(c, run[i], run[i + 1])
  }

  lemma {:induction false} InitInv<K(!new), V>(c: Config<K>, hp: nat, tids: set<nat>)
    requires 1 <= c.S <= 8 && c.lb <= hp
    ensures Inv(c, Init<K, V>(c, hp, tids))
  {
    hide Good, Contents, Sum, Unmigrated, Blank, View, Zeroed;
    var s: State<K, V> := Init(c, hp, tids);
    BlankIsGood<K, V>(c.h, c.S, hp);
    BlankShape<K, V>(c.S, hp);
    assert Pending(c, s.tab) == {};
    ViewNonePending(c.h, hp, s.tab.cur, s.tab.prior);
  }

  /** Over every interleaving, in every state: each answer given so far is the plain map's answer at its lock
      point, the table holds exactly the replayed map, counters add up and every live key is well placed. */
  lemma {:induction false} RunsAreLinearizable<K(!new), V(!new)>(c: Config<K>, hp: nat, tids: set<nat>,
      run: seq<State<K, V>>, i: nat)
    requires 1 <= c.S <= 8 && c.lb <= hp && Run(c, hp, tids, run) && i < |run|
    ensures Inv(c, run[i]) && Histories(run[i])
    decreases i
  {
    hide Inv, Next;
    if i == 0 {
      InitInv<K, V>(c, hp, tids);
    } else {
      RunsAreLinearizable(c, hp, tids, run, i - 1);
      assert Next(c, run[i - 1], run[i - 1 + 1]);
      NextKeepsInv(c, run[i - 1], run[i]);
    }
  }

  lemma {:induction false} NextKeepsInv<K(!new), V(!new)>(c: Config<K>, s: State<K, V>, s': State<K, V>)
    requires Inv(c, s) && Next(c, s, s')
    ensures Inv(c, s') && (Histories(s) ==> Histories(s')) && s.log <= s'.log
  {
    hide Inv, StepTo, Histories;
    var step: Step<K, V> :| StepTo(c, s, step, s');
    StepToKeepsInv(c, s, step, s');
  }

  lemma {:induction false} StepToKeepsInv<K(!new), V>(c: Config<K>, s: State<K, V>, step: Step<K, V>, s': State<K, V>)
    requires Inv(c, s) && StepTo(c, s, step, s')
    ensures Inv(c, s') && (Histories(s) ==> Histories(s')) && s.log <= s'.log
  {
    hide Layout, Good, Held, Snap, Legal, Replay, Commit, Result, Exclusive, ThreadOk, Histories;
    StepKeepsInv(c, s, step);
    EffectInsideCall(c, s, step, s');
    if Histories(s) { StepKeepsHistories(c, s, step); }
  }

  /** Real-time order: a call that returned before another was invoked comes before it in the history. */
  lemma {:induction false} LogOnlyGrows<K(!new), V(!new)>(c: Config<K>, hp: nat, tids: set<nat>, run: seq<State<K, V>>,
                                                         i: nat, j: nat)
    requires 1 <= c.S <= 8 && c.lb <= hp && Run(c, hp, tids, run) && i <= j < |run|
    ensures run[i].log <= run[j].log
    decreases j
  {
    hide Inv, Next, Init;
    if i < j {
      LogOnlyGrows(c, hp, tids, run, i, j - 1);
      RunsAreLinearizable(c, hp, tids, run, j - 1);
      assert Next(c, run[j - 1], run[j - 1 + 1]);
      NextKeepsInv(c, run[j - 1], run[j]);
    }
  }

  /** The event takes k out of the plain map. */
  ghost predicate Removes<K, V>(e: Event<K, V>, k: K) {
    e.op == Clear || (e.op.Erase? && e.op.k == k)
  }

  /** Racing inserts: between two successful inserts of a key the history holds an erase of it or a clear. */
  lemma {:induction false} InsertsAreSeparated<K, V>(c: Config<K>, log: seq<Event<K, V>>, i: nat, j: nat, k: K)
    requires Legal(c, log) && i < j < |log|
    requires log[i].op.Insert? && log[i].op.k == k && log[i].ret == Did(true)
    requires log[j].op.Insert? && log[j].op.k == k && log[j].ret == Did(true)
    ensures exists m :: i < m < j && Removes(log[m], k)
  {
    PrefixLegal(c, log, j + 1);
    assert log[..j + 1][..j] == log[..j];
    if !exists m :: i < m < j && Removes(log[m], k) {
      StaysPresent(log, i, j, k);
    }
  }

  lemma {:induction false} PrefixLegal<K, V>(c: Config<K>, log: seq<Event<K, V>>, n: nat)
    requires Legal(c, log) && n <= |log|
    ensures Legal(c, log[..n])
    decreases |log| - n
  {
    if n < |log| {
      PrefixLegal(c, log, n + 1);
      assert log[..n + 1][..n] == log[..n];
    } else {
      assert log[..n] == log;
    }
  }

  lemma {:induction false} StaysPresent<K, V>(log: seq<Event<K, V>>, i: nat, j: nat, k: K)
    requires i < j <= |log| && log[i].op.Insert? && log[i].op.k == k && log[i].ret == Did(true)
    requires forall m :: i < m < j ==> !Removes(log[m], k)
    ensures k in Replay(log[..j])
    decreases j
  {
    assert log[..j][..j - 1] == log[..j - 1];
    if j > i + 1 {
      StaysPresent(log, i, j - 1, k);
    }
  }

  /** No key occupies two live slots, in the current buckets or in old ones still to be migrated. */
  lemma {:induction false} OneLiveSlot<K(!new), V>(c: Config<K>, s: State<K, V>, k: K, p: Position, q: Position)
    requires Inv(c, s) && LiveAt(s.tab.cur, s.tab.prior, Pending(c, s.tab), p, k)
    requires LiveAt(s.tab.cur, s.tab.prior, Pending(c, s.tab), q, k)
    ensures p == q && Candidate(if p.InCurrent? then s.tab.hp else s.tab.hp - 1, c.h(k), p.b)
  {
    hide Contents, Sum, Unmigrated, Candidate, Legal, Replay, ThreadOk, Exclusive, View, Untouched, LiveAt;
    var t := s.tab;
    LiveUnique(c.h, c.S, t.hp, t.cur, t.prior, Pending(c, t), k, p, q);
  }

  /**
   * In every state of every run: each answer given is the answer of a plain map that executed the earlier
   * operations one at a time; the live slots of both bucket arrays hold exactly the plain map; and the stripe
   * counters add up to its size.
   */
  lemma {:induction false} TableIsThePlainMap<K(!new), V(!new)>(c: Config<K>, hp: nat, tids: set<nat>,
      run: seq<State<K, V>>,
                                                               i: nat, n: nat, k: K, v: V)
    requires 1 <= c.S <= 8 && c.lb <= hp && Run(c, hp, tids, run) && i < |run|
    ensures var s := run[i];
      && (n < |s.log| ==> Agrees(c, Replay(s.log[..n]), s.log[n].op, s.log[n].ret))
      && (k in Replay(s.log) && Replay(s.log)[k] == v <==> Live(s.tab.cur, s.tab.prior, Pending(c, s.tab), k, v))
      && Sum(s.tab.locks) == |Replay(s.log)|
  {
    hide Run, Live, TabOk, ThreadOk, Exclusive, Agrees, Effect, Sum, Pending, Layout, Legal, Replay;
    var s := run[i];
    RunsAreLinearizable(c, hp, tids, run, i);
    if n < |s.log| { LegalAt(c, s.log, n); }
    HeldIsLive(c, s.tab, k, v);
  }

  /** Whatever insert threw, the plain map it met filled less than the minimum share of the slots. */
  lemma {:induction false} ThrownWhenSparse<K(!new), V(!new)>(c: Config<K>, hp: nat, tids: set<nat>,
      run: seq<State<K, V>>, i: nat, n: nat)
    requires 1 <= c.S <= 8 && c.lb <= hp && Run(c, hp, tids, run) && i < |run| && n < |run[i].log|
    ensures var log := run[i].log;
      log[n].ret.LoadFactorTooLow? ==>
        log[n].op.Insert? && |Replay(log[..n])| as real < c.mlf * (Pow2(log[n].ret.hp) * c.S) as real
  {
    hide Run, TabOk, ThreadOk, Exclusive, Layout, Pow2, Replay, Legal, Held;
    RunsAreLinearizable(c, hp, tids, run, i);
    LegalAt(c, run[i].log, n);
  }

  lemma {:induction false} LegalAt<K, V>(c: Config<K>, log: seq<Event<K, V>>, n: nat)
    requires Legal(c, log) && n < |log|
    ensures Agrees(c, Replay(log[..n]), log[n].op, log[n].ret)
  {
    hide Agrees, Replay;
    PrefixLegal(c, log, n + 1);
    assert log[..n + 1][..n] == log[..n];
  }

  /** The abstract map of a shared table is what its live slots hold; the counters add up to its size. */
  lemma {:induction false} HeldIsLive<K(!new), V>(c: Config<K>, t: Tab<K, V>, k: K, v: V)
    requires TabOk(c, t)
    ensures k in Held(c, t) && Held(c, t)[k] == v <==> Live(t.cur, t.prior, Pending(c, t), k, v)
    ensures Sum(t.locks) == |Held(c, t)|
  {
    hide Live, View, Placed, Contents, Sum, Unmigrated, Untouched;
    ViewIsLive(c.h, c.S, t.hp, t.cur, t.prior, Pending(c, t), k, v);
    ContentsRepresents(Snap(c, t));
    RepresentsPair(Snap(c, t), Held(c, t), k, v);
  }
}
