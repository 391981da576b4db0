/** When the barrier protocol can always finish, and how it can block for ever. */
module BarrierProgress {
  import opened Common
  import opened Protocol
  import opened Barrier

  // ---- what else holds in every reachable state ----

  predicate ServedBy(rpc: Rpc, c: nat) {
    (rpc.Begin? || rpc.Scan? || rpc.Body? || rpc.Decrement? || rpc.DecrementGot?) && rpc.c == c
  }

  predicate AnsweredBy(rpc: Rpc, c: nat) {
    (rpc.Lower? || rpc.Unflag? || rpc.Cast? || rpc.Reply?) && rpc.c == c
  }

  /** A client whose request was taken is the one its node's RPC thread is busy with. */
  predicate Attended(s: State, c: nat)
    requires c < |s.clients|
  {
    var cl := s.clients[c];
    && cl.home < |s.nodes|
    && (cl.phase == Served ==> ServedBy(s.nodes[cl.home].rpc, c))
    && (cl.phase == Answered ==> AnsweredBy(s.nodes[cl.home].rpc, c))
  }

  /** A barrier that is up is published, or about to be. */
  predicate Flagged(nd: Node) {
    forall b :: 0 <= b < |nd.barrier| && nd.barrier[b] ==> (b < |nd.flag| && nd.flag[b]) || nd.commit == Publish(b)
  }

  predicate NoneFinished(clients: seq<Client>, b: nat) {
    forall c :: 0 <= c < |clients| && b < |clients[c].finished| ==> clients[c].finished[b] == 0
  }

  /** A barrier whose counter has not come back to 0 has no completed operation or some that are owed. */
  predicate Unsettled(s: State, b: nat) {
    Hits(s) <= b < |s.counter| ==> NoneFinished(s.clients, b) || s.counter[b].value > 0
  }

  ghost predicate More(s: State) {
    && (forall c :: 0 <= c < |s.clients| ==> Attended(s, c))
    && (forall m :: 0 <= m < |s.nodes| ==> Flagged(s.nodes[m]))
    && (forall b: nat :: Unsettled(s, b))
  }

  lemma {:induction false} CommitKeepsAttended(s: State, m: nat, x: nat, c: nat)
    requires InBounds(s) && CommitEnabled(s, m, x) && c < |s.clients| && Attended(s, c)
    ensures var s' := CommitNext(s, m, x); c < |s'.clients| && Attended(s', c)
  {
    hide NumAt, RpcInRange, ServedBy, AnsweredBy;
    assert CommitInRange(s, m);
  }

  lemma {:induction false} CountOffKeepsAttended(s: State, m: nat, c: nat)
    requires Inv(s) && InBounds(s) && AboutToCountOff(s, m) && c < |s.clients| && Attended(s, c)
    ensures var s' := CountingOff(s, m); c < |s'.clients| && Attended(s', c)
  {
    hide Inv, CommitInRange;
    assert RpcInRange(s, m);
    RpcIsOk(s, m);
  }

  lemma {:induction false} CastKeepsAttended(s: State, m: nat, c: nat)
    requires Inv(s) && InBounds(s) && m < |s.nodes| && s.nodes[m].rpc.Cast? && c < |s.clients| && Attended(s, c)
    ensures var s' := Casting(s, m); c < |s'.clients| && Attended(s', c)
  {
    hide Inv, CommitInRange;
    assert RpcInRange(s, m);
    RpcIsOk(s, m);
  }

  lemma {:induction false} RpcKeepsAttended(s: State, m: nat, x: nat, c: nat)
    requires Inv(s) && InBounds(s) && RpcEnabled(s, m, x) && c < |s.clients| && Attended(s, c)
    ensures var s' := RpcNext(s, m, x); c < |s'.clients| && Attended(s', c)
  {
    hide Inv, CommitInRange, CountingOff, Casting, Scanned, CellOk, Published;
    assert RpcInRange(s, m);
    if AboutToCountOff(s, m) {
      CountOffKeepsAttended(s, m, c);
    } else if s.nodes[m].rpc.Cast? {
      CastKeepsAttended(s, m, c);
    } else {
      RpcIsOk(s, m);
    }
  }

  lemma {:induction false} StepKeepsAttended(s: State, e: Step, c: nat)
    requires Inv(s) && Enabled(s, e) && c < |s.clients| && Attended(s, c)
    ensures var s' := Next(s, e); c < |s'.clients| && Attended(s', c)
  {
    hide Inv, InBounds, CommitNext, RpcNext, CommitEnabled, RpcEnabled;
    match e
    case CommitThread(m, x) => CommitKeepsAttended(s, m, x, c);
    case RpcThread(m, x) => RpcKeepsAttended(s, m, x, c);
    case _ =>
  }

  /** Only the barrier a node waits at can be up, and none is up while it releases. */
  predicate OneUp(nd: Node) {
    && (forall j :: 0 <= j < |nd.barrier| && nd.barrier[j] ==> j == nd.waiting && !Lowered(nd.rpc))
    && (nd.commit.Raise? ==> nd.commit.b == nd.waiting)
  }

  lemma {:induction false} AtMostOneUp(s: State, n: nat)
    requires Inv(s) && n < |s.nodes|
    ensures OneUp(s.nodes[n])
  {
    hide ClientsOk, CountersOk, RpcsOk, EpochOk, Reached, CountAt;
    assert NodeOk(s.nodes[n], n, s.clients) && CommitOk(s.nodes[n], n, s.clients, s.counter);
  }

  /** What a step of a node's own threads may do to its barriers and flags. */
  lemma {:induction false} CommitKeepsFlagged(s: State, m: nat, c: nat, n: nat)
    requires InBounds(s) && CommitEnabled(s, m, c) && n < |s.nodes| && Flagged(s.nodes[n]) && OneUp(s.nodes[n])
    ensures var s' := CommitNext(s, m, c); n < |s'.nodes| && Flagged(s'.nodes[n])
  {
    hide NumAt, RpcInRange;
    assert CommitInRange(s, m);
    var nd := s.nodes[m];
    if n == m && nd.commit.Raise? {
      assert Flagged(nd.(barrier := nd.barrier[nd.commit.b := true], commit := Publish(nd.commit.b)));
    }
  }

  lemma {:induction false} RpcKeepsFlagged(s: State, m: nat, c: nat, n: nat)
    requires InBounds(s) && RpcEnabled(s, m, c) && n < |s.nodes| && Flagged(s.nodes[n]) && OneUp(s.nodes[n])
    ensures var s' := RpcNext(s, m, c); n < |s'.nodes| && Flagged(s'.nodes[n])
  {
    hide CommitInRange;
    assert RpcInRange(s, m);
  }

  lemma {:induction false} StepKeepsFlagged(s: State, e: Step, n: nat)
    requires Inv(s) && Enabled(s, e) && n < |s.nodes| && Flagged(s.nodes[n])
    ensures var s' := Next(s, e); n < |s'.nodes| && Flagged(s'.nodes[n])
  {
    hide Inv, InBounds, CommitNext, RpcNext, CommitEnabled, RpcEnabled, Flagged;
    AtMostOneUp(s, n);
    match e
    case CommitThread(m, x) => CommitKeepsFlagged(s, m, x, n);
    case RpcThread(m, x) => RpcKeepsFlagged(s, m, x, n);
    case _ =>
  }

  lemma {:induction false} CounterNonNegative(s: State, b: nat)
    requires Inv(s) && b < |s.counter|
    ensures s.counter[b].value >= 0
  {
    hide NodesOk, CommitsOk, RpcsOk, EpochOk, LogOk, Barriers, Owed;
    forall c | 0 <= c < |s.clients| ensures Debt(s.clients[c], b) >= 0 { assert ClientOk(s.clients[c]); }
    OwedZero(s.clients, b);
  }

  lemma {:induction false} CountOffUnsettled(s: State, m: nat, b: nat)
    requires Inv(s) && InBounds(s) && AboutToCountOff(s, m) && Unsettled(s, b)
    requires Inv(CountingOff(s, m))
    ensures Unsettled(CountingOff(s, m), b)
  {
    hide Inv, ClientOk, CommitInRange;
    CountOffContext(s, m);
    assert RpcInRange(s, m);
    var s' := CountingOff(s, m);
    if b == s.nodes[m].rpc.b {
      CounterNonNegative(s', b);
    } else if NoneFinished(s.clients, b) {
      forall c | 0 <= c < |s'.clients| && b < |s'.clients[c].finished| ensures s'.clients[c].finished[b] == 0 {
        assert s'.clients[c].finished[b] == s.clients[c].finished[b];
      }
    }
  }

  lemma {:induction false} CountUnsettled(s: State, m: nat, c: nat, b: nat)
    requires Inv(s) && Enabled(s, CommitThread(m, c)) && Unsettled(s, b)
    ensures Unsettled(Next(s, CommitThread(m, c)), b)
  {
    hide ClientsOk, CountersOk, NodesOk, RpcsOk, EpochOk, NumAt;
    assert CommitInRange(s, m);
    assert CommitOk(s.nodes[m], m, s.clients, s.counter);
  }

  lemma {:induction false} StepKeepsUnsettled(s: State, e: Step, b: nat)
    requires Inv(s) && Enabled(s, e) && Unsettled(s, b)
    ensures Unsettled(Next(s, e), b)
  {
    hide Inv;
    match e
    case CommitThread(m, x) => CountUnsettled(s, m, x, b);
    case RpcThread(m, x) =>
      assert RpcInRange(s, m);
      if AboutToCountOff(s, m) {
        StepKeepsInv(s, e);
        CountOffUnsettled(s, m, b);
      } else if Releasing(s.nodes[m].rpc) {
        ReleaseContext(s, m);
      }
    case _ =>
  }

  lemma {:induction false} StepKeepsMore(s: State, e: Step)
    requires Inv(s) && More(s) && Enabled(s, e)
    ensures Inv(Next(s, e)) && More(Next(s, e))
  {
    hide Inv, Enabled, Attended, Flagged, Unsettled;
    StepKeepsInv(s, e);
    var s' := Next(s, e);
    SameSizes(s, e);
    forall c | 0 <= c < |s'.clients| ensures Attended(s', c) { StepKeepsAttended(s, e, c); }
    forall m | 0 <= m < |s'.nodes| ensures Flagged(s'.nodes[m]) { StepKeepsFlagged(s, e, m); }
    forall b: nat ensures Unsettled(s', b) { StepKeepsUnsettled(s, e, b); }
  }

  lemma {:induction false} SameSizes(s: State, e: Step)
    requires Enabled(s, e)
    ensures |Next(s, e).clients| == |s.clients| && |Next(s, e).nodes| == |s.nodes|
  {
    hide NumAt;
    match e
    case CommitThread(m, x) => assert CommitInRange(s, m);
    case RpcThread(m, x) => assert RpcInRange(s, m);
    case _ =>
  }

  lemma {:induction false} InitialMore(s: State)
    requires Initial(s)
    ensures Inv(s) && More(s)
  {
    hide Inv;
    InitialInv(s);
  }

  // ---- even rounds ----

  predicate Announces(cl: Client, b: nat) { b < |cl.ks| && cl.ks[b] >= 1 }

  ghost predicate Inhabited(clients: seq<Client>, m: nat) { exists c :: Here(clients, m, c) }

  ghost predicate Opened(clients: seq<Client>, b: nat) {
    exists c :: 0 <= c < |clients| && Announces(clients[c], b)
  }

  /** Every client has announced the same number of barriers, every node has a client, and no barrier is empty. */
  ghost predicate Even(s: State, rounds: nat) {
    && |s.clients| > 0
    && (forall c :: 0 <= c < |s.clients| ==> |s.clients[c].ks| == rounds)
    && (forall m :: 0 <= m < |s.nodes| ==> Inhabited(s.clients, m))
    && (forall b :: 0 <= b < rounds ==> Opened(s.clients, b))
  }

  ghost predicate Good(s: State, rounds: nat) { Inv(s) && More(s) && Even(s, rounds) }

  lemma {:induction false} SameAnnouncements(s: State, e: Step)
    requires Enabled(s, e) && !e.Announce?
    ensures var s' := Next(s, e);
      && |s'.clients| == |s.clients| && |s'.nodes| == |s.nodes|
      && forall c :: 0 <= c < |s.clients| ==>
           s'.clients[c].ks == s.clients[c].ks && s'.clients[c].home == s.clients[c].home
  {
    hide NumAt;
    match e
    case CommitThread(m, x) => assert CommitInRange(s, m);
    case RpcThread(m, x) => assert RpcInRange(s, m);
    case _ =>
  }

  lemma {:induction false} StepKeepsGood(s: State, e: Step, rounds: nat)
    requires Good(s, rounds) && Enabled(s, e) && !e.Announce?
    ensures Good(Next(s, e), rounds)
  {
    hide Inv, More, Enabled, Next;
    StepKeepsMore(s, e);
    SameAnnouncements(s, e);
    var s' := Next(s, e);
    forall m | 0 <= m < |s'.nodes| ensures Inhabited(s'.clients, m) {
      assert Inhabited(s.clients, m);
      var c :| Here(s.clients, m, c);
      assert Here(s'.clients, m, c);
    }
    forall b | 0 <= b < rounds ensures Opened(s'.clients, b) {
      assert Opened(s.clients, b);
      var c :| 0 <= c < |s.clients| && Announces(s.clients[c], b);
      assert Announces(s'.clients[c], b);
    }
  }

  /** With all clients at the same barrier, at most the last one is still open. */
  lemma {:induction false} OnlyLastOpen(s: State, rounds: nat)
    requires Good(s, rounds)
    ensures Hits(s) <= rounds <= Hits(s) + 1
  {
    hide NodesOk, CommitsOk, RpcsOk, LogOk, Barriers, Owed, Attended, Flagged, Told;
    assert ClientOk(s.clients[0]) && Settled(s.clients[0], Hits(s));
    if rounds > Hits(s) + 1 {
      var b := Hits(s);
      assert Opened(s.clients, b);
      var c :| 0 <= c < |s.clients| && Announces(s.clients[c], b);
      assert Unsettled(s, b);
      forall d | 0 <= d < |s.clients| ensures Debt(s.clients[d], b) == 0 { assert ClientOk(s.clients[d]); }
      OwedZero(s.clients, b);
    }
  }

  /** Everything is handled, counted off and released. */
  ghost predicate Done(s: State, rounds: nat) {
    && s.epoch == rounds && s.releaser == None
    && (forall c :: 0 <= c < |s.clients| ==>
          var cl := s.clients[c]; cl.handled == |cl.sent| && cl.finished == cl.ks && cl.todo == 0 && cl.phase == Free)
    && (forall m :: 0 <= m < |s.nodes| ==>
          var nd := s.nodes[m];
          && nd.commit == Ready && nd.rpc == Idle
          && forall b :: 0 <= b < |nd.barrier| ==> !nd.barrier[b])
  }

  // ---- when nothing useful can be done ----

  predicate RpcWaits(s: State, m: nat)
    requires m < |s.nodes|
  {
    match s.nodes[m].rpc
    case Idle => true
    case Begin(c, b) => b < |s.nodes[m].barrier| && !s.nodes[m].barrier[b]
    case Scan(c, b, i) => i < |s.nodes| && i != m && b < |s.nodes[i].flag| && !s.nodes[i].flag[b]
    case _ => false
  }

  ghost predicate CommitWaits(s: State, m: nat)
    requires m < |s.nodes|
  {
    var nd := s.nodes[m];
    && (nd.commit.Ready? || nd.commit.Received? || nd.commit.Loaded?)
    && ((nd.waiting < |nd.barrier| && nd.barrier[nd.waiting]) ||
        (nd.commit.Ready? && forall c: nat :: !HasMessage(s.clients, m, c)))
  }

  predicate ClientWaits(s: State, c: nat)
    requires c < |s.clients|
  {
    var cl := s.clients[c];
    && (cl.phase == Asked ==> cl.home < |s.nodes| && !s.nodes[cl.home].rpc.Idle?)
    && (cl.phase == Free ==> cl.todo == 0)
  }

  ghost predicate AllWait(s: State) {
    && (forall m :: 0 <= m < |s.nodes| ==> RpcWaits(s, m) && CommitWaits(s, m))
    && (forall c :: 0 <= c < |s.clients| ==> ClientWaits(s, c))
  }

  lemma {:induction false} NoRelease(s: State)
    requires Inv(s) && AllWait(s)
    ensures s.releaser == None && Hits(s) == s.epoch
    ensures forall m :: 0 <= m < |s.nodes| ==> s.nodes[m].waiting == s.epoch < |s.nodes[m].barrier|
  {
    hide ClientsOk, CountersOk, CommitsOk, RpcsOk, CommitWaits, ClientWaits, Settled, Reached, CountAt;
    forall m | 0 <= m < |s.nodes| ensures !Releasing(s.nodes[m].rpc) { assert RpcWaits(s, m); }
    assert s.releaser == None;
    forall m | 0 <= m < |s.nodes| ensures s.nodes[m].waiting == s.epoch < |s.nodes[m].barrier| {
      assert NodeOk(s.nodes[m], m, s.clients) && !Told(s, m);
    }
  }

  /** A node without messages has counted every announcement of its clients. */
  lemma {:induction false} AllCountedAt(s: State, m: nat, rounds: nat)
    requires Good(s, rounds) && m < |s.nodes| && forall c: nat :: !HasMessage(s.clients, m, c)
    ensures forall c :: Here(s.clients, m, c) ==>
      s.clients[c].handled == |s.clients[c].sent| && s.clients[c].counted == rounds
  {
    hide NodesOk, CommitsOk, RpcsOk, CountersOk, EpochOk, More, Barriers;
    forall c | Here(s.clients, m, c)
      ensures s.clients[c].handled == |s.clients[c].sent| && s.clients[c].counted == rounds
    {
      assert !HasMessage(s.clients, m, c);
      assert ClientOk(s.clients[c]);
      assert s.clients[c].sent[..|s.clients[c].sent|] == s.clients[c].sent;
    }
  }

  /** While the last barrier is open and nobody can move, every node has it up and published. */
  lemma {:induction false} AllUp(s: State, rounds: nat, m: nat)
    requires Good(s, rounds) && AllWait(s) && s.epoch < rounds && m < |s.nodes|
    ensures s.epoch < |s.nodes[m].barrier| && s.nodes[m].barrier[s.epoch]
    ensures s.epoch < |s.nodes[m].flag| && s.nodes[m].flag[s.epoch]
  {
    hide ClientsOk, CountersOk, CommitsOk, RpcsOk, EpochOk, CountAt, Attended, Unsettled, ClientWaits;
    NoRelease(s);
    assert CommitWaits(s, m) && RpcWaits(s, m) && NodeOk(s.nodes[m], m, s.clients) && Flagged(s.nodes[m]);
    assert Inhabited(s.clients, m);
    if forall c: nat :: !HasMessage(s.clients, m, c) {
      AllCountedAt(s, m, rounds);
      assert Reached(s.clients, m, s.epoch);
    }
  }

  lemma {:induction false} RpcsIdle(s: State, rounds: nat, m: nat)
    requires Good(s, rounds) && AllWait(s) && s.epoch < rounds && m < |s.nodes|
    ensures s.nodes[m].rpc == Idle
  {
    hide ClientsOk, CountersOk, CommitsOk, NodesOk, EpochOk, More, CommitWaits, ClientWaits;
    NoRelease(s);
    OnlyLastOpen(s, rounds);
    AllUp(s, rounds, m);
    RpcIsOk(s, m);
    assert RpcWaits(s, m);
    if s.nodes[m].rpc.Scan? { AllUp(s, rounds, s.nodes[m].rpc.i); }
  }

  lemma {:induction false} LastIsReleased(s: State, rounds: nat)
    requires Good(s, rounds) && AllWait(s)
    ensures s.epoch == rounds
  {
    hide NodesOk, CommitsOk, RpcsOk, EpochOk, LogOk, Barriers, Owed, Flagged, CommitWaits, RpcWaits;
    NoRelease(s);
    OnlyLastOpen(s, rounds);
    if s.epoch < rounds {
      var b := s.epoch;
      assert Unsettled(s, b) && Opened(s.clients, b);
      forall c | 0 <= c < |s.clients| ensures ClientOk(s.clients[c]) && s.clients[c].finished[b] == s.clients[c].ks[b] {
        assert Attended(s, c) && ClientWaits(s, c) && ClientOk(s.clients[c]);
        RpcsIdle(s, rounds, s.clients[c].home);
      }
      forall c | 0 <= c < |s.clients| ensures Debt(s.clients[c], b) == 0 {}
      OwedZero(s.clients, b);
    }
  }

  lemma {:induction false} NodeDone(s: State, rounds: nat, m: nat)
    requires Good(s, rounds) && AllWait(s) && s.epoch == rounds && m < |s.nodes|
    ensures s.nodes[m].commit == Ready && forall c: nat :: !HasMessage(s.clients, m, c)
    ensures forall b :: 0 <= b < |s.nodes[m].barrier| ==> !s.nodes[m].barrier[b]
  {
    hide CountersOk, CommitsOk, RpcsOk, EpochOk, CountAt, More, ClientWaits, RpcWaits, LogOk, Barriers;
    NoRelease(s);
    assert CommitWaits(s, m) && NodeOk(s.nodes[m], m, s.clients);
    assert Inhabited(s.clients, m);
    var c :| Here(s.clients, m, c);
    assert ClientOk(s.clients[c]);
    forall b | 0 <= b < |s.nodes[m].barrier| ensures !s.nodes[m].barrier[b] {
    }
  }

  lemma {:induction false} ClientDone(s: State, rounds: nat, c: nat)
    requires Good(s, rounds) && AllWait(s) && s.epoch == rounds && c < |s.clients|
    ensures var cl := s.clients[c]; cl.finished == cl.ks && cl.todo == 0 && !Pending(cl)
  {
    hide CountersOk, NodesOk, CommitsOk, RpcsOk, More, ClientWaits, RpcWaits, CommitWaits, LogOk, Barriers;
    NoRelease(s);
    assert ClientOk(s.clients[c]) && Settled(s.clients[c], Hits(s));
  }

  lemma {:induction false} RpcDone(s: State, rounds: nat, m: nat)
    requires Good(s, rounds) && AllWait(s) && s.epoch == rounds && m < |s.nodes|
    ensures s.nodes[m].rpc == Idle
  {
    hide CountersOk, NodesOk, CommitsOk, ClientsOk, EpochOk, More, ClientWaits, CommitWaits;
    assert RpcWaits(s, m);
    RpcIsOk(s, m);
    if !s.nodes[m].rpc.Idle? { ClientDone(s, rounds, s.nodes[m].rpc.c); }
  }

  /** If every thread and client waits, there is nothing left to do. */
  lemma {:induction false} WaitingIsDone(s: State, rounds: nat)
    requires Good(s, rounds) && AllWait(s)
    ensures Done(s, rounds)
  {
    hide Inv, RpcWaits, CommitWaits, Flagged, Unsettled;
    NoRelease(s);
    OnlyLastOpen(s, rounds);
    LastIsReleased(s, rounds);
    forall m | 0 <= m < |s.nodes|
      ensures var nd := s.nodes[m];
        nd.commit == Ready && nd.rpc == Idle && forall b :: 0 <= b < |nd.barrier| ==> !nd.barrier[b]
    {
      NodeDone(s, rounds, m);
      RpcDone(s, rounds, m);
    }
    forall c | 0 <= c < |s.clients|
      ensures var cl := s.clients[c];
        cl.handled == |cl.sent| && cl.finished == cl.ks && cl.todo == 0 && cl.phase == Free
    {
      ClientDone(s, rounds, c);
      assert Attended(s, c);
      NodeDone(s, rounds, s.clients[c].home);
      AllCountedAt(s, s.clients[c].home, rounds);
      assert Here(s.clients, s.clients[c].home, c);
    }
  }

  // ---- how much is left ----

  /** Messages to handle, and two for each operation to issue and one for each that is under way. */
  function Left(cl: Client): nat {
    2 * cl.todo + (if Pending(cl) then 1 else 0) + if cl.handled <= |cl.sent| then |cl.sent| - cl.handled else 0
  }

  function LeftSum(clients: seq<Client>): nat {
    if clients == [] then 0 else LeftSum(clients[..|clients| - 1]) + Left(clients[|clients| - 1])
  }

  lemma {:induction false} LeftUpdate(clients: seq<Client>, c: nat, x: Client)
    requires c < |clients|
    ensures LeftSum(clients[c := x]) == LeftSum(clients) - Left(clients[c]) + Left(x)
  {
    hide Left;
    var n := |clients| - 1;
    if c == n {
      assert clients[c := x][..n] == clients[..n];
    } else {
      assert clients[c := x][..n] == clients[..n][c := x];
      LeftUpdate(clients[..n], c, x);
    }
  }

  function CommitRank(x: Commit): nat {
    match x
    case Got(_, _, _) => 0
    case Passed(_) => 1
    case Loaded(_, _) => 2
    case Received(_) => 3
    case Ready => 4
    case Publish(_) => 5
    case Raise(_) => 6
  }

  function RpcRank(x: Rpc, n: nat): nat {
    match x
    case DecrementGot(_, _, _, _) => 0
    case Decrement(_, _) => 1
    case Body(_, _) => 2
    case Scan(_, _, i) => 3 + if i <= n then n - i else 0
    case Begin(_, _) => 4 + n
    case Idle => 5 + n
    case Reply(_) => 6 + n
    case Cast(_, _, i) => 7 + n + if i <= n then n - i else 0
    case Unflag(_, _) => 8 + 2 * n
    case Lower(_, _) => 9 + 2 * n
  }

  function RankSum(nodes: seq<Node>, n: nat): nat {
    if nodes == [] then 0
    else
      var last := nodes[|nodes| - 1];
      RankSum(nodes[..|nodes| - 1], n) + CommitRank(last.commit) + RpcRank(last.rpc, n)
  }

  lemma {:induction false} RankUpdate(nodes: seq<Node>, m: nat, x: Node, n: nat)
    requires m < |nodes|
    ensures RankSum(nodes[m := x], n) == RankSum(nodes, n) - CommitRank(nodes[m].commit) - RpcRank(nodes[m].rpc, n)
      + CommitRank(x.commit) + RpcRank(x.rpc, n)
  {
    hide CommitRank, RpcRank;
    var k := |nodes| - 1;
    if m == k {
      assert nodes[m := x][..k] == nodes[..k];
    } else {
      assert nodes[m := x][..k] == nodes[..k][m := x];
      RankUpdate(nodes[..k], m, x, n);
    }
  }

  /** Less is left to do, or as much and the threads are nearer to it. */
  predicate Nearer(s: State, s': State) {
    || LeftSum(s'.clients) < LeftSum(s.clients)
    || (LeftSum(s'.clients) == LeftSum(s.clients)
        && RankSum(s'.nodes, |s'.nodes|) < RankSum(s.nodes, |s.nodes|))
  }

  /** Only node m moved, to a smaller rank, and client c at most changed its phase. */
  lemma {:induction false} NodeNearer(s: State, s': State, m: nat, c: nat)
    requires m < |s.nodes| && c < |s.clients| && |s'.nodes| == |s.nodes| && |s'.clients| == |s.clients|
    requires s'.clients == s.clients[c := s'.clients[c]] && Left(s'.clients[c]) == Left(s.clients[c])
    requires s'.nodes == s.nodes[m := s'.nodes[m]]
    requires var a, b, n := s.nodes[m], s'.nodes[m], |s.nodes|;
      CommitRank(b.commit) + RpcRank(b.rpc, n) < CommitRank(a.commit) + RpcRank(a.rpc, n)
    ensures Nearer(s, s')
  {
    hide Left, CommitRank, RpcRank, LeftSum, RankSum;
    LeftUpdate(s.clients, c, s'.clients[c]);
    RankUpdate(s.nodes, m, s'.nodes[m], |s.nodes|);
  }

  lemma {:induction false} ClientNearer(s: State, s': State, c: nat)
    requires c < |s.clients| && |s'.clients| == |s.clients|
    requires s'.clients == s.clients[c := s'.clients[c]] && Left(s'.clients[c]) < Left(s.clients[c])
    ensures LeftSum(s'.clients) < LeftSum(s.clients)
  {
    hide Left, LeftSum;
    LeftUpdate(s.clients, c, s'.clients[c]);
  }

  // ---- useful steps ----

  predicate Serves(run: seq<Step>) {
    forall i :: 0 <= i < |run| ==> run[i].Ask? || run[i].CommitThread? || run[i].RpcThread?
  }

  lemma RunStep(s: State, e: Step, rest: seq<Step>)
    requires Enabled(s, e) && ValidRun(Next(s, e), rest)
    ensures ValidRun(s, [e] + rest) && After(s, [e] + rest) == After(Next(s, e), rest)
  {
    hide Enabled, Next;
    assert ([e] + rest)[1..] == rest;
  }

  lemma {:induction false} RunBoth(s: State, a: seq<Step>, b: seq<Step>)
    requires ValidRun(s, a) && ValidRun(After(s, a), b)
    ensures ValidRun(s, a + b) && After(s, a + b) == After(After(s, a), b)
    decreases |a|
  {
    hide Enabled, Next;
    if a == [] {
      assert a + b == b;
    } else {
      RunBoth(Next(s, a[0]), a[1..], b);
      assert a + b == [a[0]] + (a[1..] + b);
      RunStep(s, a[0], a[1..] + b);
    }
  }

  lemma {:induction false} JustOne(s: State, e: Step)
    requires Enabled(s, e)
    ensures ValidRun(s, [e]) && After(s, [e]) == Next(s, e)
  {
    hide Enabled, Next;
    assert [e] + [] == [e];
    RunStep(s, e, []);
  }

  /** Releasing, replying and running the body: one step at a time. */
  lemma {:induction false} RpcWalks(s: State, m: nat) returns (run: seq<Step>)
    requires Inv(s) && m < |s.nodes|
    requires var rpc := s.nodes[m].rpc; rpc.Body? || rpc.Lower? || rpc.Unflag? || rpc.Cast? || rpc.Reply?
    ensures ValidRun(s, run) && Serves(run) && Nearer(s, After(s, run))
  {
    hide Inv, LeftSum, RankSum, ValidRun, After, CommitInRange;
    InvInBounds(s);
    assert RpcInRange(s, m);
    RpcIsOk(s, m);
    var e := RpcThread(m, 0);
    JustOne(s, e);
    run := [e];
    var s' := Next(s, e);
    if s.nodes[m].rpc.Cast? {
      CastNearer(s, m);
    } else {
      NodeNearer(s, s', m, s.nodes[m].rpc.c);
    }
  }

  lemma {:induction false} CastNearer(s: State, m: nat)
    requires Inv(s) && InBounds(s) && m < |s.nodes| && s.nodes[m].rpc.Cast?
    ensures Nearer(s, Casting(s, m))
  {
    hide Inv, LeftSum, RankSum, CommitInRange;
    assert RpcInRange(s, m);
    var nd, i, n := s.nodes[m], s.nodes[m].rpc.i, |s.nodes|;
    var s' := Casting(s, m);
    if i == n || i == m {
      RankUpdate(s.nodes, m, s'.nodes[m], n);
    } else {
      var x := nd.(rpc := Cast(nd.rpc.c, nd.rpc.b, i + 1));
      RankUpdate(s.nodes, m, x, n);
      RankUpdate(s.nodes[m := x], i, Released(s.nodes[i]), n);
    }
  }

  /** The next message, or the raising and publishing of a barrier: one step of a commit thread that is not stalled. */
  lemma {:induction false} CommitWalks(s: State, m: nat, c: nat) returns (run: seq<Step>)
    requires Inv(s) && m < |s.nodes| && |s.clients| > 0
    requires var nd := s.nodes[m];
      || nd.commit.Raise? || nd.commit.Publish?
      || (nd.waiting < |nd.barrier| && !nd.barrier[nd.waiting] &&
          (nd.commit.Received? || nd.commit.Loaded? || (nd.commit.Ready? && HasMessage(s.clients, m, c))))
    ensures ValidRun(s, run) && Serves(run) && Nearer(s, After(s, run))
  {
    hide Inv, LeftSum, RankSum, ValidRun, After, RpcInRange, MessageOk;
    InvInBounds(s);
    AtMostOneUp(s, m);
    if s.nodes[m].commit.Ready? { QueuedMessage(s, m, c); }
    assert CommitInRange(s, m);
    var e := CommitThread(m, c);
    JustOne(s, e);
    run := [e];
    NodeNearer(s, Next(s, e), m, 0);
  }

  lemma {:induction false} QueuedMessage(s: State, m: nat, c: nat)
    requires Inv(s) && HasMessage(s.clients, m, c)
    ensures Queued(s, m, c)
  {
    hide NodesOk, CommitsOk, RpcsOk, CountersOk, EpochOk, ClientOk;
    MessageIsOk(s, m, c);
  }

  /** A swap with the current version counts the barrier message. */
  lemma {:induction false} FreshSwap(s: State, m: nat) returns (run: seq<Step>)
    requires Inv(s) && m < |s.nodes| && s.nodes[m].commit.Got? && InBounds(s)
    requires Queued(s, m, s.nodes[m].commit.c) && Message(s.clients[s.nodes[m].commit.c]).Barrier?
    requires s.counter[Message(s.clients[s.nodes[m].commit.c]).id - 1].version == s.nodes[m].commit.version
    ensures ValidRun(s, run) && Serves(run) && LeftSum(After(s, run).clients) < LeftSum(s.clients)
  {
    hide Inv, LeftSum, ValidRun, After, RpcInRange, NumAt;
    var e := CommitThread(m, 0);
    JustOne(s, e);
    run := [e];
    ClientNearer(s, Next(s, e), s.nodes[m].commit.c);
  }

  /** Past the stall test: an operation is committed, a barrier message counted, in at most two steps. */
  lemma {:induction false} PassedHandles(s: State, m: nat) returns (run: seq<Step>)
    requires Inv(s) && m < |s.nodes| && s.nodes[m].commit.Passed?
    ensures ValidRun(s, run) && Serves(run) && LeftSum(After(s, run).clients) < LeftSum(s.clients)
  {
    hide Inv, LeftSum, ValidRun, After, RpcInRange, NumAt;
    InvInBounds(s);
    assert CommitInRange(s, m);
    var c, e := s.nodes[m].commit.c, CommitThread(m, 0);
    var s1 := Next(s, e);
    JustOne(s, e);
    if s1.nodes[m].commit.Got? {
      StepKeepsInv(s, e);
      InvInBounds(s1);
      var rest := FreshSwap(s1, m);
      RunStep(s, e, rest);
      run := [e] + rest;
    } else {
      run := [e];
      ClientNearer(s, s1, c);
    }
  }

  /** An outdated read of the counter is repeated. */
  lemma {:induction false} GotHandles(s: State, m: nat) returns (run: seq<Step>)
    requires Inv(s) && m < |s.nodes| && s.nodes[m].commit.Got?
    ensures ValidRun(s, run) && Serves(run) && LeftSum(After(s, run).clients) < LeftSum(s.clients)
  {
    hide Inv, LeftSum, ValidRun, After, RpcInRange, NumAt;
    InvInBounds(s);
    assert CommitInRange(s, m);
    var c, e := s.nodes[m].commit.c, CommitThread(m, 0);
    if s.counter[Message(s.clients[c]).id - 1].version == s.nodes[m].commit.version {
      run := FreshSwap(s, m);
    } else {
      var s1 := Next(s, e);
      StepKeepsInv(s, e);
      var rest := PassedHandles(s1, m);
      RunStep(s, e, rest);
      run := [e] + rest;
    }
  }

  lemma {:induction false} FreshDecrement(s: State, m: nat) returns (run: seq<Step>)
    requires Inv(s) && AboutToCountOff(s, m)
    ensures ValidRun(s, run) && Serves(run) && LeftSum(After(s, run).clients) < LeftSum(s.clients)
  {
    hide Inv, LeftSum, ValidRun, After, CommitInRange;
    InvInBounds(s);
    assert RpcInRange(s, m);
    RpcIsOk(s, m);
    var e := RpcThread(m, 0);
    JustOne(s, e);
    run := [e];
    ClientNearer(s, Next(s, e), s.nodes[m].rpc.c);
  }

  lemma {:induction false} DecrementCounts(s: State, m: nat) returns (run: seq<Step>)
    requires Inv(s) && m < |s.nodes| && s.nodes[m].rpc.Decrement?
    ensures ValidRun(s, run) && Serves(run) && LeftSum(After(s, run).clients) < LeftSum(s.clients)
  {
    hide Inv, LeftSum, ValidRun, After, CommitInRange;
    InvInBounds(s);
    assert RpcInRange(s, m);
    var e := RpcThread(m, 0);
    StepKeepsInv(s, e);
    var rest := FreshDecrement(Next(s, e), m);
    RunStep(s, e, rest);
    run := [e] + rest;
  }

  lemma {:induction false} DecrementGotCounts(s: State, m: nat) returns (run: seq<Step>)
    requires Inv(s) && m < |s.nodes| && s.nodes[m].rpc.DecrementGot?
    ensures ValidRun(s, run) && Serves(run) && LeftSum(After(s, run).clients) < LeftSum(s.clients)
  {
    hide Inv, LeftSum, ValidRun, After, CommitInRange;
    InvInBounds(s);
    assert RpcInRange(s, m);
    if AboutToCountOff(s, m) {
      run := FreshDecrement(s, m);
    } else {
      var e := RpcThread(m, 0);
      StepKeepsInv(s, e);
      var rest := DecrementCounts(Next(s, e), m);
      RunStep(s, e, rest);
      run := [e] + rest;
    }
  }

  /** A request is taken, or finds the barrier it waits for. */
  lemma {:induction false} RpcEnters(s: State, m: nat, c: nat) returns (run: seq<Step>)
    requires Inv(s) && m < |s.nodes| && !RpcWaits(s, m) && (s.nodes[m].rpc.Begin? || s.nodes[m].rpc.Scan?)
    ensures ValidRun(s, run) && Serves(run) && Nearer(s, After(s, run))
  {
    hide Inv, LeftSum, RankSum, ValidRun, After, CommitInRange;
    InvInBounds(s);
    assert RpcInRange(s, m);
    RpcIsOk(s, m);
    var e := RpcThread(m, c);
    JustOne(s, e);
    run := [e];
    NodeNearer(s, Next(s, e), m, s.nodes[m].rpc.c);
  }

  lemma {:induction false} ClientMoves(s: State, c: nat, rounds: nat) returns (run: seq<Step>)
    requires Good(s, rounds) && c < |s.clients| && !ClientWaits(s, c)
    ensures ValidRun(s, run) && Serves(run) && Nearer(s, After(s, run))
  {
    hide NodesOk, CommitsOk, RpcsOk, CountersOk, EpochOk, LogOk, Barriers, LeftSum, RankSum, ValidRun, After;
    hide CommitInRange, RpcInRange, Flagged, Unsettled;
    InvInBounds(s);
    var cl := s.clients[c];
    assert Attended(s, c) && ClientOk(cl);
    if cl.phase == Asked {
      var e := RpcThread(cl.home, c);
      JustOne(s, e);
      run := [e];
      NodeNearer(s, Next(s, e), cl.home, c);
    } else {
      var e := Ask(c);
      JustOne(s, e);
      run := [e];
      ClientNearer(s, Next(s, e), c);
    }
  }

  /** A thread that does not wait has something useful to do. */
  lemma {:induction false} RpcMoves(s: State, m: nat) returns (run: seq<Step>)
    requires Inv(s) && m < |s.nodes| && !RpcWaits(s, m)
    ensures ValidRun(s, run) && Serves(run) && Nearer(s, After(s, run))
  {
    hide Inv, ValidRun, After, LeftSum, RankSum;
    match s.nodes[m].rpc
    case Decrement(_, _) => run := DecrementCounts(s, m);
    case DecrementGot(_, _, _, _) => run := DecrementGotCounts(s, m);
    case Begin(_, _) => run := RpcEnters(s, m, 0);
    case Scan(_, _, _) => run := RpcEnters(s, m, 0);
    case _ => run := RpcWalks(s, m);
  }

  lemma {:induction false} CommitMoves(s: State, m: nat) returns (run: seq<Step>)
    requires Inv(s) && m < |s.nodes| && |s.clients| > 0 && !CommitWaits(s, m)
    ensures ValidRun(s, run) && Serves(run) && Nearer(s, After(s, run))
  {
    hide Inv, ValidRun, After, LeftSum, RankSum;
    BarrierSized(s, m);
    match s.nodes[m].commit
    case Passed(_) => run := PassedHandles(s, m);
    case Got(_, _, _) => run := GotHandles(s, m);
    case Ready =>
      var c: nat :| HasMessage(s.clients, m, c);
      run := CommitWalks(s, m, c);
    case _ => run := CommitWalks(s, m, 0);
  }

  lemma {:induction false} BarrierSized(s: State, m: nat)
    requires Inv(s) && m < |s.nodes|
    ensures s.nodes[m].waiting < |s.nodes[m].barrier|
  {
    hide ClientsOk, CountersOk, RpcsOk, EpochOk, NodesOk;
    assert CommitOk(s.nodes[m], m, s.clients, s.counter);
  }

  lemma {:induction false} Productive(s: State, rounds: nat) returns (run: seq<Step>)
    requires Good(s, rounds) && !Done(s, rounds)
    ensures ValidRun(s, run) && Serves(run) && Nearer(s, After(s, run))
  {
    hide Inv, More, ValidRun, After, Nearer, RpcWaits, CommitWaits, ClientWaits, Done, Serves;
    if m :| 0 <= m < |s.nodes| && !RpcWaits(s, m) {
      run := RpcMoves(s, m);
    } else if m :| 0 <= m < |s.nodes| && !CommitWaits(s, m) {
      run := CommitMoves(s, m);
    } else if c :| 0 <= c < |s.clients| && !ClientWaits(s, c) {
      run := ClientMoves(s, c, rounds);
    } else {
      WaitingIsDone(s, rounds);
    }
  }

  lemma {:induction false} RunKeepsGood(s: State, run: seq<Step>, rounds: nat)
    requires Good(s, rounds) && ValidRun(s, run) && Serves(run)
    ensures Good(After(s, run), rounds)
    decreases |run|
  {
    hide Good, Enabled, Next;
    if run != [] {
      StepKeepsGood(s, run[0], rounds);
      RunKeepsGood(Next(s, run[0]), run[1..], rounds);
    }
  }

  lemma {:induction false} Finishes(s: State, rounds: nat) returns (run: seq<Step>)
    requires Good(s, rounds)
    ensures ValidRun(s, run) && Serves(run) && Done(After(s, run), rounds)
    decreases LeftSum(s.clients), RankSum(s.nodes, |s.nodes|)
  {
    hide Good, Done, LeftSum, RankSum, Enabled, Next;
    if Done(s, rounds) {
      run := [];
    } else {
      var first := Productive(s, rounds);
      RunKeepsGood(s, first, rounds);
      var rest := Finishes(After(s, first), rounds);
      RunBoth(s, first, rest);
      run := first + rest;
    }
  }

  lemma {:induction false} RunKeepsMore(s: State, run: seq<Step>)
    requires Inv(s) && More(s) && ValidRun(s, run)
    ensures Inv(After(s, run)) && More(After(s, run))
    decreases |run|
  {
    hide Inv, More, Enabled, Next;
    if run != [] {
      StepKeepsMore(s, run[0]);
      RunKeepsMore(Next(s, run[0]), run[1..]);
    }
  }

  /**
   * No even round is ever stuck: from every reachable state in which all clients have announced the same number of
   * barriers, every node has a client and every barrier has an operation, the servers can handle every message, run
   * and count off every operation and release every barrier, without anything new being announced.
   */
  lemma {:induction false} EvenRoundsComplete(s: State, run: seq<Step>, rounds: nat) returns (more: seq<Step>)
    requires Initial(s) && ValidRun(s, run) && Even(After(s, run), rounds)
    ensures ValidRun(After(s, run), more) && Serves(more) && Done(After(After(s, run), more), rounds)
  {
    hide Initial, After, ValidRun, Inv, More, Even, Done;
    InitialMore(s);
    RunKeepsMore(s, run);
    more := Finishes(After(s, run), rounds);
  }

  // ---- uneven rounds ----

  /** The client still has an operation of barrier b, its latest, to be served. */
  predicate Owes(cl: Client, b: nat) {
    |cl.ks| == b + 1 && ((cl.phase == Free && cl.todo > 0) || cl.phase == Asked)
  }

  /** Node m serves an operation of a later barrier than one that its client c still owes. */
  predicate Blocked(s: State, m: nat, c: nat, b: nat) {
    && m < |s.nodes| && Here(s.clients, m, c) && Owes(s.clients[c], b)
    && s.nodes[m].rpc.Begin? && s.nodes[m].rpc.b > b
  }

  /** An owed operation keeps its barrier from being released. */
  lemma {:induction false} OwedKeepsBarrier(s: State, m: nat, c: nat, b: nat)
    requires Inv(s) && Blocked(s, m, c, b)
    ensures Hits(s) <= b && s.nodes[m].waiting <= b && !BarrierFound(s, m)
    ensures s.clients[c].finished[b] < s.clients[c].ks[b]
  {
    hide CountersOk, CommitsOk, RpcsOk, LogOk, Barriers, Reached, CountAt;
    assert ClientOk(s.clients[c]) && Settled(s.clients[c], Hits(s)) && NodeOk(s.nodes[m], m, s.clients);
  }

  predicate BarrierFound(s: State, m: nat) {
    m < |s.nodes| && s.nodes[m].rpc.Begin? && s.nodes[m].rpc.b < |s.nodes[m].barrier|
    && s.nodes[m].barrier[s.nodes[m].rpc.b]
  }

  lemma {:induction false} CommitKeepsBlocked(s: State, n: nat, x: nat, m: nat, c: nat, b: nat)
    requires Blocked(s, m, c, b) && InBounds(s) && CommitEnabled(s, n, x)
    ensures Blocked(CommitNext(s, n, x), m, c, b)
  {
    hide NumAt, RpcInRange;
    assert CommitInRange(s, n);
  }

  lemma {:induction false} RpcKeepsBlocked(s: State, n: nat, x: nat, m: nat, c: nat, b: nat)
    requires Inv(s) && Blocked(s, m, c, b) && InBounds(s) && RpcEnabled(s, n, x)
    ensures Blocked(RpcNext(s, n, x), m, c, b)
  {
    hide Inv, CommitInRange, Scanned, CellOk, Published;
    OwedKeepsBarrier(s, m, c, b);
    assert RpcInRange(s, n);
    RpcIsOk(s, n);
  }

  lemma {:induction false} StepKeepsBlocked(s: State, e: Step, m: nat, c: nat, b: nat)
    requires Inv(s) && Blocked(s, m, c, b) && Enabled(s, e)
    ensures Blocked(Next(s, e), m, c, b)
  {
    hide Inv, CommitNext, RpcNext, InBounds, CommitEnabled, RpcEnabled;
    match e
    case CommitThread(n, x) => CommitKeepsBlocked(s, n, x, m, c, b);
    case RpcThread(n, x) => RpcKeepsBlocked(s, n, x, m, c, b);
    case _ =>
  }

  /** A node that is blocked stays so: whatever happens, the owed operation is not run, its barrier not released. */
  lemma {:induction false} BlockedForEver(s: State, run: seq<Step>, m: nat, c: nat, b: nat)
    requires Inv(s) && Blocked(s, m, c, b) && ValidRun(s, run)
    ensures var s' := After(s, run);
      && Inv(s') && Blocked(s', m, c, b) && Hits(s') <= b && b < |s'.clients[c].finished|
      && s'.clients[c].finished[b] < s'.clients[c].ks[b]
    decreases |run|
  {
    hide Inv, Enabled, Next, Blocked;
    if run == [] {
      OwedKeepsBarrier(s, m, c, b);
      BlockedLedger(s, m, c, b);
    } else {
      StepKeepsInv(s, run[0]);
      StepKeepsBlocked(s, run[0], m, c, b);
      BlockedForEver(Next(s, run[0]), run[1..], m, c, b);
    }
  }

  lemma {:induction false} BlockedLedger(s: State, m: nat, c: nat, b: nat)
    requires Inv(s) && Blocked(s, m, c, b)
    ensures c < |s.clients| && b < |s.clients[c].finished| && b < |s.clients[c].ks|
  {
    hide CountersOk, CommitsOk, RpcsOk, NodesOk, EpochOk, LogOk, Barriers;
    assert ClientOk(s.clients[c]);
  }

  /** Client x runs ahead: it announces nothing at the first barrier, one operation at the second, and asks for it. */
  function RunningAhead(m: nat, c: nat, x: nat): seq<Step> {
    [Announce(c, 1)] + ([Announce(x, 0)] + ([Announce(x, 1)] + ([Ask(x)] + ([RpcThread(m, x)] + []))))
  }

  lemma {:induction false} InitialInBounds(s: State)
    requires Initial(s)
    ensures Inv(s) && InBounds(s)
  {
    hide Inv, InBounds;
    InitialInv(s);
    InvInBounds(s);
  }

  lemma {:induction false} AheadBlocks(s: State, m: nat, c: nat, x: nat)
    requires Initial(s) && m < |s.nodes| && Here(s.clients, m, c) && Here(s.clients, m, x) && c != x
    ensures ValidRun(s, RunningAhead(m, c, x)) && Inv(After(s, RunningAhead(m, c, x)))
    ensures Blocked(After(s, RunningAhead(m, c, x)), m, c, 0)
  {
    hide Inv, InBounds, ValidRun, After;
    InitialInBounds(s);
    var s1 := Next(s, Announce(c, 1));
    StepKeepsInv(s, Announce(c, 1));
    InvInBounds(s1);
    var s2 := Next(s1, Announce(x, 0));
    StepKeepsInv(s1, Announce(x, 0));
    InvInBounds(s2);
    var s3 := Next(s2, Announce(x, 1));
    StepKeepsInv(s2, Announce(x, 1));
    InvInBounds(s3);
    var s4 := Next(s3, Ask(x));
    StepKeepsInv(s3, Ask(x));
    InvInBounds(s4);
    var s5 := Next(s4, RpcThread(m, x));
    StepKeepsInv(s4, RpcThread(m, x));
    EmptyRun(s5);
    RunStep(s4, RpcThread(m, x), []);
    RunStep(s3, Ask(x), [RpcThread(m, x)] + []);
    RunStep(s2, Announce(x, 1), [Ask(x)] + ([RpcThread(m, x)] + []));
    RunStep(s1, Announce(x, 0), [Announce(x, 1)] + ([Ask(x)] + ([RpcThread(m, x)] + [])));
    RunStep(s, Announce(c, 1), [Announce(x, 0)] + ([Announce(x, 1)] + ([Ask(x)] + ([RpcThread(m, x)] + []))));
  }

  lemma EmptyRun(s: State)
    ensures ValidRun(s, []) && After(s, []) == s
  {}

  /**
   * Even rounds are needed: on any node with two clients, one of them can run one barrier ahead so that the node's
   * only RPC thread waits for a barrier that cannot come, and the first barrier is never released, in no run at all.
   */
  lemma {:induction false} UnevenRoundsBlock(s: State, m: nat, c: nat, x: nat, more: seq<Step>)
    requires Initial(s) && m < |s.nodes| && Here(s.clients, m, c) && Here(s.clients, m, x) && c != x
    requires ValidRun(s, RunningAhead(m, c, x)) ==> ValidRun(After(s, RunningAhead(m, c, x)), more)
    ensures ValidRun(s, RunningAhead(m, c, x))
    ensures var s' := After(After(s, RunningAhead(m, c, x)), more);
      s'.epoch == 0 && s'.releaser == None && c < |s'.clients| && Owes(s'.clients[c], 0)
  {
    hide Inv, ValidRun, After, Initial, RunningAhead;
    AheadBlocks(s, m, c, x);
    BlockedForEver(After(s, RunningAhead(m, c, x)), more, m, c, 0);
  }
}
