/** Safety of the barrier protocol over every run. */
module Barrier {
  import opened Common
  import opened Protocol

  // ---- counting over clients ----

  /** Clients of node m whose barrier-b message has been counted. */
  function CountAt(clients: seq<Client>, m: nat, b: nat): nat {
    if clients == [] then 0
    else
      var last := clients[|clients| - 1];
      CountAt(clients[..|clients| - 1], m, b) + if last.home == m && last.counted > b then 1 else 0
  }

  predicate Here(clients: seq<Client>, m: nat, c: int) {
    0 <= c < |clients| && clients[c].home == m
  }

  ghost predicate AllCounted(clients: seq<Client>, m: nat, b: nat) {
    forall c :: Here(clients, m, c) ==> clients[c].counted > b
  }

  /** Node m has clients and all of them have had their barrier-b message counted. */
  ghost predicate Reached(clients: seq<Client>, m: nat, b: nat) {
    (exists c :: Here(clients, m, c)) && AllCounted(clients, m, b)
  }

  lemma {:induction false} CountFull(clients: seq<Client>, m: nat, b: nat)
    ensures CountAt(clients, m, b) <= NumAt(clients, m)
    ensures CountAt(clients, m, b) == NumAt(clients, m) <==> AllCounted(clients, m, b)
  {
    if clients != [] {
      var front := clients[..|clients| - 1];
      CountFull(front, m, b);
      assert forall c :: Here(front, m, c) ==> front[c] == clients[c] && Here(clients, m, c);
      assert forall c :: Here(clients, m, c) && c < |front| ==> Here(front, m, c);
      if AllCounted(clients, m, b) { assert AllCounted(front, m, b); }
      if AllCounted(front, m, b) && (clients[|front|].home != m || clients[|front|].counted > b) {
        forall c | Here(clients, m, c) ensures clients[c].counted > b {
          if c < |front| { assert Here(front, m, c); }
        }
      }
      if clients[|front|].home == m { assert Here(clients, m, |front|); }
    }
  }

  lemma {:induction false} CountUpdate(clients: seq<Client>, c: nat, cl: Client, m: nat, b: nat)
    requires c < |clients| && cl.home == clients[c].home
    ensures CountAt(clients[c := cl], m, b) == CountAt(clients, m, b)
      - (if cl.home == m && clients[c].counted > b then 1 else 0)
      + (if cl.home == m && cl.counted > b then 1 else 0)
    ensures NumAt(clients[c := cl], m) == NumAt(clients, m)
  {
    var n := |clients| - 1;
    if c == n {
      assert clients[c := cl][..n] == clients[..n];
    } else {
      assert clients[c := cl][..n] == clients[..n][c := cl];
      CountUpdate(clients[..n], c, cl, m, b);
    }
  }

  // ---- what clients still owe ----

  /** Announced but not yet counted off operations of one client at barrier b, once its message is counted. */
  function Debt(cl: Client, b: nat): int {
    if b < cl.counted && b < |cl.ks| && b < |cl.finished| then cl.ks[b] as int - cl.finished[b] as int else 0
  }

  function Owed(clients: seq<Client>, b: nat): int {
    if clients == [] then 0 else Owed(clients[..|clients| - 1], b) + Debt(clients[|clients| - 1], b)
  }

  lemma {:induction false} OwedUpdate(clients: seq<Client>, c: nat, cl: Client, b: nat)
    requires c < |clients|
    ensures Owed(clients[c := cl], b) == Owed(clients, b) - Debt(clients[c], b) + Debt(cl, b)
  {
    hide Debt;
    var n := |clients| - 1;
    if c == n {
      assert clients[c := cl][..n] == clients[..n];
    } else {
      assert clients[c := cl][..n] == clients[..n][c := cl];
      OwedUpdate(clients[..n], c, cl, b);
    }
  }

  /** Nothing is owed in total exactly when no client owes anything. */
  lemma {:induction false} OwedZero(clients: seq<Client>, b: nat)
    requires forall c :: 0 <= c < |clients| ==> Debt(clients[c], b) >= 0
    ensures Owed(clients, b) >= 0
    ensures Owed(clients, b) == 0 <==> forall c :: 0 <= c < |clients| ==> Debt(clients[c], b) == 0
  {
    hide Debt;
    if clients != [] {
      var front := clients[..|clients| - 1];
      assert forall c :: 0 <= c < |front| ==> front[c] == clients[c];
      OwedZero(front, b);
    }
  }

  // ---- invariants ----

  function Barriers(s: seq<Msg>): nat {
    if s == [] then 0 else Barriers(s[..|s| - 1]) + if s[|s| - 1].Barrier? then 1 else 0
  }

  /** The barrier messages of a log are numbered in order and carry what was announced. */
  predicate LogOk(sent: seq<Msg>, ks: seq<nat>) {
    && Barriers(sent) == |ks|
    && (forall p :: 0 <= p < |sent| && sent[p].Barrier? ==>
          && sent[p].id == Barriers(sent[..p]) + 1
          && sent[p].id <= |ks|
          && sent[p].k == ks[sent[p].id - 1])
  }

  predicate Pending(cl: Client) {
    cl.phase == Asked || cl.phase == Served
  }

  predicate Ledger(cl: Client) {
    && |cl.finished| == |cl.ks| && cl.counted <= |cl.ks| < BARRIER_ID_MAX
    && (forall b :: 0 <= b < |cl.ks| - 1 ==> cl.finished[b] == cl.ks[b])
    && (forall b :: cl.counted <= b < |cl.ks| ==> cl.finished[b] == 0)
    && (|cl.ks| == 0 ==> cl.todo == 0 && cl.phase == Free)
    && (|cl.ks| > 0 ==> cl.ks[|cl.ks| - 1] == cl.finished[|cl.ks| - 1] + cl.todo + if Pending(cl) then 1 else 0)
  }

  predicate ClientOk(cl: Client) {
    && Ledger(cl)
    && cl.handled <= |cl.sent|
    && LogOk(cl.sent, cl.ks)
    && cl.counted == Barriers(cl.sent[..cl.handled])
  }

  predicate Lowered(rpc: Rpc) { rpc.Unflag? || rpc.Cast? }
  predicate Releasing(rpc: Rpc) { rpc.Lower? || rpc.Unflag? || rpc.Cast? }

  ghost predicate NodeOk(nd: Node, m: nat, clients: seq<Client>) {
    && |nd.barrier| == |nd.flag| == |nd.reach| == BARRIER_ID_MAX && nd.waiting < BARRIER_ID_MAX
    && (forall j :: 0 <= j < BARRIER_ID_MAX ==> nd.reach[j] == CountAt(clients, m, j))
    && (forall j :: 0 <= j < BARRIER_ID_MAX && nd.barrier[j] ==> j == nd.waiting && Reached(clients, m, j))
    && (forall j :: 0 <= j < BARRIER_ID_MAX && nd.flag[j] ==> nd.commit != Raise(j) && Reached(clients, m, j))
    && (forall j: nat :: Reached(clients, m, j) ==> j <= nd.waiting)
    && (Reached(clients, m, nd.waiting) ==>
          nd.barrier[nd.waiting] || nd.commit == Raise(nd.waiting) || Lowered(nd.rpc))
    && (Lowered(nd.rpc) ==> !nd.barrier[nd.waiting])
  }

  predicate CellOk(counter: seq<Cell>, b: nat, value: int, version: nat) {
    b < |counter| && version <= counter[b].version && (version == counter[b].version ==> value == counter[b].value)
  }

  predicate HasMessage(clients: seq<Client>, m: nat, c: nat) {
    Here(clients, m, c) && clients[c].handled < |clients[c].sent|
  }

  ghost predicate CommitOk(nd: Node, m: nat, clients: seq<Client>, counter: seq<Cell>) {
    && nd.waiting < |nd.barrier|
    && match nd.commit
       case Ready => true
       case Received(c) => HasMessage(clients, m, c)
       case Loaded(c, w) => HasMessage(clients, m, c) && w <= nd.waiting && (nd.barrier[nd.waiting] ==> w == nd.waiting)
       case Passed(c) => HasMessage(clients, m, c) && !nd.barrier[nd.waiting]
       case Got(c, value, version) =>
         && HasMessage(clients, m, c) && !nd.barrier[nd.waiting]
         && Message(clients[c]).Barrier? && Message(clients[c]).id >= 1
         && CellOk(counter, Message(clients[c]).id - 1, value, version)
       case Raise(b) => b == nd.waiting && Reached(clients, m, b) && !Lowered(nd.rpc) && !nd.barrier[b]
       case Publish(b) => b < BARRIER_ID_MAX && Reached(clients, m, b)
  }

  /** Client c's operation tagged b is being served by node m. */
  predicate Serving(clients: seq<Client>, m: nat, c: nat, b: nat, phase: Phase) {
    Here(clients, m, c) && clients[c].phase == phase && |clients[c].ks| == b + 1
  }

  /** Node m has raised barrier b and the nodes before i, other than m, have published it. */
  predicate Scanned(nodes: seq<Node>, m: nat, b: nat, i: nat)
    requires m < |nodes|
  {
    && i <= |nodes| && b < |nodes[m].barrier| && nodes[m].barrier[b]
    && (forall n :: 0 <= n < i && n != m ==> b < |nodes[n].flag| && nodes[n].flag[b])
  }

  /** Every node other than m has published barrier b. */
  predicate Published(nodes: seq<Node>, m: nat, b: nat) {
    forall n :: 0 <= n < |nodes| && n != m ==> b < |nodes[n].flag| && nodes[n].flag[b]
  }

  /** The release of barrier b by node m, whose client c is still blocked. */
  predicate Releases(s: State, m: nat, c: nat, b: nat) {
    Serving(s.clients, m, c, b, Answered) && b == s.epoch && Published(s.nodes, m, b)
  }

  ghost predicate RpcOk(s: State, m: nat)
    requires m < |s.nodes|
  {
    match s.nodes[m].rpc
    case Idle => true
    case Begin(c, b) => Serving(s.clients, m, c, b, Served)
    case Scan(c, b, i) => Serving(s.clients, m, c, b, Served) && Scanned(s.nodes, m, b, i)
    case Body(c, b) => Serving(s.clients, m, c, b, Served) && Scanned(s.nodes, m, b, |s.nodes|)
    case Decrement(c, b) => Serving(s.clients, m, c, b, Served) && Scanned(s.nodes, m, b, |s.nodes|)
    case DecrementGot(c, b, value, version) =>
      Serving(s.clients, m, c, b, Served) && Scanned(s.nodes, m, b, |s.nodes|) && CellOk(s.counter, b, value, version)
    case Lower(c, b) =>
      Releases(s, m, c, b) && b < |s.nodes[m].barrier| && s.nodes[m].barrier[b]
    case Unflag(c, b) => Releases(s, m, c, b)
    case Cast(c, b, i) => Releases(s, m, c, b) && i <= |s.nodes|
    case Reply(c) => Here(s.clients, m, c) && s.clients[c].phase == Answered
  }

  /** Node m has already been told that the barrier being released is gone. */
  predicate Told(s: State, m: nat) {
    && s.releaser.Some? && s.releaser.value < |s.nodes| && m != s.releaser.value
    && s.nodes[s.releaser.value].rpc.Cast? && m < s.nodes[s.releaser.value].rpc.i
  }

  /** How often an operation counter has been brought down to 0. */
  function Hits(s: State): nat { s.epoch + if s.releaser.Some? then 1 else 0 }

  predicate Settled(cl: Client, hits: nat) {
    && hits <= cl.counted
    && (forall b :: 0 <= b < hits && b < |cl.ks| && b < |cl.finished| ==> cl.finished[b] == cl.ks[b])
  }

  ghost predicate EpochOk(s: State) {
    && Hits(s) < BARRIER_ID_MAX
    && (s.releaser.Some? ==> s.releaser.value < |s.nodes|)
    && (forall m :: 0 <= m < |s.nodes| ==> (Releasing(s.nodes[m].rpc) <==> s.releaser == Some(m)))
    && (forall m :: 0 <= m < |s.nodes| ==> s.nodes[m].waiting == s.epoch + if Told(s, m) then 1 else 0)
    && (forall c :: 0 <= c < |s.clients| ==> Settled(s.clients[c], Hits(s)))
  }

  ghost predicate ClientsOk(s: State) {
    forall c :: 0 <= c < |s.clients| ==> ClientOk(s.clients[c]) && s.clients[c].home < |s.nodes|
  }

  /** The counter of barrier b holds the announced operations minus the completed ones. */
  ghost predicate CountersOk(clients: seq<Client>, counter: seq<Cell>) {
    && |counter| == BARRIER_ID_MAX
    && (forall b :: 0 <= b < BARRIER_ID_MAX ==> counter[b].value == Owed(clients, b))
  }

  ghost predicate NodesOk(s: State) {
    forall m :: 0 <= m < |s.nodes| ==> NodeOk(s.nodes[m], m, s.clients)
  }

  ghost predicate CommitsOk(s: State) {
    forall m :: 0 <= m < |s.nodes| ==> CommitOk(s.nodes[m], m, s.clients, s.counter)
  }

  ghost predicate RpcsOk(s: State) {
    forall m :: 0 <= m < |s.nodes| ==> RpcOk(s, m)
  }

  ghost predicate Inv(s: State) {
    ClientsOk(s) && CountersOk(s.clients, s.counter) && NodesOk(s) && CommitsOk(s) && RpcsOk(s) && EpochOk(s)
  }

  // ---- consequences ----

  /** An operation that is still pending belongs to a barrier that no decrement has finished. */
  lemma {:induction false} PendingIsLate(s: State, m: nat, c: nat, b: nat)
    requires ClientsOk(s) && EpochOk(s) && Serving(s.clients, m, c, b, Served)
    ensures Hits(s) <= b < BARRIER_ID_MAX && s.clients[c].ks[b] > s.clients[c].finished[b]
  {
    hide LogOk, Barriers;
    assert ClientOk(s.clients[c]) && Settled(s.clients[c], Hits(s));
  }

  /**
   * Once an operation tagged b has seen every node at barrier b, no release is under way and every node waits at
   * b with its barrier up.
   */
  lemma {:induction false} AllStalled(s: State, m: nat, c: nat, b: nat)
    requires Inv(s) && m < |s.nodes|
    requires Serving(s.clients, m, c, b, Served) && Scanned(s.nodes, m, b, |s.nodes|)
    ensures s.releaser == None && b == s.epoch
    ensures forall n :: 0 <= n < |s.nodes| ==>
      Reached(s.clients, n, b) && s.nodes[n].waiting == b && s.nodes[n].barrier[b]
  {
    hide ClientOk, CommitOk, RpcOk, Reached, Settled, CountersOk, ClientsOk;
    PendingIsLate(s, m, c, b);
    forall n | 0 <= n < |s.nodes| ensures Reached(s.clients, n, b) && b <= s.nodes[n].waiting {
      assert NodeOk(s.nodes[n], n, s.clients);
    }
    forall n | 0 <= n < |s.nodes| ensures s.nodes[n].waiting == b && s.nodes[n].barrier[b] {
      assert NodeOk(s.nodes[n], n, s.clients) && !Releasing(s.nodes[n].rpc);
    }
  }

  /** While all nodes have reached b, so have all clients. */
  lemma {:induction false} AllCountedEverywhere(s: State, b: nat)
    requires ClientsOk(s)
    requires forall n :: 0 <= n < |s.nodes| ==> Reached(s.clients, n, b)
    ensures forall c :: 0 <= c < |s.clients| ==> s.clients[c].counted > b
  {
    hide ClientOk;
    forall c | 0 <= c < |s.clients| ensures s.clients[c].counted > b {
      assert Reached(s.clients, s.clients[c].home, b) && Here(s.clients, s.clients[c].home, c);
    }
  }

  lemma {:induction false} InvInBounds(s: State)
    requires Inv(s)
    ensures InBounds(s)
  {
    hide Reached, CountAt, Barriers;
    forall m | 0 <= m < |s.nodes| ensures NodeOk(s.nodes[m], m, s.clients) {}
    assert Sized(s);
    forall m | 0 <= m < |s.nodes| ensures CommitInRange(s, m) && RpcInRange(s, m) {
      CommitIsInRange(s, m);
      RpcIsInRange(s, m);
    }
  }

  lemma {:induction false} MessageIsOk(s: State, m: nat, c: nat)
    requires ClientsOk(s) && HasMessage(s.clients, m, c)
    ensures Queued(s, m, c)
    ensures var x := Message(s.clients[c]); x.Barrier? ==>
      && x.id == s.clients[c].counted + 1 && x.id <= |s.clients[c].ks| && x.k == s.clients[c].ks[x.id - 1]
  {
    hide Barriers;
    assert ClientOk(s.clients[c]);
  }

  lemma {:induction false} CommitIsInRange(s: State, m: nat)
    requires Inv(s) && m < |s.nodes|
    ensures CommitInRange(s, m)
  {
    hide Barriers, Reached, CountAt, ClientsOk, RpcsOk, EpochOk, CountersOk;
    assert NodeOk(s.nodes[m], m, s.clients) && CommitOk(s.nodes[m], m, s.clients, s.counter);
    match s.nodes[m].commit
    case Ready =>
    case Received(c) => MessageIsOk(s, m, c);
    case Loaded(c, _) => MessageIsOk(s, m, c);
    case Passed(c) => MessageIsOk(s, m, c);
    case Got(c, _, _) => MessageIsOk(s, m, c);
    case Raise(_) =>
    case Publish(_) =>
  }

  lemma {:induction false} RpcIsInRange(s: State, m: nat)
    requires Inv(s) && m < |s.nodes|
    ensures RpcInRange(s, m)
  {
    hide LogOk, Barriers, NodesOk, CommitsOk, CountersOk, Settled;
    assert RpcOk(s, m);
    var rpc := s.nodes[m].rpc;
    if !rpc.Idle? { assert ClientOk(s.clients[rpc.c]); }
  }

  // ---- frames ----

  /** The change of client c is invisible to the nodes: same home, same number of counted barriers. */
  predicate Quiet(clients: seq<Client>, c: nat, x: Client) {
    c < |clients| && x.home == clients[c].home && x.counted == clients[c].counted
  }

  lemma {:induction false} QuietReached(clients: seq<Client>, c: nat, x: Client, m: nat, j: nat)
    requires Quiet(clients, c, x)
    ensures Reached(clients[c := x], m, j) == Reached(clients, m, j)
    ensures CountAt(clients[c := x], m, j) == CountAt(clients, m, j)
  {
    hide CountAt;
    var clients' := clients[c := x];
    CountUpdate(clients, c, x, m, j);
    assert forall d :: Here(clients', m, d) <==> Here(clients, m, d);
    assert AllCounted(clients', m, j) <==> AllCounted(clients, m, j);
  }

  lemma {:induction false} NodeFrame(nd: Node, m: nat, clients: seq<Client>, c: nat, x: Client)
    requires NodeOk(nd, m, clients) && Quiet(clients, c, x)
    ensures NodeOk(nd, m, clients[c := x])
  {
    hide Reached, CountAt;
    var clients' := clients[c := x];
    forall j: nat ensures Reached(clients', m, j) == Reached(clients, m, j) {
      QuietReached(clients, c, x, m, j);
    }
    forall j: nat ensures CountAt(clients', m, j) == CountAt(clients, m, j) {
      QuietReached(clients, c, x, m, j);
    }
  }

  /** What client c has queued at the head of its log is not disturbed, or node m does not look at it. */
  predicate HeadKept(nd: Node, clients: seq<Client>, c: nat, x: Client)
    requires c < |clients|
  {
    || (x.handled == clients[c].handled && clients[c].sent <= x.sent)
    || (nd.commit.Ready? || nd.commit.Raise? || nd.commit.Publish? || nd.commit.c != c)
  }

  lemma {:induction false} CommitFrame(nd: Node, m: nat, clients: seq<Client>, counter: seq<Cell>, c: nat, x: Client)
    requires CommitOk(nd, m, clients, counter) && Quiet(clients, c, x)
    requires HeadKept(nd, clients, c, x)
    ensures CommitOk(nd, m, clients[c := x], counter)
  {
    hide Reached, CellOk;
    if nd.commit.Raise? || nd.commit.Publish? { QuietReached(clients, c, x, m, nd.commit.b); }
  }

  /** Node m's RPC thread is not concerned with client c. */
  predicate Unserved(rpc: Rpc, c: nat) {
    rpc.Idle? || rpc.c != c
  }

  lemma {:induction false} RpcFrameClient(s: State, c: nat, x: Client, m: nat)
    requires m < |s.nodes| && RpcOk(s, m) && c < |s.clients|
    requires Unserved(s.nodes[m].rpc, c) ||
      (x.home == s.clients[c].home && x.phase == s.clients[c].phase && x.ks == s.clients[c].ks)
    ensures RpcOk(AtClient(s, c, x), m)
  {
    hide Scanned, CellOk;
  }

  lemma {:induction false} UnservedElsewhere(s: State, c: nat, m: nat)
    requires RpcsOk(s) && m < |s.nodes| && c < |s.clients| && s.clients[c].home != m
    ensures Unserved(s.nodes[m].rpc, c)
  {
    hide Scanned, CellOk;
    assert RpcOk(s, m);
  }

  lemma {:induction false} FreeIsUnserved(s: State, c: nat, m: nat)
    requires RpcsOk(s) && m < |s.nodes| && c < |s.clients|
    requires (s.clients[c].phase == Free || s.clients[c].phase == Asked)
    ensures Unserved(s.nodes[m].rpc, c)
  {
    hide Scanned, CellOk;
    assert RpcOk(s, m);
  }

  /** A change of one client that leaves every debt and all settled accounts as they are. */
  lemma {:induction false} QuietCounters(s: State, c: nat, x: Client)
    requires CountersOk(s.clients, s.counter) && c < |s.clients|
    requires forall b :: 0 <= b < BARRIER_ID_MAX ==> Debt(x, b) == Debt(s.clients[c], b)
    ensures CountersOk(s.clients[c := x], s.counter)
  {
    hide Debt, Owed;
    forall b | 0 <= b < BARRIER_ID_MAX ensures Owed(s.clients[c := x], b) == Owed(s.clients, b) {
      OwedUpdate(s.clients, c, x, b);
    }
  }

  lemma {:induction false} QuietEpoch(s: State, c: nat, x: Client)
    requires EpochOk(s) && c < |s.clients| && Settled(x, Hits(s))
    ensures EpochOk(AtClient(s, c, x))
  {
    hide Settled;
    var s' := AtClient(s, c, x);
    forall m | 0 <= m < |s'.nodes| ensures Told(s', m) == Told(s, m) {}
  }

  /** A change of client c that no server thread and no account can see. */
  lemma {:induction false} QuietKeepsInv(s: State, c: nat, x: Client)
    requires Inv(s) && Quiet(s.clients, c, x) && ClientOk(x) && Settled(x, Hits(s))
    requires forall b :: 0 <= b < BARRIER_ID_MAX ==> Debt(x, b) == Debt(s.clients[c], b)
    requires forall m :: 0 <= m < |s.nodes| ==> HeadKept(s.nodes[m], s.clients, c, x)
    requires (x.phase == s.clients[c].phase && x.ks == s.clients[c].ks) ||
      (forall m :: 0 <= m < |s.nodes| ==> Unserved(s.nodes[m].rpc, c))
    ensures Inv(AtClient(s, c, x))
  {
    hide ClientOk, NodeOk, CommitOk, RpcOk, Reached, CountAt, Owed, EpochOk, CountersOk, Debt, HeadKept, Unserved;
    var s' := AtClient(s, c, x);
    QuietCounters(s, c, x);
    QuietEpoch(s, c, x);
    forall m | 0 <= m < |s.nodes| ensures NodeOk(s'.nodes[m], m, s'.clients) {
      NodeFrame(s.nodes[m], m, s.clients, c, x);
    }
    forall m | 0 <= m < |s.nodes| ensures CommitOk(s'.nodes[m], m, s'.clients, s'.counter) {
      CommitFrame(s.nodes[m], m, s.clients, s.counter, c, x);
    }
    forall m | 0 <= m < |s.nodes| ensures RpcOk(s', m) {
      RpcFrameClient(s, c, x, m);
    }
  }

  /**
   * A step of one node that leaves its clients, its RPC thread and `waiting` alone and takes back neither a
   * barrier nor a flag.
   */
  lemma {:induction false} NodeKeepsInv(s: State, m: nat, nd: Node)
    requires Inv(s) && m < |s.nodes| && NodeOk(nd, m, s.clients) && CommitOk(nd, m, s.clients, s.counter)
    requires nd.waiting == s.nodes[m].waiting && nd.rpc == s.nodes[m].rpc
    requires forall b :: 0 <= b < |s.nodes[m].barrier| && s.nodes[m].barrier[b] ==> b < |nd.barrier| && nd.barrier[b]
    requires forall b :: 0 <= b < |s.nodes[m].flag| && s.nodes[m].flag[b] ==> b < |nd.flag| && nd.flag[b]
    ensures Inv(AtNode(s, m, nd))
  {
    hide ClientOk, NodeOk, CommitOk, Reached, CountersOk, RpcOk, EpochOk;
    var s' := AtNode(s, m, nd);
    forall n | 0 <= n < |s.nodes| ensures RpcOk(s', n) { RpcFrameNode(s, m, nd, n); }
    EpochSame(s, s');
  }

  lemma {:induction false} RpcFrameNode(s: State, m: nat, nd: Node, n: nat)
    requires m < |s.nodes| && n < |s.nodes| && RpcOk(s, n) && nd.rpc == s.nodes[m].rpc
    requires forall b :: 0 <= b < |s.nodes[m].barrier| && s.nodes[m].barrier[b] ==> b < |nd.barrier| && nd.barrier[b]
    requires forall b :: 0 <= b < |s.nodes[m].flag| && s.nodes[m].flag[b] ==> b < |nd.flag| && nd.flag[b]
    ensures RpcOk(AtNode(s, m, nd), n)
  {
    hide Serving, CellOk;
  }

  /** The release bookkeeping reads only `waiting`, the RPC threads and the clients' ledgers. */
  lemma {:induction false} EpochSame(s: State, s': State)
    requires EpochOk(s) && s'.clients == s.clients && s'.epoch == s.epoch && s'.releaser == s.releaser
    requires |s'.nodes| == |s.nodes|
    requires forall n :: 0 <= n < |s.nodes| ==>
      s'.nodes[n].waiting == s.nodes[n].waiting && s'.nodes[n].rpc == s.nodes[n].rpc
    ensures EpochOk(s')
  {
    hide Settled;
    forall n | 0 <= n < |s.nodes| ensures Told(s', n) == Told(s, n) {}
  }

  /** A step of an RPC thread outside the release of a barrier that changes only where it stands. */
  lemma {:induction false} RpcKeepsInv(s: State, m: nat, rpc: Rpc)
    requires Inv(s) && m < |s.nodes| && !Releasing(rpc) && !Releasing(s.nodes[m].rpc)
    requires RpcOk(AtNode(s, m, s.nodes[m].(rpc := rpc)), m)
    ensures Inv(AtNode(s, m, s.nodes[m].(rpc := rpc)))
  {
    hide ClientOk, Reached, CountersOk, Settled, Serving, CellOk, CountAt, HasMessage;
    var nd := s.nodes[m].(rpc := rpc);
    var s' := AtNode(s, m, nd);
    assert NodeOk(s.nodes[m], m, s.clients) && CommitOk(s.nodes[m], m, s.clients, s.counter);
    assert NodeOk(nd, m, s.clients) && CommitOk(nd, m, s.clients, s.counter);
    RpcKeepsOthers(s, m, rpc);
  }

  lemma {:induction false} RpcKeepsOthers(s: State, m: nat, rpc: Rpc)
    requires Inv(s) && m < |s.nodes| && !Releasing(rpc) && !Releasing(s.nodes[m].rpc)
    ensures var s' := AtNode(s, m, s.nodes[m].(rpc := rpc));
      EpochOk(s') && forall n :: 0 <= n < |s.nodes| && n != m ==> RpcOk(s', n)
  {
    hide ClientOk, NodeOk, CommitOk, Reached, CountersOk, Settled, Serving, CellOk;
    var s' := AtNode(s, m, s.nodes[m].(rpc := rpc));
    forall n | 0 <= n < |s.nodes| && n != m ensures RpcOk(s', n) { assert RpcOk(s, n); }
    forall n | 0 <= n < |s.nodes| ensures Told(s', n) == Told(s, n) {}
  }

  // ---- steps of clients ----

  /** A step of client c while it is free: it may only extend its log and its ledger. */
  ghost predicate ClientMove(cl: Client, x: Client) {
    && ClientOk(x) && x.home == cl.home && x.counted == cl.counted && x.handled == cl.handled
    && cl.sent <= x.sent && cl.ks <= x.ks && cl.finished <= x.finished
  }

  lemma {:induction false} ClientMoveKeepsInv(s: State, c: nat, x: Client)
    requires Inv(s) && c < |s.clients| && s.clients[c].phase == Free && ClientMove(s.clients[c], x)
    ensures Inv(AtClient(s, c, x))
  {
    hide ClientOk, NodesOk, CommitsOk, RpcOk, EpochOk, CountersOk, Debt, Settled, Unserved;
    LedgerMove(s, c, x);
    forall m | 0 <= m < |s.nodes| ensures Unserved(s.nodes[m].rpc, c) { FreeIsUnserved(s, c, m); }
    QuietKeepsInv(s, c, x);
  }

  lemma {:induction false} LedgerMove(s: State, c: nat, x: Client)
    requires ClientsOk(s) && EpochOk(s) && c < |s.clients| && ClientMove(s.clients[c], x)
    ensures Settled(x, Hits(s))
    ensures forall b :: 0 <= b < BARRIER_ID_MAX ==> Debt(x, b) == Debt(s.clients[c], b)
  {
    hide LogOk, Barriers;
    assert ClientOk(s.clients[c]) && Settled(s.clients[c], Hits(s));
  }

  lemma {:induction false} LogSnoc(sent: seq<Msg>, ks: seq<nat>, x: Msg, h: nat)
    requires LogOk(sent, ks) && h <= |sent|
    ensures (sent + [x])[..h] == sent[..h]
    ensures x.Operation? ==> LogOk(sent + [x], ks)
    ensures x.Barrier? && x.id == |ks| + 1 ==> LogOk(sent + [x], ks + [x.k])
  {
    var sent' := sent + [x];
    assert sent'[..|sent|] == sent;
    forall p | 0 <= p < |sent| ensures sent'[..p] == sent[..p] && sent'[p] == sent[p] {}
    BarriersGrow(sent');
  }

  lemma {:induction false} BarriersGrow(s: seq<Msg>)
    ensures forall p :: 0 <= p <= |s| ==> Barriers(s[..p]) <= Barriers(s)
  {
    if s == [] {
      assert s[..0] == s;
    } else {
      var front := s[..|s| - 1];
      BarriersGrow(front);
      forall p | 0 <= p <= |s| ensures Barriers(s[..p]) <= Barriers(s) {
        if p < |s| { assert s[..p] == front[..p]; } else { assert s[..p] == s; }
      }
    }
  }

  lemma {:induction false} ClientStepKeepsInv(s: State, e: Step)
    requires Inv(s) && Enabled(s, e) && (e.Send? || e.Announce? || e.Ask?)
    ensures Inv(Next(s, e))
  {
    hide Inv, LogOk, Barriers, InBounds;
    var cl := s.clients[e.c];
    assert ClientOk(cl) by { ClientIsOk(s, e.c); }
    match e
    case Send(c, path) =>
      LogSnoc(cl.sent, cl.ks, Operation(path), cl.handled);
      ClientMoveKeepsInv(s, c, Sending(cl, path));
    case Announce(c, k) =>
      LogSnoc(cl.sent, cl.ks, Protocol.Barrier(k, |cl.ks| + 1), cl.handled);
      ClientMoveKeepsInv(s, c, Announcing(cl, k));
    case Ask(c) =>
      ClientMoveKeepsInv(s, c, Asking(cl));
  }

  lemma {:induction false} ClientIsOk(s: State, c: nat)
    requires Inv(s) && c < |s.clients|
    ensures ClientOk(s.clients[c]) && s.clients[c].home < |s.nodes|
  {
    hide ClientOk, NodesOk, CommitsOk, RpcsOk, EpochOk, CountersOk;
  }

  // ---- steps of the commit thread ----

  lemma {:induction false} CommitFetchKeepsInv(s: State, m: nat, c: nat)
    requires Inv(s) && InBounds(s) && CommitEnabled(s, m, c)
    requires s.nodes[m].commit.Ready? || s.nodes[m].commit.Received? || s.nodes[m].commit.Loaded?
    ensures Inv(CommitNext(s, m, c))
  {
    hide ClientOk, Reached, CountersOk, EpochOk, RpcsOk, CountAt, CellOk, InBounds;
    var nd := s.nodes[m];
    assert NodeOk(nd, m, s.clients) && CommitOk(nd, m, s.clients, s.counter);
    NodeKeepsInv(s, m, CommitNext(s, m, c).nodes[m]);
  }

  lemma {:induction false} RaiseKeepsInv(s: State, m: nat, c: nat)
    requires Inv(s) && InBounds(s) && CommitEnabled(s, m, c)
    requires s.nodes[m].commit.Raise? || s.nodes[m].commit.Publish?
    ensures Inv(CommitNext(s, m, c))
  {
    hide ClientOk, Reached, CountersOk, EpochOk, RpcsOk, CountAt, CellOk, InBounds;
    var nd := s.nodes[m];
    assert NodeOk(nd, m, s.clients) && CommitOk(nd, m, s.clients, s.counter);
    NodeKeepsInv(s, m, CommitNext(s, m, c).nodes[m]);
  }

  lemma {:induction false} OperationKeepsInv(s: State, m: nat, c: nat)
    requires Inv(s) && InBounds(s) && m < |s.nodes| && s.nodes[m].commit == Passed(c) && Queued(s, m, c)
    requires Message(s.clients[c]).Operation?
    ensures Inv(PassedNext(s, m, c))
  {
    hide Inv, ClientOk, InBounds, Settled, Debt;
    var s1 := AtNode(s, m, s.nodes[m].(commit := Ready));
    assert Inv(s1) by { ToReadyKeepsInv(s, m); }
    var cl := s.clients[c];
    var x := cl.(handled := cl.handled + 1);
    assert ClientOk(x) && Settled(x, Hits(s)) by { HandledOperation(s, c); }
    forall n | 0 <= n < |s.nodes| ensures HeadKept(s1.nodes[n], s.clients, c, x) { HeadElsewhere(s1, m, c, n, x); }
    forall b | 0 <= b < BARRIER_ID_MAX ensures Debt(x, b) == Debt(cl, b) { SameDebt(cl, x, b); }
    QuietKeepsInv(s1, c, x);
    assert PassedNext(s, m, c) == AtClient(s1, c, x);
  }

  lemma {:induction false} SameDebt(cl: Client, x: Client, b: nat)
    requires x.ks == cl.ks && x.finished == cl.finished && x.counted == cl.counted
    ensures Debt(x, b) == Debt(cl, b)
  {}

  /** A commit thread that holds no message sees no change, nor does that of a node where c does not live. */
  lemma {:induction false} HeadElsewhere(s: State, m: nat, c: nat, n: nat, x: Client)
    requires Inv(s) && c < |s.clients| && s.clients[c].home == m && m < |s.nodes| && n < |s.nodes|
    requires s.nodes[m].commit.Ready?
    ensures HeadKept(s.nodes[n], s.clients, c, x)
  {
    hide ClientsOk, NodesOk, RpcsOk, EpochOk, CountersOk, Reached, CellOk;
    assert CommitOk(s.nodes[n], n, s.clients, s.counter);
  }

  lemma {:induction false} ToReadyKeepsInv(s: State, m: nat)
    requires Inv(s) && m < |s.nodes| && (s.nodes[m].commit.Passed? || s.nodes[m].commit.Got?)
    ensures Inv(AtNode(s, m, s.nodes[m].(commit := Ready)))
    ensures s.nodes[m].commit.Got? ==> Inv(AtNode(s, m, s.nodes[m].(commit := Passed(s.nodes[m].commit.c))))
  {
    hide ClientOk, Reached, CountersOk, EpochOk, RpcsOk, CountAt, CellOk;
    var nd := s.nodes[m];
    assert NodeOk(nd, m, s.clients) && CommitOk(nd, m, s.clients, s.counter);
    NodeKeepsInv(s, m, nd.(commit := Ready));
    if nd.commit.Got? { NodeKeepsInv(s, m, nd.(commit := Passed(nd.commit.c))); }
  }

  lemma {:induction false} HandledOperation(s: State, c: nat)
    requires Inv(s) && c < |s.clients| && s.clients[c].handled < |s.clients[c].sent|
    requires Message(s.clients[c]).Operation?
    ensures var x := s.clients[c].(handled := s.clients[c].handled + 1); ClientOk(x) && Settled(x, Hits(s))
  {
    hide NodesOk, RpcsOk, CommitsOk, CountersOk, LogOk;
    var cl := s.clients[c];
    assert ClientOk(cl) && Settled(cl, Hits(s));
    assert cl.sent[..cl.handled + 1][..cl.handled] == cl.sent[..cl.handled];
  }

  lemma {:induction false} ReadCounterKeepsInv(s: State, m: nat, c: nat)
    requires Inv(s) && InBounds(s) && m < |s.nodes| && s.nodes[m].commit == Passed(c) && Queued(s, m, c)
    requires Message(s.clients[c]).Barrier? && Message(s.clients[c]).k != 0
    ensures Inv(PassedNext(s, m, c))
  {
    hide ClientOk, Reached, EpochOk, RpcsOk, CountAt, InBounds, Owed;
    var nd := s.nodes[m];
    assert NodeOk(nd, m, s.clients) && CommitOk(nd, m, s.clients, s.counter);
    MessageIsOk(s, m, c);
    NodeKeepsInv(s, m, PassedNext(s, m, c).nodes[m]);
  }

  // ---- counting a barrier message ----

  /** The commit thread of m is about to count the next barrier message of client c. */
  ghost predicate AboutToCount(s: State, m: nat, c: nat) {
    && m < |s.nodes| && HasMessage(s.clients, m, c) && Message(s.clients[c]).Barrier?
    && (s.nodes[m].commit == Passed(c) || (s.nodes[m].commit.Got? && s.nodes[m].commit.c == c))
  }

  function Counted(cl: Client): Client {
    cl.(handled := cl.handled + 1, counted := cl.counted + 1)
  }

  lemma {:induction false} CountedIsOk(s: State, m: nat, c: nat)
    requires Inv(s) && AboutToCount(s, m, c)
    ensures Queued(s, m, c) && ClientOk(Counted(s.clients[c])) && Settled(Counted(s.clients[c]), Hits(s))
    ensures var cl := s.clients[c];
      && Message(cl).id == cl.counted + 1 && cl.counted < |cl.ks| && |cl.ks| == |cl.finished|
      && Message(cl).k == cl.ks[cl.counted] && cl.finished[cl.counted] == 0
  {
    hide NodesOk, RpcsOk, CommitsOk, CountersOk, LogOk;
    var cl := s.clients[c];
    MessageIsOk(s, m, c);
    assert ClientOk(cl) && Settled(cl, Hits(s));
    assert cl.sent[..cl.handled + 1][..cl.handled] == cl.sent[..cl.handled];
  }

  /** While a node takes down its own barrier, one of its clients is blocked and has not sent the next one. */
  lemma {:induction false} BlockedClient(s: State, m: nat) returns (x: nat)
    requires Inv(s) && m < |s.nodes| && Releasing(s.nodes[m].rpc)
    ensures s.nodes[m].waiting == s.epoch && s.releaser == Some(m)
    ensures Here(s.clients, m, x) && |s.clients[x].ks| == s.epoch + 1
    ensures ClientOk(s.clients[x])
  {
    hide NodesOk, CommitsOk, CountersOk, Settled, ClientOk;
    assert RpcOk(s, m);
    x := s.nodes[m].rpc.c;
  }

  /** A waiting barrier is never ahead of the barriers already finished. */
  lemma {:induction false} WaitingIsNext(s: State, m: nat)
    requires EpochOk(s) && m < |s.nodes|
    ensures s.nodes[m].waiting <= Hits(s)
    ensures forall c :: 0 <= c < |s.clients| ==> s.clients[c].counted >= Hits(s)
  {}

  /** Before the barrier of `waiting` is up, counting one more message cannot complete the one after it. */
  lemma {:induction false} CannotOvertake(s: State, m: nat, c: nat, clients': seq<Client>)
    requires Inv(s) && AboutToCount(s, m, c) && clients' == s.clients[c := Counted(s.clients[c])]
    ensures forall j: nat :: Reached(clients', m, j) ==> j <= s.nodes[m].waiting
    ensures Reached(s.clients, m, s.nodes[m].waiting) ==> Lowered(s.nodes[m].rpc)
  {
    hide ClientsOk, CountersOk, EpochOk, RpcsOk, CountAt, CellOk;
    var w := s.nodes[m].waiting;
    assert NodeOk(s.nodes[m], m, s.clients) && CommitOk(s.nodes[m], m, s.clients, s.counter);
    assert Here(s.clients, m, c);
    ghost var d: int;
    if Reached(s.clients, m, w) {
      var x := BlockedClient(s, m);
      assert ClientOk(Counted(s.clients[c])) by { CountedIsOk(s, m, c); }
      d := x;
    } else {
      d :| Here(s.clients, m, d) && s.clients[d].counted <= w;
    }
    assert Here(clients', m, d) && clients'[d].counted <= w + 1;
  }

  lemma {:induction false} CountNode(s: State, m: nat, c: nat, nd: Node, clients: seq<Client>)
    requires Inv(s) && AboutToCount(s, m, c) && Queued(s, m, c) && Sized(s)
    requires nd == Counting(s, m, c).nodes[m] && clients == s.clients[c := Counted(s.clients[c])]
    ensures NodeOk(nd, m, clients)
    ensures forall counter :: CommitOk(nd, m, clients, counter)
  {
    hide Inv, ClientOk, CountAt, NumAt, Settled, InBounds;
    var was, cl := s.nodes[m], s.clients[c];
    var b := cl.counted;
    CannotOvertake(s, m, c, clients);
    CountedIsOk(s, m, c);
    CountReach(s, m, c, clients);
    assert NodeOk(was, m, s.clients) && !was.barrier[was.waiting] && b >= was.waiting &&
      (Lowered(was.rpc) ==> b > was.waiting) by { CountContext(s, m, c); }
    assert Here(s.clients, m, c) && !Reached(s.clients, m, b);
    forall j: nat | Reached(s.clients, m, j) ensures Reached(clients, m, j) {
      assert forall d :: Here(clients, m, d) <==> Here(s.clients, m, d);
    }
  }

  lemma {:induction false} CountContext(s: State, m: nat, c: nat)
    requires Inv(s) && AboutToCount(s, m, c)
    ensures NodeOk(s.nodes[m], m, s.clients) && !s.nodes[m].barrier[s.nodes[m].waiting]
    ensures s.clients[c].counted >= s.nodes[m].waiting
    ensures Lowered(s.nodes[m].rpc) ==> s.clients[c].counted > s.nodes[m].waiting
  {
    hide ClientsOk, CountersOk, RpcsOk, CountAt, CellOk, Settled, Reached;
    assert NodeOk(s.nodes[m], m, s.clients) && CommitOk(s.nodes[m], m, s.clients, s.counter);
    WaitingIsNext(s, m);
  }

  /** The reach counts after client c's message is counted, and what a full count means. */
  lemma {:induction false} CountReach(s: State, m: nat, c: nat, clients: seq<Client>)
    requires c < |s.clients| && s.clients[c].home == m && clients == s.clients[c := Counted(s.clients[c])]
    ensures forall j: nat ::
      CountAt(clients, m, j) == CountAt(s.clients, m, j) + if j == s.clients[c].counted then 1 else 0
    ensures forall j: nat :: CountAt(clients, m, j) == NumAt(s.clients, m) <==> Reached(clients, m, j)
    ensures forall j: nat :: CountAt(s.clients, m, j) == NumAt(s.clients, m) <==> Reached(s.clients, m, j)
  {
    hide CountAt, NumAt;
    assert Here(clients, m, c) && Here(s.clients, m, c);
    forall j: nat
      ensures CountAt(clients, m, j) == CountAt(s.clients, m, j) + if j == s.clients[c].counted then 1 else 0
    {
      CountUpdate(s.clients, c, Counted(s.clients[c]), m, j);
    }
    forall j: nat ensures CountAt(clients, m, j) == NumAt(s.clients, m) <==> Reached(clients, m, j) {
      CountUpdate(s.clients, c, Counted(s.clients[c]), m, j);
      CountFull(clients, m, j);
    }
    forall j: nat ensures CountAt(s.clients, m, j) == NumAt(s.clients, m) <==> Reached(s.clients, m, j) {
      CountFull(s.clients, m, j);
    }
  }

  /** Every cell is left alone or gets a newer version. */
  predicate Newer(counter: seq<Cell>, counter': seq<Cell>) {
    && |counter'| == |counter|
    && (forall i :: 0 <= i < |counter| ==> counter'[i] == counter[i] || counter'[i].version > counter[i].version)
  }

  /** Client c changes unseen by node n, where it does not live; counters may get newer versions. */
  lemma {:induction false} FrameElsewhere(nd: Node, n: nat, clients: seq<Client>, c: nat, x: Client,
                                          counter: seq<Cell>, counter': seq<Cell>)
    requires NodeOk(nd, n, clients) && CommitOk(nd, n, clients, counter)
    requires c < |clients| && x.home == clients[c].home != n && Newer(counter, counter')
    ensures NodeOk(nd, n, clients[c := x]) && CommitOk(nd, n, clients[c := x], counter')
  {
    hide Reached, CountAt;
    var clients' := clients[c := x];
    forall j: nat ensures Reached(clients', n, j) == Reached(clients, n, j) {
      ReachedElsewhere(clients, c, x, n, j);
    }
    forall j: nat ensures CountAt(clients', n, j) == CountAt(clients, n, j) {
      CountUpdate(clients, c, x, n, j);
    }
  }

  lemma {:induction false} ReachedElsewhere(clients: seq<Client>, c: nat, x: Client, n: nat, j: nat)
    requires c < |clients| && x.home == clients[c].home != n
    ensures Reached(clients[c := x], n, j) == Reached(clients, n, j)
  {
    var clients' := clients[c := x];
    assert forall d :: Here(clients', n, d) <==> Here(clients, n, d);
    assert AllCounted(clients', n, j) <==> AllCounted(clients, n, j);
  }

  /** The RPC threads see neither a counted message nor a newer counter. */
  lemma {:induction false} RpcFrameCounter(s: State, s': State, n: nat)
    requires n < |s.nodes| == |s'.nodes| && RpcOk(s, n) && |s'.clients| == |s.clients| && s'.epoch == s.epoch
    requires forall c :: 0 <= c < |s.clients| ==>
      var x, y := s.clients[c], s'.clients[c]; x.home == y.home && x.phase == y.phase && x.ks == y.ks
    requires forall m :: 0 <= m < |s.nodes| ==>
      var x, y := s.nodes[m], s'.nodes[m]; x.rpc == y.rpc && x.barrier == y.barrier && x.flag == y.flag
    requires Newer(s.counter, s'.counter)
    ensures RpcOk(s', n)
  {}

  lemma {:induction false} CountCounters(s: State, m: nat, c: nat, counter: seq<Cell>)
    requires Inv(s) && AboutToCount(s, m, c) && CountsInto(s, c, counter)
    ensures CountersOk(s.clients[c := Counted(s.clients[c])], counter) && Newer(s.counter, counter)
  {
    hide ClientOk, NodesOk, CommitsOk, RpcsOk, EpochOk, Owed, Settled;
    CountedIsOk(s, m, c);
    var cl := s.clients[c];
    forall b | 0 <= b < BARRIER_ID_MAX
      ensures Owed(s.clients[c := Counted(cl)], b) == Owed(s.clients, b) + if b == cl.counted then Message(cl).k else 0
    {
      OwedUpdate(s.clients, c, Counted(cl), b);
    }
  }

  /** The counter of client c's next barrier grows by what its message announces. */
  predicate CountsInto(s: State, c: nat, counter: seq<Cell>) {
    && c < |s.clients| && s.clients[c].handled < |s.clients[c].sent| && Message(s.clients[c]).Barrier?
    && var x := Message(s.clients[c]);
       var b := s.clients[c].counted;
       || (x.k == 0 && counter == s.counter)
       || (b < |s.counter| && counter == s.counter[b := Cell(s.counter[b].value + x.k, s.counter[b].version + 1)])
  }

  lemma {:induction false} CountKeepsInv(s: State, m: nat, c: nat, counter: seq<Cell>)
    requires Inv(s) && InBounds(s) && AboutToCount(s, m, c) && CountsInto(s, c, counter)
    ensures Queued(s, m, c) && |counter| == BARRIER_ID_MAX
    ensures Inv(Counting(s.(counter := counter), m, c))
  {
    hide ClientOk, NodeOk, CommitOk, RpcOk, EpochOk, CountersOk, CountsInto, CountAt, NumAt, CommitInRange, RpcInRange;
    CountedIsOk(s, m, c);
    CountCounters(s, m, c, counter);
    assert |counter| == BARRIER_ID_MAX;
    var x := Counted(s.clients[c]);
    var s' := Counting(s.(counter := counter), m, c);
    assert s'.clients == s.clients[c := x] && s'.nodes[m] == Counting(s, m, c).nodes[m] && s'.counter == counter;
    CountNode(s, m, c, s'.nodes[m], s'.clients);
    forall n | 0 <= n < |s.nodes| && n != m
      ensures NodeOk(s'.nodes[n], n, s'.clients) && CommitOk(s'.nodes[n], n, s'.clients, s'.counter)
    {
      FrameElsewhere(s.nodes[n], n, s.clients, c, x, s.counter, counter);
    }
    forall n | 0 <= n < |s.nodes| ensures RpcOk(s', n) { RpcFrameCounter(s, s', n); }
    QuietEpoch(s, c, x);
    EpochSame(AtClient(s, c, x), s');
  }

  lemma {:induction false} CommitStepKeepsInv(s: State, m: nat, c: nat)
    requires Inv(s) && InBounds(s) && CommitEnabled(s, m, c)
    ensures Inv(CommitNext(s, m, c))
  {
    hide Inv, RpcInRange, Reached;
    var nd := s.nodes[m];
    assert CommitInRange(s, m);
    match nd.commit
    case Ready => CommitFetchKeepsInv(s, m, c);
    case Received(_) => CommitFetchKeepsInv(s, m, c);
    case Loaded(_, _) => CommitFetchKeepsInv(s, m, c);
    case Raise(_) => RaiseKeepsInv(s, m, c);
    case Publish(_) => RaiseKeepsInv(s, m, c);
    case Passed(x) =>
      if Message(s.clients[x]).Operation? {
        OperationKeepsInv(s, m, x);
      } else if Message(s.clients[x]).k == 0 {
        CountKeepsInv(s, m, x, s.counter);
        assert s.(counter := s.counter) == s;
      } else {
        ReadCounterKeepsInv(s, m, x);
      }
    case Got(x, value, version) => SwapKeepsInv(s, m, x);
  }

  lemma {:induction false} SwapKeepsInv(s: State, m: nat, c: nat)
    requires Inv(s) && InBounds(s) && m < |s.nodes| && s.nodes[m].commit.Got? && s.nodes[m].commit.c == c
    ensures Inv(CommitNext(s, m, c))
  {
    hide Inv, InBounds;
    var got := s.nodes[m].commit;
    assert CommitOk(s.nodes[m], m, s.clients, s.counter) by { CommitIsOk(s, m); }
    assert AboutToCount(s, m, c);
    CountedIsOk(s, m, c);
    var b := s.clients[c].counted;
    if s.counter[b].version == got.version {
      CountKeepsInv(s, m, c, s.counter[b := Cell(got.value + Message(s.clients[c]).k, got.version + 1)]);
    } else {
      ToReadyKeepsInv(s, m);
    }
  }

  lemma {:induction false} CommitIsOk(s: State, m: nat)
    requires Inv(s) && m < |s.nodes|
    ensures CommitOk(s.nodes[m], m, s.clients, s.counter)
  {
    hide CommitOk, ClientsOk, NodesOk, RpcsOk, CountersOk, EpochOk;
  }

  // ---- steps of the RPC thread outside a release ----

  lemma {:induction false} RpcIsOk(s: State, m: nat)
    requires Inv(s) && m < |s.nodes|
    ensures RpcOk(s, m)
  {
    hide RpcOk, ClientsOk, NodesOk, CommitsOk, CountersOk, EpochOk;
  }

  lemma {:induction false} RpcWalkKeepsInv(s: State, m: nat, c: nat)
    requires Inv(s) && InBounds(s) && RpcEnabled(s, m, c)
    requires var rpc := s.nodes[m].rpc;
      || rpc.Begin? || rpc.Scan? || rpc.Body? || rpc.Decrement?
      || (rpc.DecrementGot? && (rpc.b < |s.counter| ==> s.counter[rpc.b].version != rpc.version))
    ensures Inv(RpcNext(s, m, c))
  {
    hide Inv, CommitInRange, Serving;
    RpcIsOk(s, m);
    assert RpcInRange(s, m);
    RpcKeepsInv(s, m, RpcNext(s, m, c).nodes[m].rpc);
  }

  /** A change of a client's phase that neither issues nor completes an operation. */
  lemma {:induction false} PhaseKeepsInv(s: State, c: nat, phase: Phase)
    requires Inv(s) && c < |s.clients|
    requires s.clients[c].phase != Free && Pending(s.clients[c]) == Pending(s.clients[c].(phase := phase))
    requires forall m :: 0 <= m < |s.nodes| ==> Unserved(s.nodes[m].rpc, c)
    ensures Inv(AtClient(s, c, s.clients[c].(phase := phase)))
  {
    hide NodesOk, CommitsOk, RpcsOk, CountersOk, LogOk, Barriers, Unserved, Debt;
    var x := s.clients[c].(phase := phase);
    assert ClientOk(s.clients[c]) && Settled(s.clients[c], Hits(s));
    forall b | 0 <= b < BARRIER_ID_MAX ensures Debt(x, b) == Debt(s.clients[c], b) { SameDebt(s.clients[c], x, b); }
    QuietKeepsInv(s, c, x);
  }

  lemma {:induction false} TakeKeepsInv(s: State, m: nat, c: nat)
    requires Inv(s) && InBounds(s) && RpcEnabled(s, m, c) && s.nodes[m].rpc.Idle?
    ensures Inv(RpcNext(s, m, c))
  {
    hide ClientsOk, NodesOk, CommitsOk, RpcsOk, CountersOk, EpochOk, InBounds, Unserved;
    forall n | 0 <= n < |s.nodes| ensures Unserved(s.nodes[n].rpc, c) { FreeIsUnserved(s, c, n); }
    PhaseKeepsInv(s, c, Served);
    var s1 := AtClient(s, c, s.clients[c].(phase := Served));
    RpcKeepsInv(s1, m, Begin(c, |s.clients[c].ks| - 1));
  }

  lemma {:induction false} ReplyKeepsInv(s: State, m: nat, c: nat)
    requires Inv(s) && InBounds(s) && RpcEnabled(s, m, c) && s.nodes[m].rpc.Reply?
    ensures Inv(RpcNext(s, m, c))
  {
    hide Inv, InBounds, Unserved;
    RpcIsOk(s, m);
    var x := s.nodes[m].rpc.c;
    var s1 := AtNode(s, m, s.nodes[m].(rpc := Idle));
    RpcKeepsInv(s, m, Idle);
    forall n | 0 <= n < |s.nodes| ensures Unserved(s1.nodes[n].rpc, x) { UnservedWhenIdle(s1, x, m, n); }
    PhaseKeepsInv(s1, x, Free);
  }

  lemma {:induction false} UnservedWhenIdle(s: State, c: nat, m: nat, n: nat)
    requires Inv(s) && m < |s.nodes| && n < |s.nodes| && Here(s.clients, m, c) && s.nodes[m].rpc.Idle?
    ensures Unserved(s.nodes[n].rpc, c)
  {
    hide ClientsOk, NodesOk, CommitsOk, CountersOk, EpochOk, RpcOk;
    if n != m { UnservedElsewhere(s, c, n); }
  }

  // ---- counting an operation off ----

  function CountedOff(cl: Client, b: nat): Client
    requires b < |cl.finished|
  {
    cl.(finished := cl.finished[b := cl.finished[b] + 1], phase := Answered)
  }

  /** The compare-and-swap that counts an operation off is about to succeed. */
  ghost predicate AboutToCountOff(s: State, m: nat) {
    && m < |s.nodes| && s.nodes[m].rpc.DecrementGot?
    && s.nodes[m].rpc.b < |s.counter| && s.counter[s.nodes[m].rpc.b].version == s.nodes[m].rpc.version
  }

  /** When an operation is counted off, every announcement for its barrier has been counted. */
  lemma {:induction false} CountOffContext(s: State, m: nat)
    requires Inv(s) && AboutToCountOff(s, m)
    ensures var rpc := s.nodes[m].rpc;
      && rpc.b == s.epoch && s.releaser == None && Serving(s.clients, m, rpc.c, rpc.b, Served)
      && s.counter[rpc.b].value == rpc.value && rpc.b + 1 < BARRIER_ID_MAX && Published(s.nodes, m, rpc.b)
      && rpc.b < |s.nodes[m].barrier| && s.nodes[m].barrier[rpc.b]
      && (forall n :: 0 <= n < |s.nodes| ==> s.nodes[n].waiting == rpc.b)
      && (forall d :: 0 <= d < |s.clients| ==> s.clients[d].counted > rpc.b)
      && ClientOk(s.clients[rpc.c]) && s.clients[rpc.c].ks[rpc.b] > s.clients[rpc.c].finished[rpc.b]
  {
    hide ClientsOk, NodesOk, CommitsOk, CountersOk, EpochOk, RpcsOk, Reached, LogOk, Barriers;
    RpcIsOk(s, m);
    var rpc := s.nodes[m].rpc;
    AllStalled(s, m, rpc.c, rpc.b);
    AllCountedEverywhere(s, rpc.b);
    ClientIsOk(s, rpc.c);
    PendingIsLate(s, m, rpc.c, rpc.b);
  }

  lemma {:induction false} CountOffLedger(cl: Client, b: nat)
    requires ClientOk(cl) && |cl.ks| == b + 1 && cl.phase == Served && cl.counted > b
    ensures ClientOk(CountedOff(cl, b))
    ensures forall j: nat :: Debt(CountedOff(cl, b), j) == Debt(cl, j) - if j == b then 1 else 0
    ensures forall h: nat :: Settled(cl, h) && h <= b ==> Settled(CountedOff(cl, b), h)
  {
    hide LogOk, Barriers;
  }

  lemma {:induction false} CountOffCounters(s: State, m: nat, clients: seq<Client>, counter: seq<Cell>)
    requires Inv(s) && AboutToCountOff(s, m)
    requires var rpc := s.nodes[m].rpc;
      && rpc.c < |s.clients| && rpc.b < |s.clients[rpc.c].finished|
      && clients == s.clients[rpc.c := CountedOff(s.clients[rpc.c], rpc.b)]
      && counter == s.counter[rpc.b := Cell(rpc.value - 1, rpc.version + 1)]
    ensures CountersOk(clients, counter) && Newer(s.counter, counter)
  {
    hide ClientOk, NodesOk, CommitsOk, RpcsOk, EpochOk, ClientsOk, Owed, Debt, CountedOff;
    CountOffContext(s, m);
    var rpc := s.nodes[m].rpc;
    CountOffLedger(s.clients[rpc.c], rpc.b);
    forall b | 0 <= b < BARRIER_ID_MAX ensures Owed(clients, b) == Owed(s.clients, b) - if b == rpc.b then 1 else 0 {
      OwedUpdate(s.clients, rpc.c, CountedOff(s.clients[rpc.c], rpc.b), b);
    }
  }

  /** A counter brought to 0 means that nobody owes anything for its barrier. */
  lemma {:induction false} ZeroSettles(clients: seq<Client>, b: nat)
    requires forall d :: 0 <= d < |clients| ==> ClientOk(clients[d]) && clients[d].counted > b && Settled(clients[d], b)
    requires Owed(clients, b) == 0
    ensures forall d :: 0 <= d < |clients| ==> Settled(clients[d], b + 1)
  {
    hide Owed, LogOk, Barriers;
    forall d | 0 <= d < |clients| ensures Debt(clients[d], b) >= 0 { assert ClientOk(clients[d]); }
    OwedZero(clients, b);
    forall d | 0 <= d < |clients| ensures Settled(clients[d], b + 1) {
      assert ClientOk(clients[d]) && Settled(clients[d], b) && Debt(clients[d], b) == 0;
    }
  }

  lemma {:induction false} CountOffEpoch(s: State, m: nat)
    requires Inv(s) && InBounds(s) && AboutToCountOff(s, m)
    ensures EpochOk(CountingOff(s, m)) && ClientsOk(CountingOff(s, m))
  {
    hide NodesOk, CommitsOk, RpcsOk, Owed, ClientOk, Settled, CommitInRange;
    CountOffContext(s, m);
    assert RpcInRange(s, m);
    var rpc := s.nodes[m].rpc;
    var s' := CountingOff(s, m);
    CountOffLedger(s.clients[rpc.c], rpc.b);
    CountOffCounters(s, m, s'.clients, s'.counter);
    assert ClientsOk(s');
    forall d | 0 <= d < |s'.clients| ensures s'.clients[d].counted > rpc.b && Settled(s'.clients[d], rpc.b) {
      assert Settled(s.clients[d], rpc.b);
    }
    if rpc.value - 1 == 0 { ZeroSettles(s'.clients, rpc.b); }
  }

  lemma {:induction false} CountOffNode(s: State, m: nat, n: nat)
    requires Inv(s) && InBounds(s) && AboutToCountOff(s, m) && n < |s.nodes|
    ensures var s' := CountingOff(s, m);
      NodeOk(s'.nodes[n], n, s'.clients) && CommitOk(s'.nodes[n], n, s'.clients, s'.counter)
  {
    hide ClientsOk, CountersOk, EpochOk, RpcsOk, Reached, CountAt, CommitInRange, Debt;
    CountOffContext(s, m);
    assert RpcInRange(s, m);
    var rpc := s.nodes[m].rpc;
    var s' := CountingOff(s, m);
    var x := CountedOff(s.clients[rpc.c], rpc.b);
    CountOffCounters(s, m, s'.clients, s'.counter);
    NodeFrame(s.nodes[n], n, s.clients, rpc.c, x);
    CommitFrame(s.nodes[n], n, s.clients, s.counter, rpc.c, x);
  }

  lemma {:induction false} CountOffRpc(s: State, m: nat, n: nat)
    requires Inv(s) && InBounds(s) && AboutToCountOff(s, m) && n < |s.nodes|
    ensures RpcOk(CountingOff(s, m), n)
  {
    hide ClientsOk, CountersOk, EpochOk, CommitsOk, NodesOk, Reached, CommitInRange, Debt, ClientOk;
    CountOffContext(s, m);
    assert RpcInRange(s, m);
    var rpc := s.nodes[m].rpc;
    var s' := CountingOff(s, m);
    CountOffCounters(s, m, s'.clients, s'.counter);
    if n != m {
      assert RpcOk(s, n);
      UnservedElsewhere(s, rpc.c, n);
    }
  }

  lemma {:induction false} CountOffKeepsInv(s: State, m: nat)
    requires Inv(s) && InBounds(s) && AboutToCountOff(s, m)
    ensures Inv(CountingOff(s, m))
  {
    hide ClientsOk, CountersOk, EpochOk, NodeOk, CommitOk, RpcOk, ClientOk, CommitInRange;
    assert RpcInRange(s, m);
    CountOffContext(s, m);
    var s' := CountingOff(s, m);
    CountOffEpoch(s, m);
    CountOffCounters(s, m, s'.clients, s'.counter);
    forall n | 0 <= n < |s'.nodes|
      ensures NodeOk(s'.nodes[n], n, s'.clients) && CommitOk(s'.nodes[n], n, s'.clients, s'.counter)
    {
      CountOffNode(s, m, n);
    }
    forall n | 0 <= n < |s'.nodes| ensures RpcOk(s', n) { CountOffRpc(s, m, n); }
  }

  // ---- releasing a barrier ----

  /** A node that has not been told yet still waits at the barrier being released. */
  lemma {:induction false} ReleaseContext(s: State, m: nat)
    requires Inv(s) && m < |s.nodes| && Releasing(s.nodes[m].rpc)
    ensures RpcOk(s, m) && s.releaser == Some(m) && s.nodes[m].rpc.b == s.epoch && Hits(s) == s.epoch + 1
    ensures s.nodes[m].waiting == s.epoch && s.epoch + 1 < BARRIER_ID_MAX
    ensures forall n :: 0 <= n < |s.nodes| && n != m ==>
      && !Releasing(s.nodes[n].rpc) && Reached(s.clients, n, s.epoch) && s.nodes[n].commit != Raise(s.epoch)
      && (!Told(s, n) ==>
            s.nodes[n].waiting == s.epoch < |s.nodes[n].barrier| && s.nodes[n].barrier[s.epoch])
  {
    hide ClientsOk, CommitsOk, CountersOk, Settled, Reached, CountAt;
    RpcIsOk(s, m);
    forall n | 0 <= n < |s.nodes| && n != m
      ensures && !Releasing(s.nodes[n].rpc) && Reached(s.clients, n, s.epoch) && s.nodes[n].commit != Raise(s.epoch)
              && (!Told(s, n) ==>
            s.nodes[n].waiting == s.epoch < |s.nodes[n].barrier| && s.nodes[n].barrier[s.epoch])
    {
      assert NodeOk(s.nodes[n], n, s.clients) && s.nodes[n].flag[s.epoch];
    }
  }

  /** Nothing is taken back in the rows of barriers other than e. */
  predicate RowsKept(nodes: seq<Node>, nodes': seq<Node>, e: nat) {
    && |nodes'| == |nodes|
    && (forall i, j :: 0 <= i < |nodes| && 0 <= j < |nodes[i].barrier| && j != e && nodes[i].barrier[j] ==>
          j < |nodes'[i].barrier| && nodes'[i].barrier[j])
    && (forall i, j :: 0 <= i < |nodes| && 0 <= j < |nodes[i].flag| && j != e && nodes[i].flag[j] ==>
          j < |nodes'[i].flag| && nodes'[i].flag[j])
  }

  lemma {:induction false} ScannedFrame(nodes: seq<Node>, nodes': seq<Node>, e: nat, n: nat, b: nat, i: nat)
    requires RowsKept(nodes, nodes', e) && n < |nodes| && Scanned(nodes, n, b, i) && b != e
    ensures Scanned(nodes', n, b, i)
  {
    forall x | 0 <= x < i && x != n ensures b < |nodes'[x].flag| && nodes'[x].flag[b] {
      assert nodes[x].flag[b];
    }
  }

  /** While barrier e is released, operations of later barriers lose nothing they have seen. */
  lemma {:induction false} RpcFrameRelease(s: State, s': State, m: nat, n: nat)
    requires Inv(s) && m < |s.nodes| && Releasing(s.nodes[m].rpc) && n < |s.nodes| && n != m
    requires s'.clients == s.clients && s'.counter == s.counter && RowsKept(s.nodes, s'.nodes, s.epoch)
    requires s'.nodes[n].rpc == s.nodes[n].rpc
    ensures RpcOk(s', n)
  {
    hide ClientsOk, NodesOk, CommitsOk, CountersOk, EpochOk, CellOk, Reached, Serving, Scanned, RowsKept, Releases;
    ReleaseContext(s, m);
    RpcIsOk(s, n);
    var rpc := s.nodes[n].rpc;
    assert |s'.nodes| == |s.nodes| by { RowsSize(s.nodes, s'.nodes, s.epoch); }
    if rpc.Scan? || rpc.Body? || rpc.Decrement? || rpc.DecrementGot? {
      PendingIsLate(s, n, rpc.c, rpc.b);
      ScannedFrame(s.nodes, s'.nodes, s.epoch, n, rpc.b, if rpc.Scan? then rpc.i else |s.nodes|);
    }
  }

  lemma {:induction false} RowsSize(nodes: seq<Node>, nodes': seq<Node>, e: nat)
    requires RowsKept(nodes, nodes', e)
    ensures |nodes'| == |nodes|
  {}

  lemma {:induction false} LowerKeepsInv(s: State, m: nat, c: nat)
    requires Inv(s) && InBounds(s) && RpcEnabled(s, m, c) && (s.nodes[m].rpc.Lower? || s.nodes[m].rpc.Unflag?)
    ensures Inv(RpcNext(s, m, c))
  {
    hide ClientOk, CountersOk, EpochOk, RpcOk, Reached, CommitInRange, CountAt, CellOk, HasMessage, RowsKept;
    var s' := RpcNext(s, m, c);
    ReleaseContext(s, m);
    assert RpcInRange(s, m);
    assert NodeOk(s.nodes[m], m, s.clients) && CommitOk(s.nodes[m], m, s.clients, s.counter);
    LowerFacts(s, m);
    LowerRows(s, m, s');
    assert NodeOk(s'.nodes[m], m, s.clients) && CommitOk(s'.nodes[m], m, s.clients, s.counter);
    forall n | 0 <= n < |s.nodes| && n != m ensures RpcOk(s', n) { RpcFrameRelease(s, s', m, n); }
    LowerEpoch(s, m, s');
  }

  lemma {:induction false} LowerFacts(s: State, m: nat)
    requires m < |s.nodes| && RpcOk(s, m)
    ensures s.nodes[m].rpc.Lower? ==> s.nodes[m].rpc.b < |s.nodes[m].barrier| && s.nodes[m].barrier[s.nodes[m].rpc.b]
  {}

  lemma {:induction false} LowerRows(s: State, m: nat, s': State)
    requires m < |s.nodes| && RpcOk(s, m) && (s.nodes[m].rpc.Lower? || s.nodes[m].rpc.Unflag?)
    requires |s.nodes[m].barrier| == |s.nodes[m].flag| == BARRIER_ID_MAX && s.nodes[m].rpc.b < BARRIER_ID_MAX
    requires |s'.nodes| == |s.nodes|
    requires var nd, rpc, b := s.nodes[m], s'.nodes[m].rpc, s.nodes[m].rpc.b;
      || s'.nodes == s.nodes[m := nd.(barrier := nd.barrier[b := false], rpc := rpc)]
      || s'.nodes == s.nodes[m := nd.(flag := nd.flag[b := false], rpc := rpc)]
    ensures RowsKept(s.nodes, s'.nodes, s.epoch)
  {}

  lemma {:induction false} LowerEpoch(s: State, m: nat, s': State)
    requires Inv(s) && m < |s.nodes| && (s.nodes[m].rpc.Lower? || s.nodes[m].rpc.Unflag?)
    requires |s'.nodes| == |s.nodes| && s' == AtNode(s, m, s'.nodes[m]) && s'.nodes[m].waiting == s.nodes[m].waiting
    requires s'.nodes[m].rpc == Unflag(s.nodes[m].rpc.c, s.nodes[m].rpc.b) ||
      s'.nodes[m].rpc == Cast(s.nodes[m].rpc.c, s.nodes[m].rpc.b, 0)
    ensures EpochOk(s') && RpcOk(s', m)
  {
    hide ClientsOk, NodesOk, CommitsOk, CountersOk, Settled;
    RpcIsOk(s, m);
    assert s.releaser == Some(m);
    forall n | 0 <= n < |s.nodes| ensures !Told(s, n) && !Told(s', n) {}
  }

  /** One release message: the receiver takes down the barrier being released, whatever the message does not say. */
  lemma {:induction false} TellKeepsInv(s: State, m: nat)
    requires Inv(s) && InBounds(s) && m < |s.nodes| && s.nodes[m].rpc.Cast? && s.nodes[m].rpc.i < |s.nodes|
    ensures Inv(Casting(s, m))
  {
    hide ClientOk, CountersOk, EpochOk, RpcOk, NodeOk, CommitOk, Reached, CommitInRange, RowsKept;
    var s' := Casting(s, m);
    var i := s.nodes[m].rpc.i;
    ReleaseContext(s, m);
    if i != m { ToldNode(s, m, i); }
    TellerNode(s, m);
    assert forall n :: 0 <= n < |s.nodes| && n != m && n != i ==> s'.nodes[n] == s.nodes[n];
    forall n | 0 <= n < |s.nodes| && n != m ensures RpcOk(s', n) {
      TellRows(s, m);
      RpcFrameRelease(s, s', m, n);
    }
    TellEpoch(s, m);
  }

  lemma {:induction false} TellerNode(s: State, m: nat)
    requires Inv(s) && InBounds(s) && m < |s.nodes| && s.nodes[m].rpc.Cast? && s.nodes[m].rpc.i < |s.nodes|
    ensures NodeOk(Casting(s, m).nodes[m], m, s.clients)
    ensures CommitOk(Casting(s, m).nodes[m], m, s.clients, s.counter)
  {
    hide ClientsOk, CountersOk, EpochOk, RpcsOk, Reached, CommitInRange, CountAt, HasMessage, CellOk;
    assert NodeOk(s.nodes[m], m, s.clients) && CommitOk(s.nodes[m], m, s.clients, s.counter);
  }

  lemma {:induction false} TellRows(s: State, m: nat)
    requires Inv(s) && InBounds(s) && m < |s.nodes| && s.nodes[m].rpc.Cast? && s.nodes[m].rpc.i < |s.nodes|
    ensures RowsKept(s.nodes, Casting(s, m).nodes, s.epoch)
  {
    hide ClientsOk, CountersOk, EpochOk, RpcsOk, NodesOk, CommitsOk, Reached, CommitInRange;
    ReleaseContext(s, m);
  }

  lemma {:induction false} ToldNode(s: State, m: nat, i: nat)
    requires Inv(s) && m < |s.nodes| && s.nodes[m].rpc.Cast? && i == s.nodes[m].rpc.i < |s.nodes| && i != m
    ensures s.nodes[i].waiting < |s.nodes[i].barrier|
    ensures NodeOk(Released(s.nodes[i]), i, s.clients)
    ensures CommitOk(Released(s.nodes[i]), i, s.clients, s.counter)
  {
    hide ClientsOk, CountersOk, EpochOk, RpcsOk, Reached, CountAt, HasMessage, CellOk;
    ReleaseContext(s, m);
    assert NodeOk(s.nodes[i], i, s.clients) && CommitOk(s.nodes[i], i, s.clients, s.counter);
  }

  lemma {:induction false} TellEpoch(s: State, m: nat)
    requires Inv(s) && InBounds(s) && m < |s.nodes| && s.nodes[m].rpc.Cast? && s.nodes[m].rpc.i < |s.nodes|
    ensures EpochOk(Casting(s, m)) && RpcOk(Casting(s, m), m)
  {
    hide ClientsOk, NodesOk, CommitsOk, CountersOk, Settled, CommitInRange;
    RpcIsOk(s, m);
    var s', i := Casting(s, m), s.nodes[m].rpc.i;
    assert s.releaser == Some(m);
    forall n | 0 <= n < |s.nodes| ensures Told(s', n) == (Told(s, n) || (n == i && n != m)) {}
  }

  lemma {:induction false} EndKeepsInv(s: State, m: nat)
    requires Inv(s) && InBounds(s) && m < |s.nodes| && s.nodes[m].rpc.Cast? && s.nodes[m].rpc.i == |s.nodes|
    ensures Inv(Casting(s, m))
  {
    hide ClientsOk, CountersOk, EpochOk, RpcOk, Reached, CommitInRange, CountAt, HasMessage, CellOk;
    var s' := Casting(s, m);
    ReleaseContext(s, m);
    assert NodeOk(s.nodes[m], m, s.clients) && CommitOk(s.nodes[m], m, s.clients, s.counter);
    assert NodeOk(s'.nodes[m], m, s.clients) && CommitOk(s'.nodes[m], m, s.clients, s.counter);
    forall n | 0 <= n < |s.nodes| && n != m ensures RpcOk(s', n) { RpcFrameRelease(s, s', m, n); }
    EndEpoch(s, m);
  }

  lemma {:induction false} EndEpoch(s: State, m: nat)
    requires Inv(s) && InBounds(s) && m < |s.nodes| && s.nodes[m].rpc.Cast? && s.nodes[m].rpc.i == |s.nodes|
    ensures EpochOk(Casting(s, m)) && RpcOk(Casting(s, m), m) && ClientsOk(Casting(s, m))
  {
    hide ClientOk, NodesOk, CommitsOk, CountersOk, Settled, CommitInRange;
    RpcIsOk(s, m);
    var s' := Casting(s, m);
    assert s.releaser == Some(m);
    forall n | 0 <= n < |s.nodes| ensures Told(s, n) == (n != m) && !Told(s', n) {}
  }

  lemma {:induction false} RpcStepKeepsInv(s: State, m: nat, c: nat)
    requires Inv(s) && InBounds(s) && RpcEnabled(s, m, c)
    ensures Inv(RpcNext(s, m, c))
  {
    hide Inv, CommitInRange;
    assert RpcInRange(s, m);
    match s.nodes[m].rpc
    case Idle => TakeKeepsInv(s, m, c);
    case Begin(_, _) => RpcWalkKeepsInv(s, m, c);
    case Scan(_, _, _) => RpcWalkKeepsInv(s, m, c);
    case Body(_, _) => RpcWalkKeepsInv(s, m, c);
    case Decrement(_, _) => RpcWalkKeepsInv(s, m, c);
    case DecrementGot(_, b, _, version) =>
      if s.counter[b].version == version { CountOffKeepsInv(s, m); } else { RpcWalkKeepsInv(s, m, c); }
    case Lower(_, _) => LowerKeepsInv(s, m, c);
    case Unflag(_, _) => LowerKeepsInv(s, m, c);
    case Cast(_, _, i) => if i == |s.nodes| { EndKeepsInv(s, m); } else { TellKeepsInv(s, m); }
    case Reply(_) => ReplyKeepsInv(s, m, c);
  }

  lemma {:induction false} StepKeepsInv(s: State, e: Step)
    requires Inv(s) && Enabled(s, e)
    ensures Inv(Next(s, e))
  {
    hide Inv, InBounds;
    match e
    case Send(_, _) => ClientStepKeepsInv(s, e);
    case Announce(_, _) => ClientStepKeepsInv(s, e);
    case Ask(_) => ClientStepKeepsInv(s, e);
    case CommitThread(m, c) => CommitStepKeepsInv(s, m, c);
    case RpcThread(m, c) => RpcStepKeepsInv(s, m, c);
  }

  // ---- theorems over all runs ----

  lemma {:induction false} InitialInv(s: State)
    requires Initial(s)
    ensures Inv(s)
  {
    hide Reached;
    forall b: nat ensures Owed(s.clients, b) == 0 { NothingOwed(s.clients, b); }
    forall m: nat, j: nat ensures CountAt(s.clients, m, j) == 0 && !Reached(s.clients, m, j) {
      NothingCounted(s.clients, m, j);
    }
    forall c | 0 <= c < |s.clients| ensures ClientOk(s.clients[c]) { assert s.clients[c].sent[..0] == []; }
    forall m | 0 <= m < |s.nodes| ensures NodeOk(s.nodes[m], m, s.clients) {}
  }

  lemma {:induction false} NothingOwed(clients: seq<Client>, b: nat)
    requires forall c :: 0 <= c < |clients| ==> clients[c].counted == 0
    ensures Owed(clients, b) == 0
  {
    if clients != [] { NothingOwed(clients[..|clients| - 1], b); }
  }

  lemma {:induction false} NothingCounted(clients: seq<Client>, m: nat, b: nat)
    requires forall c :: 0 <= c < |clients| ==> clients[c].counted == 0
    ensures CountAt(clients, m, b) == 0 && !Reached(clients, m, b)
  {
    if clients != [] { NothingCounted(clients[..|clients| - 1], m, b); }
    assert forall c :: Here(clients, m, c) ==> clients[c].counted == 0;
  }

  lemma {:induction false} RunKeepsInv(s: State, run: seq<Step>)
    requires Inv(s) && ValidRun(s, run)
    ensures Inv(After(s, run))
    decreases |run|
  {
    hide Inv, Enabled, Next;
    if run != [] {
      StepKeepsInv(s, run[0]);
      RunKeepsInv(Next(s, run[0]), run[1..]);
    }
  }

  /** No thread ever indexes one of its tables out of range. */
  lemma {:induction false} AlwaysInBounds(s: State, run: seq<Step>)
    requires Initial(s) && ValidRun(s, run)
    ensures Inv(After(s, run)) && InBounds(After(s, run))
  {
    hide Inv, InBounds, Initial, After;
    InitialInv(s);
    RunKeepsInv(s, run);
    InvInBounds(After(s, run));
  }

  /** The next step of node n's commit thread changes the file system. */
  predicate CommitsFile(s: State, n: nat) {
    && n < |s.nodes| && s.nodes[n].commit.Passed?
    && Queued(s, n, s.nodes[n].commit.c) && Message(s.clients[s.nodes[n].commit.c]).Operation?
  }

  /**
   * While any node executes the body of an operation of barrier b, every node waits at b with its barrier up, no
   * commit thread is past its stall test, and the stall test it is in will not let it pass.
   */
  lemma {:induction false} BodyRunsAlone(s: State, run: seq<Step>, m: nat, n: nat)
    requires Initial(s) && ValidRun(s, run)
    requires m < |After(s, run).nodes| && After(s, run).nodes[m].rpc.Body? && n < |After(s, run).nodes|
    ensures var s', b := After(s, run), After(s, run).nodes[m].rpc.b;
      && s'.nodes[n].waiting == b && b < |s'.nodes[n].barrier| && s'.nodes[n].barrier[b]
      && !s'.nodes[n].commit.Passed? && !s'.nodes[n].commit.Got? && !CommitsFile(s', n)
      && (s'.nodes[n].commit.Loaded? ==> s'.nodes[n].commit.w == b)
  {
    hide InBounds, Initial, After, ClientsOk, CountersOk, NodeOk, RpcsOk, EpochOk, Reached, CellOk;
    AlwaysInBounds(s, run);
    var s' := After(s, run);
    RpcIsOk(s', m);
    AllStalled(s', m, s'.nodes[m].rpc.c, s'.nodes[m].rpc.b);
    assert CommitOk(s'.nodes[n], n, s'.clients, s'.counter);
  }

  /** Operations announced for barrier b by the messages counted so far. */
  function Announced(clients: seq<Client>, b: nat): int {
    if clients == [] then 0
    else
      var last := clients[|clients| - 1];
      Announced(clients[..|clients| - 1], b) + if b < last.counted && b < |last.ks| then last.ks[b] else 0
  }

  /** Operations of barrier b counted off so far. */
  function Completed(clients: seq<Client>, b: nat): int {
    if clients == [] then 0
    else
      var last := clients[|clients| - 1];
      Completed(clients[..|clients| - 1], b) + if b < |last.finished| then last.finished[b] else 0
  }

  lemma {:induction false} OwedIsDifference(clients: seq<Client>, b: nat)
    requires forall c :: 0 <= c < |clients| ==> Ledger(clients[c])
    ensures Owed(clients, b) == Announced(clients, b) - Completed(clients, b)
  {
    if clients != [] {
      assert Ledger(clients[|clients| - 1]);
      OwedIsDifference(clients[..|clients| - 1], b);
    }
  }

  /** In every reachable state a counter holds the announced operations minus the completed ones. */
  lemma {:induction false} CounterIsDifference(s: State, run: seq<Step>, b: nat)
    requires Initial(s) && ValidRun(s, run) && b < BARRIER_ID_MAX
    ensures var s' := After(s, run);
      && b < |s'.counter|
      && s'.counter[b].value == Announced(s'.clients, b) - Completed(s'.clients, b)
      && s'.counter[b].value >= 0
  {
    hide InBounds, Initial, After, Owed, NodesOk, CommitsOk, RpcsOk, EpochOk, LogOk, Barriers;
    AlwaysInBounds(s, run);
    var s' := After(s, run);
    forall c | 0 <= c < |s'.clients| ensures Ledger(s'.clients[c]) && Debt(s'.clients[c], b) >= 0 {
      assert ClientOk(s'.clients[c]);
    }
    OwedIsDifference(s'.clients, b);
    OwedZero(s'.clients, b);
  }

  /** No operation of barrier b is counted off before the last client has announced its operations for b. */
  lemma {:induction false} AnnouncedBeforeCompleted(s: State, run: seq<Step>, m: nat, c: nat)
    requires Initial(s) && ValidRun(s, run) && AboutToCountOff(After(s, run), m) && c < |After(s, run).clients|
    ensures After(s, run).clients[c].counted > After(s, run).nodes[m].rpc.b
  {
    hide InBounds, Initial, After, Inv, ClientOk;
    AlwaysInBounds(s, run);
    CountOffContext(After(s, run), m);
  }

  /** This step brings an operation counter down to 0. */
  ghost predicate ZeroHit(s: State, e: Step) {
    e.RpcThread? && AboutToCountOff(s, e.m) && s.nodes[e.m].rpc.value - 1 == 0
  }

  lemma {:induction false} StepHits(s: State, e: Step)
    requires Inv(s) && Enabled(s, e)
    ensures Hits(Next(s, e)) == Hits(s) + if ZeroHit(s, e) then 1 else 0
    ensures ZeroHit(s, e) ==> s.nodes[e.m].rpc.b == Hits(s)
  {
    hide Inv, CommitInRange;
    if e.CommitThread? { assert CommitInRange(s, e.m); }
    if e.RpcThread? {
      assert RpcInRange(s, e.m);
      var rpc := s.nodes[e.m].rpc;
      if AboutToCountOff(s, e.m) { CountOffHits(s, e.m); }
      if rpc.Cast? { CastHits(s, e.m); }
    }
  }

  lemma {:induction false} CountOffHits(s: State, m: nat)
    requires Inv(s) && AboutToCountOff(s, m)
    ensures s.releaser == None && s.nodes[m].rpc.b == s.epoch
  {
    hide Inv, ClientOk;
    CountOffContext(s, m);
  }

  lemma {:induction false} CastHits(s: State, m: nat)
    requires Inv(s) && m < |s.nodes| && Releasing(s.nodes[m].rpc)
    ensures s.releaser == Some(m)
  {
    hide Inv, Reached;
    ReleaseContext(s, m);
  }

  /** The barriers whose counter a run brings down to 0, in order. */
  ghost function ZeroHits(s: State, run: seq<Step>): seq<nat>
    requires ValidRun(s, run)
    decreases |run|
  {
    if run == [] then []
    else (if ZeroHit(s, run[0]) then [s.nodes[run[0].m].rpc.b] else []) + ZeroHits(Next(s, run[0]), run[1..])
  }

  /** Counters reach 0 exactly once each and strictly in the order of the barriers: 0, 1, 2, ... */
  lemma {:induction false} ZeroHitsInOrder(s: State, run: seq<Step>)
    requires Inv(s) && ValidRun(s, run)
    ensures Hits(After(s, run)) == Hits(s) + |ZeroHits(s, run)|
    ensures forall i :: 0 <= i < |ZeroHits(s, run)| ==> ZeroHits(s, run)[i] == Hits(s) + i
    decreases |run|
  {
    hide Inv, Enabled, Next, ZeroHit, Hits;
    if run != [] {
      StepHits(s, run[0]);
      StepKeepsInv(s, run[0]);
      ZeroHitsInOrder(Next(s, run[0]), run[1..]);
    }
  }

  lemma {:induction false} EachCounterHitsZeroOnce(s: State, run: seq<Step>)
    requires Initial(s) && ValidRun(s, run)
    ensures forall i :: 0 <= i < |ZeroHits(s, run)| ==> ZeroHits(s, run)[i] == i
  {
    hide Inv, ZeroHits;
    InitialInv(s);
    ZeroHitsInOrder(s, run);
  }

  /**
   * A release message carries no barrier id, yet the node that receives it waits at exactly the barrier it was
   * sent for, with that barrier up; other nodes may be one barrier ahead, never more.
   */
  lemma {:induction false} ReleaseHitsItsBarrier(s: State, run: seq<Step>, m: nat)
    requires Initial(s) && ValidRun(s, run) && m < |After(s, run).nodes| && After(s, run).nodes[m].rpc.Cast?
    ensures var s' := After(s, run);
      var rpc := s'.nodes[m].rpc;
      && (rpc.i < |s'.nodes| && rpc.i != m ==>
            && s'.nodes[rpc.i].waiting == rpc.b
            && rpc.b < |s'.nodes[rpc.i].barrier| && s'.nodes[rpc.i].barrier[rpc.b])
      && (forall n :: 0 <= n < |s'.nodes| ==>
            s'.nodes[n].waiting == if n < rpc.i && n != m then rpc.b + 1 else rpc.b)
  {
    hide InBounds, Initial, After, ClientsOk, CountersOk, NodesOk, CommitsOk, RpcsOk, Reached, Settled;
    AlwaysInBounds(s, run);
    var s' := After(s, run);
    ReleaseContext(s', m);
    var i := s'.nodes[m].rpc.i;
    assert forall n: nat :: Told(s', n) <==> n < i && n != m;
    if i < |s'.nodes| && i != m { assert !Told(s', i); }
  }

  lemma {:induction false} BarriersPrefix(sent: seq<Msg>, h: nat, p: nat)
    requires h <= |sent| && p <= |sent|
    ensures h <= p ==> Barriers(sent[..h]) <= Barriers(sent[..p])
  {
    BarriersGrow(sent[..p]);
    if h <= p { assert sent[..p][..h] == sent[..h]; }
  }

  /** Whatever a client enqueued before its barrier-b message is handled when an operation of barrier b starts. */
  lemma {:induction false} EarlierMessagesHandled(s: State, run: seq<Step>, m: nat, c: nat, p: nat)
    requires Initial(s) && ValidRun(s, run)
    requires m < |After(s, run).nodes| && After(s, run).nodes[m].rpc.Body? && c < |After(s, run).clients|
    requires var sent := After(s, run).clients[c].sent;
      p < |sent| && sent[p].Barrier? && sent[p].id - 1 == After(s, run).nodes[m].rpc.b
    ensures p < After(s, run).clients[c].handled
  {
    hide InBounds, Initial, After, NodesOk, CommitsOk, RpcsOk, EpochOk, CountersOk, Reached, Barriers;
    AlwaysInBounds(s, run);
    var s' := After(s, run);
    var rpc := s'.nodes[m].rpc;
    RpcIsOk(s', m);
    AllStalled(s', m, rpc.c, rpc.b);
    AllCountedEverywhere(s', rpc.b);
    var cl := s'.clients[c];
    assert ClientOk(cl);
    BarriersPrefix(cl.sent, cl.handled, p);
  }

  /** The reach count of a barrier is never below that of the next one. */
  lemma {:induction false} ReachIsOrdered(s: State, run: seq<Step>, m: nat, b: nat)
    requires Initial(s) && ValidRun(s, run) && m < |After(s, run).nodes| && b + 1 < BARRIER_ID_MAX
    ensures var reach := After(s, run).nodes[m].reach; |reach| == BARRIER_ID_MAX && reach[b] >= reach[b + 1]
  {
    hide InBounds, Initial, After, ClientsOk, CountersOk, CommitsOk, RpcsOk, EpochOk, Reached, CountAt;
    AlwaysInBounds(s, run);
    var s' := After(s, run);
    assert NodeOk(s'.nodes[m], m, s'.clients);
    CountOrdered(s'.clients, m, b);
  }

  lemma {:induction false} CountOrdered(clients: seq<Client>, m: nat, b: nat)
    ensures CountAt(clients, m, b) >= CountAt(clients, m, b + 1)
  {
    if clients != [] { CountOrdered(clients[..|clients| - 1], m, b); }
  }
}
