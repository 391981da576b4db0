/**
 * The commit and barrier protocol of the Pacon servers as a step system. Each node runs a commit thread and a
 * local-RPC thread; the cluster-RPC handler that receives a release message is one atomic step of its sender.
 * Barrier ids sent by clients start at 1; servers index their tables by id - 1.
 */
module Protocol {
  import opened Common

  const BARRIER_ID_MAX: nat := 1024

  /** A commit message: a file-system operation, or a client's barrier announcing `k` operations. */
  datatype Msg = Operation(path: string) | Barrier(k: nat, id: nat)

  /** The life of a client's barrier operation: requested, taken by the RPC thread, counted off, replied to. */
  datatype Phase = Free | Asked | Served | Answered

  /**
   * `sent` is everything the client ever enqueued and `handled` how much of it the commit thread has finished.
   * `ks[b]` is what the client announced at barrier b, `finished[b]` how many of these operations were counted
   * off, `counted` how many of its barrier messages the commit thread has counted, and `todo` how many
   * operations the client has yet to issue for its latest barrier.
   */
  datatype Client = Client(
    home: nat, sent: seq<Msg>, handled: nat, ks: seq<nat>, finished: seq<nat>, counted: nat, todo: nat, phase: Phase)

  /** Where the commit thread stands. `Loaded` holds the value of `waiting_barrier_id` read for the stall test. */
  datatype Commit =
    | Ready
    | Received(c: nat)
    | Loaded(c: nat, w: nat)
    | Passed(c: nat)
    | Got(c: nat, value: int, version: nat)
    | Raise(b: nat)
    | Publish(b: nat)

  /** Where the local-RPC thread stands with the operation of client `c` tagged with barrier `b`. */
  datatype Rpc =
    | Idle
    | Begin(c: nat, b: nat)
    | Scan(c: nat, b: nat, i: nat)
    | Body(c: nat, b: nat)
    | Decrement(c: nat, b: nat)
    | DecrementGot(c: nat, b: nat, value: int, version: nat)
    | Lower(c: nat, b: nat)
    | Unflag(c: nat, b: nat)
    | Cast(c: nat, b: nat, i: nat)
    | Reply(c: nat)

  /** `flag[b]` is the key "address.b" this node keeps in the shared store. */
  datatype Node = Node(
    barrier: seq<bool>, waiting: nat, reach: seq<nat>, flag: seq<bool>, commit: Commit, rpc: Rpc)

  /** An operation counter in the shared store, with its compare-and-swap version. */
  datatype Cell = Cell(value: int, version: nat)

  /** `epoch` (barriers released everywhere) and `releaser` are history, read by no step. */
  datatype State = State(
    nodes: seq<Node>, clients: seq<Client>, counter: seq<Cell>, epoch: nat, releaser: Option<nat>)

  datatype Step =
    | Send(c: nat, path: string)
    | Announce(c: nat, k: nat)
    | Ask(c: nat)
    | CommitThread(m: nat, c: nat)
    | RpcThread(m: nat, c: nat)

  /** How many clients live on node m: `client_num` of that node. */
  function NumAt(clients: seq<Client>, m: nat): nat {
    if clients == [] then 0
    else NumAt(clients[..|clients| - 1], m) + if clients[|clients| - 1].home == m then 1 else 0
  }

  function Message(cl: Client): Msg
    requires cl.handled < |cl.sent|
  {
    cl.sent[cl.handled]
  }

  predicate MessageOk(x: Msg) {
    x.Barrier? ==> 1 <= x.id < BARRIER_ID_MAX
  }

  /** Every index the next step of the commit thread uses lies inside its array. */
  predicate CommitInRange(s: State, m: nat)
    requires m < |s.nodes|
  {
    match s.nodes[m].commit
    case Ready => true
    case Received(c) => Queued(s, m, c)
    case Loaded(c, w) => Queued(s, m, c) && w < BARRIER_ID_MAX
    case Passed(c) => Queued(s, m, c)
    case Got(c, _, _) => Queued(s, m, c) && Message(s.clients[c]).Barrier?
    case Raise(b) => b < BARRIER_ID_MAX
    case Publish(b) => b < BARRIER_ID_MAX
  }

  predicate Queued(s: State, m: nat, c: nat) {
    && c < |s.clients| && s.clients[c].home == m && s.clients[c].handled < |s.clients[c].sent|
    && MessageOk(Message(s.clients[c]))
  }

  predicate RpcInRange(s: State, m: nat)
    requires m < |s.nodes|
  {
    match s.nodes[m].rpc
    case Idle => true
    case Begin(c, b) => b < BARRIER_ID_MAX
    case Scan(c, b, i) => b < BARRIER_ID_MAX && i <= |s.nodes|
    case Body(c, b) => true
    case Decrement(c, b) => b < BARRIER_ID_MAX
    case DecrementGot(c, b, _, _) => b < BARRIER_ID_MAX && c < |s.clients| && b < |s.clients[c].finished|
    case Lower(c, b) => b < BARRIER_ID_MAX
    case Unflag(c, b) => b < BARRIER_ID_MAX
    case Cast(c, b, i) => i <= |s.nodes|
    case Reply(c) => c < |s.clients|
  }

  predicate Sized(s: State) {
    && |s.counter| == BARRIER_ID_MAX
    && (forall m :: 0 <= m < |s.nodes| ==>
          && |s.nodes[m].barrier| == |s.nodes[m].flag| == |s.nodes[m].reach| == BARRIER_ID_MAX
          && s.nodes[m].waiting < BARRIER_ID_MAX)
  }

  /** No array access of any thread's next step is out of bounds. */
  predicate InBounds(s: State) {
    && Sized(s)
    && (forall m :: 0 <= m < |s.nodes| ==> CommitInRange(s, m) && RpcInRange(s, m))
  }

  predicate CommitEnabled(s: State, m: nat, c: nat) {
    m < |s.nodes| && (s.nodes[m].commit.Ready? ==> Queued(s, m, c))
  }

  /** The RPC thread spins in `Begin` on its own barrier and in `Scan` on every other node's flag. */
  predicate RpcEnabled(s: State, m: nat, c: nat)
    requires InBounds(s)
  {
    && m < |s.nodes|
    && assert RpcInRange(s, m);
       match s.nodes[m].rpc
       case Idle =>
         && c < |s.clients| && s.clients[c].home == m && s.clients[c].phase == Asked
         && 1 <= |s.clients[c].ks| < BARRIER_ID_MAX
       case Begin(_, b) => s.nodes[m].barrier[b]
       case Scan(_, b, i) => i == |s.nodes| || i == m || s.nodes[i].flag[b]
       case _ => true
  }

  /**
   * A client announces at most nine operations, and only when those of its previous barrier are issued; while a
   * request is out it is blocked.
   */
  predicate Enabled(s: State, e: Step) {
    && InBounds(s)
    && match e
       case Send(c, _) => c < |s.clients| && s.clients[c].phase == Free
       case Announce(c, k) =>
         && c < |s.clients| && s.clients[c].phase == Free && s.clients[c].todo == 0 && k <= 9
         && |s.clients[c].ks| + 1 < BARRIER_ID_MAX
       case Ask(c) => c < |s.clients| && s.clients[c].phase == Free && s.clients[c].todo > 0
       case CommitThread(m, c) => CommitEnabled(s, m, c)
       case RpcThread(m, c) => RpcEnabled(s, m, c)
  }

  function AtNode(s: State, m: nat, nd: Node): State
    requires m < |s.nodes|
  {
    s.(nodes := s.nodes[m := nd])
  }

  function AtClient(s: State, c: nat, cl: Client): State
    requires c < |s.clients|
  {
    s.(clients := s.clients[c := cl])
  }

  function Sending(cl: Client, path: string): Client {
    cl.(sent := cl.sent + [Operation(path)])
  }

  /** `pacon_barrier`. */
  function Announcing(cl: Client, k: nat): Client {
    cl.(sent := cl.sent + [Barrier(k, |cl.ks| + 1)], ks := cl.ks + [k], finished := cl.finished + [0], todo := k)
  }

  function Asking(cl: Client): Client
    requires cl.todo > 0
  {
    cl.(todo := cl.todo - 1, phase := Asked)
  }

  /** One commit thread counts the barrier message of client c; the last of its clients raises the barrier. */
  function Counting(s: State, m: nat, c: nat): State
    requires Sized(s) && m < |s.nodes| && Queued(s, m, c) && Message(s.clients[c]).Barrier?
  {
    var cl, nd := s.clients[c], s.nodes[m];
    var b := Message(cl).id - 1;
    var n := nd.reach[b] + 1;
    AtNode(AtClient(s, c, cl.(handled := cl.handled + 1, counted := cl.counted + 1)), m,
           nd.(reach := nd.reach[b := n], commit := if n == NumAt(s.clients, m) then Raise(b) else Ready))
  }

  /** `commit_to_fs`: receive, stall test, then a file-system commit or a barrier message. */
  function CommitNext(s: State, m: nat, c: nat): State
    requires InBounds(s) && CommitEnabled(s, m, c)
  {
    var nd := s.nodes[m];
    assert CommitInRange(s, m);
    match nd.commit
    case Ready => AtNode(s, m, nd.(commit := Received(c)))
    case Received(x) => AtNode(s, m, nd.(commit := Loaded(x, nd.waiting)))
    case Loaded(x, w) => AtNode(s, m, nd.(commit := if nd.barrier[w] then Received(x) else Passed(x)))
    case Passed(x) => PassedNext(s, m, x)
    case Got(x, value, version) =>
      var b := Message(s.clients[x]).id - 1;
      if s.counter[b].version == version then
        Counting(s.(counter := s.counter[b := Cell(value + Message(s.clients[x]).k, version + 1)]), m, x)
      else AtNode(s, m, nd.(commit := Passed(x)))
    case Raise(b) => AtNode(s, m, nd.(barrier := nd.barrier[b := true], commit := Publish(b)))
    case Publish(b) => AtNode(s, m, nd.(flag := nd.flag[b := true], commit := Ready))
  }

  function PassedNext(s: State, m: nat, x: nat): State
    requires InBounds(s) && m < |s.nodes| && Queued(s, m, x)
  {
    var nd, cl := s.nodes[m], s.clients[x];
    match Message(cl)
    case Operation(_) => AtNode(AtClient(s, x, cl.(handled := cl.handled + 1)), m, nd.(commit := Ready))
    case Barrier(k, id) =>
      if k == 0 then Counting(s, m, x)
      else AtNode(s, m, nd.(commit := Got(x, s.counter[id - 1].value, s.counter[id - 1].version)))
  }

  /** The successful swap of `broadcast_barrier_end_new`: the operation is counted off. */
  function CountingOff(s: State, m: nat): State
    requires InBounds(s) && m < |s.nodes| && s.nodes[m].rpc.DecrementGot?
  {
    assert RpcInRange(s, m);
    var rpc := s.nodes[m].rpc;
    var cl := s.clients[rpc.c];
    var s1 := AtClient(s, rpc.c, cl.(finished := cl.finished[rpc.b := cl.finished[rpc.b] + 1], phase := Answered));
    var last := rpc.value - 1 == 0;
    AtNode(s1, m, s.nodes[m].(rpc := if last then Lower(rpc.c, rpc.b) else Reply(rpc.c)))
      .(counter := s.counter[rpc.b := Cell(rpc.value - 1, rpc.version + 1)],
        releaser := if last then Some(m) else s.releaser)
  }

  /** The handler of the release message on node i; the message carries no barrier id. */
  function Released(nd: Node): Node
    requires nd.waiting < |nd.barrier|
  {
    nd.(barrier := nd.barrier[nd.waiting := false], waiting := nd.waiting + 1)
  }

  function Casting(s: State, m: nat): State
    requires InBounds(s) && m < |s.nodes| && s.nodes[m].rpc.Cast?
  {
    assert RpcInRange(s, m);
    var nd := s.nodes[m];
    var i := nd.rpc.i;
    if i == |s.nodes| then
      AtNode(s, m, nd.(waiting := nd.waiting + 1, rpc := Reply(nd.rpc.c))).(epoch := s.epoch + 1, releaser := None)
    else
      var s1 := AtNode(s, m, nd.(rpc := Cast(nd.rpc.c, nd.rpc.b, i + 1)));
      if i == m then s1 else AtNode(s1, i, Released(s.nodes[i]))
  }

  /** `commit_to_fs_barrier` with `broadcast_barrier_begin_new` and `broadcast_barrier_end_new`. */
  function RpcNext(s: State, m: nat, c: nat): State
    requires InBounds(s) && RpcEnabled(s, m, c)
  {
    var nd := s.nodes[m];
    assert RpcInRange(s, m);
    match nd.rpc
    case Idle =>
      AtNode(AtClient(s, c, s.clients[c].(phase := Served)), m, nd.(rpc := Begin(c, |s.clients[c].ks| - 1)))
    case Begin(x, b) => AtNode(s, m, nd.(rpc := Scan(x, b, 0)))
    case Scan(x, b, i) => AtNode(s, m, nd.(rpc := if i == |s.nodes| then Body(x, b) else Scan(x, b, i + 1)))
    case Body(x, b) => AtNode(s, m, nd.(rpc := Decrement(x, b)))
    case Decrement(x, b) => AtNode(s, m, nd.(rpc := DecrementGot(x, b, s.counter[b].value, s.counter[b].version)))
    case DecrementGot(x, b, _, version) =>
      if s.counter[b].version == version then CountingOff(s, m)
      else AtNode(s, m, nd.(rpc := Decrement(x, b)))
    case Lower(x, b) => AtNode(s, m, nd.(barrier := nd.barrier[b := false], rpc := Unflag(x, b)))
    case Unflag(x, b) => AtNode(s, m, nd.(flag := nd.flag[b := false], rpc := Cast(x, b, 0)))
    case Cast(_, _, _) => Casting(s, m)
    case Reply(x) => AtNode(AtClient(s, x, s.clients[x].(phase := Free)), m, nd.(rpc := Idle))
  }

  function Next(s: State, e: Step): State
    requires Enabled(s, e)
  {
    match e
    case Send(c, path) => AtClient(s, c, Sending(s.clients[c], path))
    case Announce(c, k) => AtClient(s, c, Announcing(s.clients[c], k))
    case Ask(c) => AtClient(s, c, Asking(s.clients[c]))
    case CommitThread(m, c) => CommitNext(s, m, c)
    case RpcThread(m, c) => RpcNext(s, m, c)
  }

  predicate FreshClient(cl: Client, nodes: nat) {
    && cl.home < nodes && cl.sent == [] && cl.handled == 0 && cl.ks == [] && cl.finished == []
    && cl.counted == 0 && cl.todo == 0 && cl.phase == Free
  }

  predicate FreshNode(nd: Node) {
    && |nd.barrier| == |nd.flag| == |nd.reach| == BARRIER_ID_MAX
    && nd.waiting == 0 && nd.commit == Ready && nd.rpc == Idle
    && (forall j :: 0 <= j < BARRIER_ID_MAX ==> !nd.barrier[j] && !nd.flag[j] && nd.reach[j] == 0)
  }

  /** `start_pacon_server` on every node, before any client has sent anything. */
  predicate Initial(s: State) {
    && (forall m :: 0 <= m < |s.nodes| ==> FreshNode(s.nodes[m]))
    && (forall c :: 0 <= c < |s.clients| ==> FreshClient(s.clients[c], |s.nodes|))
    && |s.counter| == BARRIER_ID_MAX
    && (forall b :: 0 <= b < BARRIER_ID_MAX ==> s.counter[b].value == 0)
    && s.epoch == 0 && s.releaser == None
  }

  predicate ValidRun(s: State, run: seq<Step>)
    decreases |run|
  {
    run == [] || (Enabled(s, run[0]) && ValidRun(Next(s, run[0]), run[1..]))
  }

  function After(s: State, run: seq<Step>): State
    requires ValidRun(s, run)
    decreases |run|
  {
    if run == [] then s else After(Next(s, run[0]), run[1..])
  }
}
