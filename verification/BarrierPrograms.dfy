/** What clients can do with the barrier protocol: every program of even rounds has a run to its end. */
module BarrierPrograms {
  import opened Common
  import opened Protocol
  import opened Barrier
  import opened BarrierProgress

  /** What one client does in one round: operations that are committed asynchronously, then a barrier for k others. */
  datatype Turn = Turn(paths: seq<string>, k: nat)

  /** A round has one turn for each client, at most nine operations in each, and at least one in all. */
  ghost predicate RoundOk(row: seq<Turn>, clients: nat) {
    && |row| == clients && (forall c :: 0 <= c < clients ==> row[c].k <= 9)
    && exists c :: 0 <= c < clients && row[c].k >= 1
  }

  ghost predicate ProgramOk(program: seq<seq<Turn>>, clients: nat) {
    forall r :: 0 <= r < |program| ==> RoundOk(program[r], clients)
  }

  function Operations(paths: seq<string>): seq<Msg> {
    if paths == [] then [] else [Operation(paths[0])] + Operations(paths[1..])
  }

  /** The messages that client c has to put in its queue, its barriers numbered from 1. */
  function Messages(program: seq<seq<Turn>>, c: nat): seq<Msg>
    requires forall r :: 0 <= r < |program| ==> c < |program[r]|
  {
    if program == [] then []
    else
      var last := |program| - 1;
      Messages(program[..last], c) + Operations(program[last][c].paths) + [Barrier(program[last][c].k, last + 1)]
  }

  /** How many operations client c has to issue at each barrier. */
  function Numbers(program: seq<seq<Turn>>, c: nat): seq<nat>
    requires forall r :: 0 <= r < |program| ==> c < |program[r]|
  {
    if program == [] then []
    else
      var last := |program| - 1;
      Numbers(program[..last], c) + [program[last][c].k]
  }

  // ---- a start ----

  function Nodes(n: nat): (r: seq<Node>)
    ensures |r| == n && forall m :: 0 <= m < n ==> FreshNode(r[m])
  {
    var no := seq(BARRIER_ID_MAX, _ => false);
    if n == 0 then [] else Nodes(n - 1) + [Node(no, 0, seq(BARRIER_ID_MAX, _ => 0), no, Ready, Idle)]
  }

  function Clients(homes: seq<nat>): (r: seq<Client>)
    ensures |r| == |homes|
    ensures forall c :: 0 <= c < |homes| ==> r[c] == Client(homes[c], [], 0, [], [], 0, 0, Free)
  {
    if homes == [] then []
    else Clients(homes[..|homes| - 1]) + [Client(homes[|homes| - 1], [], 0, [], [], 0, 0, Free)]
  }

  function Startup(nodes: nat, homes: seq<nat>): State {
    State(Nodes(nodes), Clients(homes), seq(BARRIER_ID_MAX, _ => Cell(0, 0)), 0, None)
  }

  /** Servers and clients can be placed in any way. */
  lemma {:induction false} StartupIsInitial(nodes: nat, homes: seq<nat>)
    requires forall c :: 0 <= c < |homes| ==> homes[c] < nodes
    ensures var s := Startup(nodes, homes);
      && Initial(s) && |s.nodes| == nodes && |s.clients| == |homes|
      && forall c :: 0 <= c < |homes| ==> s.clients[c].home == homes[c]
  {
    hide Nodes, Clients, FreshNode;
  }

  // ---- one turn ----

  function Turned(cl: Client, turn: Turn): Client {
    cl.(sent := cl.sent + Operations(turn.paths) + [Barrier(turn.k, |cl.ks| + 1)],
        ks := cl.ks + [turn.k], finished := cl.finished + [0], todo := turn.k)
  }

  predicate AtRest(cl: Client, rounds: nat) { cl.phase == Free && cl.todo == 0 && |cl.ks| == rounds }

  lemma {:induction false} SendAll(s: State, c: nat, paths: seq<string>) returns (run: seq<Step>)
    requires Inv(s) && c < |s.clients| && s.clients[c].phase == Free
    ensures ValidRun(s, run) && Inv(After(s, run))
    ensures After(s, run) == AtClient(s, c, s.clients[c].(sent := s.clients[c].sent + Operations(paths)))
    decreases |paths|
  {
    hide Inv, InBounds, ValidRun, After;
    var cl := s.clients[c];
    if paths == [] {
      run := [];
      EmptyRun(s);
      assert cl.sent + [] == cl.sent;
    } else {
      var e := Send(c, paths[0]);
      InvInBounds(s);
      StepKeepsInv(s, e);
      var rest := SendAll(Next(s, e), c, paths[1..]);
      RunStep(s, e, rest);
      run := [e] + rest;
      assert cl.sent + [Operation(paths[0])] + Operations(paths[1..]) == cl.sent + Operations(paths);
    }
  }

  lemma {:induction false} TakeTurn(s: State, c: nat, turn: Turn, rounds: nat) returns (run: seq<Step>)
    requires Inv(s) && c < |s.clients| && AtRest(s.clients[c], rounds) && turn.k <= 9 && rounds + 1 < BARRIER_ID_MAX
    ensures ValidRun(s, run) && Inv(After(s, run))
    ensures After(s, run) == AtClient(s, c, Turned(s.clients[c], turn))
  {
    hide Inv, InBounds, ValidRun, After, Operations;
    var first := SendAll(s, c, turn.paths);
    var s1 := After(s, first);
    var e := Announce(c, turn.k);
    InvInBounds(s1);
    StepKeepsInv(s1, e);
    JustOne(s1, e);
    RunBoth(s, first, [e]);
    run := first + [e];
  }

  /** The first n clients take their turns. */
  lemma {:induction false} TakeTurns(s: State, row: seq<Turn>, n: nat, rounds: nat) returns (run: seq<Step>)
    requires Inv(s) && n <= |s.clients| && RoundOk(row, |s.clients|) && rounds + 1 < BARRIER_ID_MAX
    requires forall c :: 0 <= c < |s.clients| ==> AtRest(s.clients[c], rounds)
    ensures ValidRun(s, run) && Inv(After(s, run))
    ensures var s' := After(s, run);
      && |s'.clients| == |s.clients| && s'.nodes == s.nodes
      && forall c :: 0 <= c < |s.clients| ==>
           s'.clients[c] == if c < n then Turned(s.clients[c], row[c]) else s.clients[c]
    decreases n
  {
    hide Inv, ValidRun, After, Turned;
    if n == 0 {
      run := [];
      EmptyRun(s);
    } else {
      var first := TakeTurns(s, row, n - 1, rounds);
      var s1 := After(s, first);
      var more := TakeTurn(s1, n - 1, row[n - 1], rounds);
      RunBoth(s, first, more);
      run := first + more;
    }
  }

  // ---- one round ----

  lemma {:induction false} RoundIsEven(s: State, row: seq<Turn>, s': State, rounds: nat)
    requires Even(s, rounds) && RoundOk(row, |s.clients|)
    requires |s'.clients| == |s.clients| && s'.nodes == s.nodes
    requires forall c :: 0 <= c < |s.clients| ==> s'.clients[c] == Turned(s.clients[c], row[c])
    ensures Even(s', rounds + 1)
  {
    forall m | 0 <= m < |s'.nodes| ensures Inhabited(s'.clients, m) {
      assert Inhabited(s.clients, m);
      var c :| Here(s.clients, m, c);
      assert Here(s'.clients, m, c);
    }
    forall b | 0 <= b < rounds + 1 ensures Opened(s'.clients, b) {
      if b < rounds {
        assert Opened(s.clients, b);
        var c :| 0 <= c < |s.clients| && Announces(s.clients[c], b);
        assert Announces(s'.clients[c], b);
      } else {
        var c :| 0 <= c < |s.clients| && row[c].k >= 1;
        assert Announces(s'.clients[c], b);
      }
    }
  }

  /** Serving changes nothing that a client has sent. */
  lemma {:induction false} StepKeepsSent(s: State, e: Step, c: nat)
    requires Enabled(s, e) && (e.Ask? || e.CommitThread? || e.RpcThread?) && c < |s.clients|
    ensures var s' := Next(s, e);
      |s'.clients| == |s.clients| && s'.clients[c].sent == s.clients[c].sent && s'.clients[c].ks == s.clients[c].ks
  {
    hide NumAt;
    match e
    case CommitThread(m, x) => assert CommitInRange(s, m);
    case RpcThread(m, x) => assert RpcInRange(s, m);
    case _ =>
  }

  lemma {:induction false} ServingKeepsSent(s: State, run: seq<Step>, c: nat)
    requires ValidRun(s, run) && Serves(run) && c < |s.clients|
    ensures var s' := After(s, run);
      |s'.clients| == |s.clients| && s'.clients[c].sent == s.clients[c].sent && s'.clients[c].ks == s.clients[c].ks
    decreases |run|
  {
    hide Enabled, Next;
    if run != [] {
      StepKeepsSent(s, run[0], c);
      ServingKeepsSent(Next(s, run[0]), run[1..], c);
    }
  }

  ghost predicate Complete(s: State, rounds: nat) { Good(s, rounds) && Done(s, rounds) }

  lemma {:induction false} RestBetweenRounds(s: State, rounds: nat)
    requires Complete(s, rounds)
    ensures Inv(s) && More(s) && Even(s, rounds) && forall c :: 0 <= c < |s.clients| ==> AtRest(s.clients[c], rounds)
  {
    hide Inv, More;
  }

  lemma {:induction false} OneRound(s: State, row: seq<Turn>, rounds: nat) returns (run: seq<Step>)
    requires Complete(s, rounds) && RoundOk(row, |s.clients|) && rounds + 1 < BARRIER_ID_MAX
    ensures ValidRun(s, run) && Complete(After(s, run), rounds + 1)
    ensures var s' := After(s, run);
      && |s'.clients| == |s.clients|
      && forall c :: 0 <= c < |s.clients| ==>
           && s'.clients[c].sent == Turned(s.clients[c], row[c]).sent
           && s'.clients[c].ks == s.clients[c].ks + [row[c].k]
  {
    hide Inv, More, Even, Done, ValidRun, After, RoundOk, AtRest;
    RestBetweenRounds(s, rounds);
    var first := TakeTurns(s, row, |s.clients|, rounds);
    var s1 := After(s, first);
    RunKeepsMore(s, first);
    RoundIsEven(s, row, s1, rounds);
    var rest := Finishes(s1, rounds + 1);
    RunKeepsGood(s1, rest, rounds + 1);
    RunBoth(s, first, rest);
    run := first + rest;
    if |s.clients| > 0 { ServingKeepsSent(s1, rest, 0); }
    forall c | 0 <= c < |s.clients|
      ensures After(s1, rest).clients[c].sent == s1.clients[c].sent && After(s1, rest).clients[c].ks == s1.clients[c].ks
    {
      ServingKeepsSent(s1, rest, c);
    }
  }

  // ---- whole programs ----

  lemma {:induction false} InitiallyComplete(s: State)
    requires Initial(s) && |s.clients| > 0 && forall m :: 0 <= m < |s.nodes| ==> Inhabited(s.clients, m)
    ensures Complete(s, 0)
  {
    hide Inv, More;
    InitialMore(s);
  }

  /**
   * From any start in which every node has a client, every program of rounds, with any operations and any announced
   * numbers up to nine, has a run in which each client sends exactly its messages and every one of them is handled,
   * every announced operation runs and is counted off, and every barrier is released.
   */
  lemma {:induction false} ProgramsComplete(s: State, program: seq<seq<Turn>>) returns (run: seq<Step>)
    requires Initial(s) && |s.clients| > 0 && forall m :: 0 <= m < |s.nodes| ==> Inhabited(s.clients, m)
    requires ProgramOk(program, |s.clients|) && |program| < 1024
    ensures ValidRun(s, run) && Complete(After(s, run), |program|)
    ensures var s' := After(s, run);
      && |s'.clients| == |s.clients|
      && forall c :: 0 <= c < |s.clients| ==>
           s'.clients[c].sent == Messages(program, c) && s'.clients[c].ks == Numbers(program, c)
    decreases |program|
  {
    hide Complete, ValidRun, After;
    if program == [] {
      run := [];
      EmptyRun(s);
      InitiallyComplete(s);
    } else {
      var last := |program| - 1;
      var first := ProgramsComplete(s, program[..last]);
      var s1 := After(s, first);
      var rest := OneRound(s1, program[last], last);
      RunBoth(s, first, rest);
      run := first + rest;
      forall c | 0 <= c < |s.clients| ensures |Numbers(program[..last], c)| == last {
        NumbersLength(program[..last], c);
      }
    }
  }

  lemma {:induction false} NumbersLength(program: seq<seq<Turn>>, c: nat)
    requires forall r :: 0 <= r < |program| ==> c < |program[r]|
    ensures |Numbers(program, c)| == |program|
    decreases |program|
  {
    if program != [] { NumbersLength(program[..|program| - 1], c); }
  }
}
