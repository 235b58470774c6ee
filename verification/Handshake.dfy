/** How a rule message travels: the sender connects, sends the forwarding rule, waits for
    an answer, sends the Darshana rule and waits again; the node takes one connection at a
    time and answers before it acts. Every interleaving of these small steps amounts to
    serving whole requests one after the other, as `Sessions` has it. */
module Handshake {
  import opened Wrappers
  import opened NatTable
  import opened Flows
  import opened OverlayNode
  import opened Sessions
  import Seqs

  /** What travels to the node. */
  datatype Message = Forwarding(request: Request) | Darshana

  /** Where a sender is in `setup_overlay_node`: outside, or waiting for an answer. */
  datatype Phase = Outside | AwaitFirst | AwaitSecond

  /** A sender: requests completed, and the messages under way on its connection. */
  datatype Client = Client(k: nat, phase: Phase, toNode: seq<Message>, answers: nat)

  /** Where the node is in its accept loop, and for which sender. */
  datatype Server =
    | Accepting
    | Connected(i: nat)
    | Executing(i: nat, left: seq<Command>)
    | AwaitDarshana(i: nat)
    | Monitoring(i: nat)

  /** `served` lists the senders in the order in which their requests were taken up. */
  datatype World = World(clients: seq<Client>, server: Server, backlog: seq<nat>, table: Table, served: seq<nat>)

  /** A sender connects and sends, or reads an answer; or the node goes on. */
  datatype Move = Connect(i: nat) | Read(i: nat) | Work

  predicate CanConnect(ss: seq<Session>, w: World, i: nat) {
    |w.clients| == |ss| && i < |ss| && w.clients[i].phase == Outside && w.clients[i].k < 2 * |ss[i]|
  }

  predicate CanRead(w: World, i: nat) {
    i < |w.clients| && w.clients[i].phase != Outside && w.clients[i].answers > 0
  }

  predicate CanWork(w: World) {
    match w.server
    case Accepting => w.backlog != []
    case Connected(i) => i < |w.clients| && w.clients[i].toNode != [] && w.clients[i].toNode[0].Forwarding?
    case Executing(_, _) => true
    case AwaitDarshana(i) => i < |w.clients| && w.clients[i].toNode != []
    case Monitoring(_) => true
  }

  predicate Can(ss: seq<Session>, w: World, m: Move) {
    match m
    case Connect(i) => CanConnect(ss, w, i)
    case Read(i) => CanRead(w, i)
    case Work => CanWork(w)
  }

  function AfterConnect(ss: seq<Session>, w: World, i: nat): World
    requires CanConnect(ss, w, i)
  {
    var c := w.clients[i];
    w.(clients := w.clients[i := Client(c.k, AwaitFirst, [Forwarding(Script(ss[i], c.k))], 0)],
       backlog := w.backlog + [i])
  }

  function AfterRead(w: World, i: nat): World
    requires CanRead(w, i)
  {
    var c := w.clients[i];
    w.(clients := w.clients[i :=
         if c.phase == AwaitFirst then Client(c.k, AwaitSecond, c.toNode + [Darshana], c.answers - 1)
         else Client(c.k + 1, Outside, c.toNode, c.answers - 1)])
  }

  /** The node takes the first message of the connection and answers it. */
  function Answered(c: Client): Client
    requires c.toNode != []
  {
    c.(toNode := c.toNode[1..], answers := c.answers + 1)
  }

  function AfterWork(addr: Ip, w: World): World
    requires CanWork(w)
  {
    match w.server
    case Accepting => w.(server := Connected(w.backlog[0]), backlog := w.backlog[1..])
    case Connected(i) =>
      var c := w.clients[i];
      w.(clients := w.clients[i := Answered(c)],
         server := Executing(i, Commands(addr, c.toNode[0].request)), served := w.served + [i])
    case Executing(i, left) =>
      if left == [] then w.(server := AwaitDarshana(i))
      else w.(table := Exec(w.table, left[0]), server := Executing(i, left[1..]))
    case AwaitDarshana(i) =>
      w.(clients := w.clients[i := Answered(w.clients[i])], server := Monitoring(i))
    case Monitoring(i) => w.(server := Accepting)
  }

  function After(addr: Ip, ss: seq<Session>, w: World, m: Move): World
    requires Can(ss, w, m)
  {
    match m
    case Connect(i) => AfterConnect(ss, w, i)
    case Read(i) => AfterRead(w, i)
    case Work => AfterWork(addr, w)
  }

  function Begin(base: Table, ss: seq<Session>): World {
    World(seq(|ss|, _ => Client(0, Outside, [], 0)), Accepting, [], base, [])
  }

  /** The world after a list of moves; `None` when one of them was not possible. */
  function Reach(addr: Ip, ss: seq<Session>, base: Table, moves: seq<Move>): Option<World> {
    if moves == [] then Some(Begin(base, ss)) else
      match Reach(addr, ss, base, moves[..|moves| - 1])
      case None => None
      case Some(w) =>
        var m := moves[|moves| - 1];
        if Can(ss, w, m) then Some(After(addr, ss, w, m)) else None
  }

  // ---------- the invariant of the protocol ----------

  /** The node has the sender's connection in hand and has not answered both messages. */
  predicate Busy(w: World, i: nat) {
    w.server == Connected(i) || Working(w, i)
  }

  /** The node has taken up the sender's request. */
  predicate Working(w: World, i: nat) {
    (w.server.Executing? && w.server.i == i) || w.server == AwaitDarshana(i)
  }

  predicate Waiting(w: World, i: nat) {
    i in w.backlog || w.server == Connected(i)
  }

  ghost predicate ClientOk(ss: seq<Session>, w: World, i: nat)
    requires |w.clients| == |ss| && i < |ss|
  {
    var c := w.clients[i];
    && c.k <= 2 * |ss[i]| && (c.phase != Outside ==> c.k < 2 * |ss[i]|)
    && (i in w.backlog ==> !Busy(w, i))
    && match c.phase
       case Outside => c.toNode == [] && c.answers == 0 && i !in w.backlog && !Busy(w, i)
       case AwaitFirst =>
         if Waiting(w, i) then c.toNode == [Forwarding(Script(ss[i], c.k))] && c.answers == 0
         else Working(w, i) && c.toNode == [] && c.answers == 1
       case AwaitSecond =>
         && !Waiting(w, i)
         && if Working(w, i) then c.toNode == [Darshana] && c.answers == 0
            else c.toNode == [] && c.answers == 1
  }

  ghost predicate Queue(w: World) {
    && (forall a, b :: 0 <= a < b < |w.backlog| ==> w.backlog[a] != w.backlog[b])
    && (forall a :: 0 <= a < |w.backlog| ==> w.backlog[a] < |w.clients|)
    && (!w.server.Accepting? ==> w.server.i < |w.clients|)
  }

  ghost predicate ProtocolOk(ss: seq<Session>, w: World) {
    |w.clients| == |ss| && Queue(w) && forall i :: 0 <= i < |ss| ==> ClientOk(ss, w, i)
  }

  lemma ConnectKeeps(ss: seq<Session>, w: World, i: nat)
    requires ProtocolOk(ss, w) && CanConnect(ss, w, i)
    ensures ProtocolOk(ss, AfterConnect(ss, w, i))
  {
    var w' := AfterConnect(ss, w, i);
    assert ClientOk(ss, w, i);
    forall j | 0 <= j < |ss| ensures ClientOk(ss, w', j) {
      assert ClientOk(ss, w, j);
      assert j in w'.backlog <==> j in w.backlog || j == i;
    }
  }

  lemma ReadKeeps(ss: seq<Session>, w: World, i: nat)
    requires ProtocolOk(ss, w) && CanRead(w, i)
    ensures ProtocolOk(ss, AfterRead(w, i))
  {
    var w' := AfterRead(w, i);
    assert ClientOk(ss, w, i);
    forall j | 0 <= j < |ss| ensures ClientOk(ss, w', j) {
      assert ClientOk(ss, w, j);
    }
  }

  lemma WorkKeeps(addr: Ip, ss: seq<Session>, w: World)
    requires ProtocolOk(ss, w) && CanWork(w)
    ensures ProtocolOk(ss, AfterWork(addr, w))
  {
    var w' := AfterWork(addr, w);
    if w.server.Accepting? {
      Seqs.Uncons(w.backlog);
    }
    forall j | 0 <= j < |ss| ensures ClientOk(ss, w', j) {
      assert ClientOk(ss, w, j);
      if w.server.Accepting? {
        assert j in w.backlog <==> j == w.backlog[0] || j in w'.backlog;
      }
    }
  }

  lemma {:induction false} ProtocolHolds(addr: Ip, ss: seq<Session>, base: Table, moves: seq<Move>)
    requires Reach(addr, ss, base, moves).Some?
    ensures ProtocolOk(ss, Reach(addr, ss, base, moves).value)
  {
    if moves != [] {
      var earlier, m := moves[..|moves| - 1], moves[|moves| - 1];
      ProtocolHolds(addr, ss, base, earlier);
      var w := Reach(addr, ss, base, earlier).value;
      match m {
        case Connect(i) => ConnectKeeps(ss, w, i);
        case Read(i) => ReadKeeps(ss, w, i);
        case Work => WorkKeeps(addr, ss, w);
      }
    }
  }

  // ---------- no deadlock ----------

  ghost predicate Stuck(ss: seq<Session>, w: World) {
    forall m: Move :: !Can(ss, w, m)
  }

  ghost predicate Finished(ss: seq<Session>, w: World) {
    && |w.clients| == |ss| && w.server == Accepting && w.backlog == []
    && forall i :: 0 <= i < |ss| ==> w.clients[i].phase == Outside && w.clients[i].k == 2 * |ss[i]|
  }

  /** As long as a session is unfinished somebody can go on. */
  lemma SomebodyCanGo(ss: seq<Session>, w: World) returns (m: Move)
    requires ProtocolOk(ss, w) && !Finished(ss, w)
    ensures Can(ss, w, m)
  {
    if CanWork(w) {
      m := Work;
    } else if !w.server.Accepting? {
      assert ClientOk(ss, w, w.server.i);
      m := Read(w.server.i);
    } else {
      var i :| 0 <= i < |ss| && !(w.clients[i].phase == Outside && w.clients[i].k == 2 * |ss[i]|);
      assert ClientOk(ss, w, i);
      m := if w.clients[i].phase == Outside then Connect(i) else Read(i);
    }
  }

  /** Nobody ever waits for ever: the only worlds without a next step are those in which
      every sender has finished its session. */
  lemma OnlyFinishedIsStuck(addr: Ip, ss: seq<Session>, base: Table, moves: seq<Move>)
    requires Reach(addr, ss, base, moves).Some?
    ensures var w := Reach(addr, ss, base, moves).value; Stuck(ss, w) <==> Finished(ss, w)
  {
    ProtocolHolds(addr, ss, base, moves);
    var w := Reach(addr, ss, base, moves).value;
    if !Finished(ss, w) {
      var m := SomebodyCanGo(ss, w);
    }
  }

  // ---------- small steps amount to whole requests ----------

  /** The table once the node has executed what it has begun. */
  function Pending(w: World): Table {
    if w.server.Executing? then ExecAll(w.table, w.server.left) else w.table
  }

  /** How many requests of a sender the node has taken up. */
  function Taken(w: World, i: nat): nat
    requires i < |w.clients|
  {
    var c := w.clients[i];
    if c.phase == Outside || (c.phase == AwaitFirst && Waiting(w, i)) then c.k else c.k + 1
  }

  /** The run of whole requests that a world amounts to. */
  ghost predicate Amounts(addr: Ip, ss: seq<Session>, base: Table, w: World)
  {
    var run := Run(addr, ss, base, w.served);
    && |w.clients| == |ss|
    && run.Some? && |run.value.progress| == |ss|
    && run.value.table == Pending(w)
    && forall i :: 0 <= i < |ss| ==> run.value.progress[i] == Taken(w, i)
  }

  lemma SameTaken(addr: Ip, ss: seq<Session>, base: Table, w: World, w': World)
    requires Amounts(addr, ss, base, w) && |w'.clients| == |ss| && w'.served == w.served
    requires Pending(w') == Pending(w)
    requires forall i :: 0 <= i < |ss| ==> Taken(w', i) == Taken(w, i)
    ensures Amounts(addr, ss, base, w')
  {
  }

  lemma ClientMoveAmounts(addr: Ip, ss: seq<Session>, base: Table, w: World, m: Move)
    requires ProtocolOk(ss, w) && Amounts(addr, ss, base, w) && Can(ss, w, m) && m != Work
    ensures Amounts(addr, ss, base, After(addr, ss, w, m))
  {
    var w' := After(addr, ss, w, m);
    assert ClientOk(ss, w, m.i);
    forall j | 0 <= j < |ss| ensures Taken(w', j) == Taken(w, j) {
      assert ClientOk(ss, w, j);
      if m.Connect? {
        assert j in w'.backlog <==> j in w.backlog || j == m.i;
      }
    }
    SameTaken(addr, ss, base, w, w');
  }

  lemma WorkAmounts(addr: Ip, ss: seq<Session>, base: Table, w: World)
    requires ProtocolOk(ss, w) && Amounts(addr, ss, base, w) && CanWork(w) && !w.server.Connected?
    ensures Amounts(addr, ss, base, AfterWork(addr, w))
  {
    var w' := AfterWork(addr, w);
    if w.server.Accepting? {
      Seqs.Uncons(w.backlog);
    }
    forall j | 0 <= j < |ss| ensures Taken(w', j) == Taken(w, j) {
      assert ClientOk(ss, w, j);
      if w.server.Accepting? {
        assert j in w.backlog <==> j == w.backlog[0] || j in w'.backlog;
      }
    }
    SameTaken(addr, ss, base, w, w');
  }

  /** The step at which a request takes effect: the node reads it. */
  lemma TakingAmounts(addr: Ip, ss: seq<Session>, base: Table, w: World)
    requires ProtocolOk(ss, w) && Amounts(addr, ss, base, w) && CanWork(w) && w.server.Connected?
    ensures Amounts(addr, ss, base, AfterWork(addr, w))
  {
    var w', i := AfterWork(addr, w), w.server.i;
    var a := Run(addr, ss, base, w.served).value;
    Seqs.Snoc(w.served, i);
    assert ClientOk(ss, w, i);
    assert a.progress[i] == w.clients[i].k;
    assert Run(addr, ss, base, w'.served) == Some(Step(addr, ss, a, i));
    forall j | 0 <= j < |ss| ensures Step(addr, ss, a, i).progress[j] == Taken(w', j) {
      assert ClientOk(ss, w, j);
    }
  }

  lemma {:induction false} EveryRunAmounts(addr: Ip, ss: seq<Session>, base: Table, moves: seq<Move>)
    requires Reach(addr, ss, base, moves).Some?
    ensures Amounts(addr, ss, base, Reach(addr, ss, base, moves).value)
  {
    if moves != [] {
      var earlier, m := moves[..|moves| - 1], moves[|moves| - 1];
      EveryRunAmounts(addr, ss, base, earlier);
      ProtocolHolds(addr, ss, base, earlier);
      var w := Reach(addr, ss, base, earlier).value;
      if m != Work {
        ClientMoveAmounts(addr, ss, base, w, m);
      } else if w.server.Connected? {
        TakingAmounts(addr, ss, base, w);
      } else {
        WorkAmounts(addr, ss, base, w);
      }
    }
  }

  // ---------- what a returned call means ----------

  ghost predicate LeftIsOf(addr: Ip, ss: seq<Session>, w: World) {
    w.server.Executing? ==>
      && w.server.i < |ss|
      && forall n :: 0 <= n < |w.server.left| ==> Mine(addr, ss[w.server.i])(w.server.left[n].rule)
  }

  lemma {:induction false} LeftIsAlwaysOf(addr: Ip, ss: seq<Session>, base: Table, moves: seq<Move>)
    requires Reach(addr, ss, base, moves).Some?
    ensures LeftIsOf(addr, ss, Reach(addr, ss, base, moves).value)
  {
    if moves != [] {
      var earlier, m := moves[..|moves| - 1], moves[|moves| - 1];
      LeftIsAlwaysOf(addr, ss, base, earlier);
      ProtocolHolds(addr, ss, base, earlier);
      var w := Reach(addr, ss, base, earlier).value;
      if m == Work && w.server.Connected? {
        assert ClientOk(ss, w, w.server.i);
        ScriptIsMine(addr, ss[w.server.i], w.clients[w.server.i].k);
      }
    }
  }

  /** When a sender's call returns, what it asked for has been done: although the node
      answers before it acts, and may be in the middle of somebody else's request, the
      sender's rules in the node's table are exactly those of its live flows, in order. */
  lemma ReturnedCallIsInPlace(addr: Ip, ss: seq<Session>, base: Table, moves: seq<Move>, i: nat, c: Chain)
    requires Reach(addr, ss, base, moves).Some? && i < |ss|
    requires forall j :: 0 <= j < |ss| && j != i ==> Separate(ss[i], ss[j])
    requires forall d: Chain, r :: r in base.On(d) ==> !Mine(addr, ss[i])(r)
    ensures var w := Reach(addr, ss, base, moves).value;
      && |w.clients| == |ss| && w.clients[i].k <= 2 * |ss[i]|
      && (w.clients[i].phase == Outside ==>
           Keep(w.table.On(c), Mine(addr, ss[i])) == RulesOn(Setup(addr, Live(ss[i], w.clients[i].k)), c))
  {
    var w := Reach(addr, ss, base, moves).value;
    ProtocolHolds(addr, ss, base, moves);
    EveryRunAmounts(addr, ss, base, moves);
    LeftIsAlwaysOf(addr, ss, base, moves);
    assert ClientOk(ss, w, i);
    if w.clients[i].phase == Outside {
      SessionRulesInOrder(addr, ss, base, w.served, i, c);
      OthersDoNotShow(addr, ss, w, i);
      assert Keep(w.table.On(c), Mine(addr, ss[i])) == KeepTable(w.table, Mine(addr, ss[i])).On(c);
      assert Keep(Pending(w).On(c), Mine(addr, ss[i])) == KeepTable(Pending(w), Mine(addr, ss[i])).On(c);
    }
  }

  lemma OthersDoNotShow(addr: Ip, ss: seq<Session>, w: World, i: nat)
    requires i < |ss| && LeftIsOf(addr, ss, w) && !Working(w, i)
    requires forall j :: 0 <= j < |ss| && j != i ==> Separate(ss[i], ss[j])
    ensures KeepTable(Pending(w), Mine(addr, ss[i])) == KeepTable(w.table, Mine(addr, ss[i]))
  {
    if w.server.Executing? {
      var left, p := w.server.left, Mine(addr, ss[i]);
      forall n | 0 <= n < |left| ensures !p(left[n].rule) {
        RulesApart(addr, ss[i], ss[w.server.i], left[n].rule);
      }
      KeepRun(w.table, left, p);
      KeepCommandsAllOrNothing(left, p);
    }
  }

  /** A run that cannot go on has finished every session, and the node's table holds what
      it held at first: counted, and in order if none of the sessions' rules was there. */
  lemma StuckRunRestores(addr: Ip, ss: seq<Session>, base: Table, moves: seq<Move>)
    requires Reach(addr, ss, base, moves).Some? && Stuck(ss, Reach(addr, ss, base, moves).value)
    ensures var t := Reach(addr, ss, base, moves).value.table;
      && (forall c: Chain :: multiset(t.On(c)) == multiset(base.On(c)))
      && ((forall c: Chain, r :: r in base.On(c) ==> Foreign(addr, ss)(r)) ==> t == base)
  {
    OnlyFinishedIsStuck(addr, ss, base, moves);
    EveryRunAmounts(addr, ss, base, moves);
    FinishedRunRestores(addr, ss, base, Reach(addr, ss, base, moves).value.served);
  }

  // ---------- every run ends ----------

  function Total(xs: seq<nat>): nat {
    if xs == [] then 0 else xs[0] + Total(xs[1..])
  }

  lemma {:induction false} TotalUpdate(xs: seq<nat>, i: nat, x: nat)
    requires i < |xs|
    ensures Total(xs[i := x]) == Total(xs) - xs[i] + x
  {
    if i == 0 {
      assert xs[i := x][1..] == xs[1..];
    } else {
      assert xs[i := x][1..] == xs[1..][i - 1 := x];
      TotalUpdate(xs[1..], i - 1, x);
    }
  }

  lemma {:induction false} TotalBelow(xs: seq<nat>, ys: seq<nat>)
    requires |xs| == |ys| && forall i :: 0 <= i < |xs| ==> xs[i] <= ys[i]
    ensures Total(xs) <= Total(ys)
  {
    if xs != [] {
      TotalBelow(xs[1..], ys[1..]);
    }
  }

  function Lengths(ss: seq<Session>): (r: seq<nat>)
    ensures |r| == |ss| && forall i :: 0 <= i < |ss| ==> r[i] == 2 * |ss[i]|
  {
    seq(|ss|, i requires 0 <= i < |ss| => 2 * |ss[i]|)
  }

  /** The requests of all sessions. */
  function Requests(ss: seq<Session>): nat {
    Total(Lengths(ss))
  }

  /** The moves a sender has made. */
  function ClientMoves(c: Client): nat {
    3 * c.k + match c.phase case Outside => 0 case AwaitFirst => 1 case AwaitSecond => 2
  }

  function AllClientMoves(w: World): (r: seq<nat>)
    ensures |r| == |w.clients| && forall i :: 0 <= i < |r| ==> r[i] == ClientMoves(w.clients[i])
  {
    seq(|w.clients|, i requires 0 <= i < |w.clients| => ClientMoves(w.clients[i]))
  }

  /** The moves the node has made: nine for each request, of which some are still to come
      for the one in hand. */
  function NodeMoves(w: World): int {
    9 * |w.served| + match w.server
      case Accepting => 0
      case Connected(_) => 1
      case Executing(_, left) => -3 - |left|
      case AwaitDarshana(_) => -2
      case Monitoring(_) => -1
  }

  lemma MovesAdd(addr: Ip, ss: seq<Session>, w: World, m: Move)
    requires Can(ss, w, m) && ProtocolOk(ss, w)
    ensures var w' := After(addr, ss, w, m);
      Total(AllClientMoves(w')) + NodeMoves(w') == Total(AllClientMoves(w)) + NodeMoves(w) + 1
  {
    var w' := After(addr, ss, w, m);
    if m == Work {
      assert AllClientMoves(w') == AllClientMoves(w);
    } else {
      assert ClientOk(ss, w, m.i);
      var moves := ClientMoves(w'.clients[m.i]);
      assert AllClientMoves(w') == AllClientMoves(w)[m.i := moves];
      TotalUpdate(AllClientMoves(w), m.i, moves);
    }
  }

  lemma {:induction false} MovesCounted(addr: Ip, ss: seq<Session>, base: Table, moves: seq<Move>)
    requires Reach(addr, ss, base, moves).Some?
    ensures var w := Reach(addr, ss, base, moves).value; Total(AllClientMoves(w)) + NodeMoves(w) == |moves|
  {
    if moves == [] {
      var w := Begin(base, ss);
      NoMoves(AllClientMoves(w));
    } else {
      var earlier := moves[..|moves| - 1];
      MovesCounted(addr, ss, base, earlier);
      ProtocolHolds(addr, ss, base, earlier);
      MovesAdd(addr, ss, Reach(addr, ss, base, earlier).value, moves[|moves| - 1]);
    }
  }

  lemma {:induction false} NoMoves(xs: seq<nat>)
    requires forall i :: 0 <= i < |xs| ==> xs[i] == 0
    ensures Total(xs) == 0
  {
    if xs != [] {
      NoMoves(xs[1..]);
    }
  }

  lemma {:induction false} ServedIsProgress(addr: Ip, ss: seq<Session>, base: Table, schedule: seq<nat>)
    requires Run(addr, ss, base, schedule).Some?
    ensures Total(Run(addr, ss, base, schedule).value.progress) == |schedule|
  {
    if schedule == [] {
      NoMoves(Start(base, ss).progress);
    } else {
      var earlier, i := schedule[..|schedule| - 1], schedule[|schedule| - 1];
      ServedIsProgress(addr, ss, base, earlier);
      var st := Run(addr, ss, base, earlier).value;
      TotalUpdate(st.progress, i, st.progress[i] + 1);
    }
  }

  lemma {:induction false} TotalTriple(xs: seq<nat>, ys: seq<nat>)
    requires |xs| == |ys| && forall i :: 0 <= i < |xs| ==> xs[i] <= 3 * ys[i]
    ensures Total(xs) <= 3 * Total(ys)
    ensures (forall i :: 0 <= i < |xs| ==> xs[i] == 3 * ys[i]) ==> Total(xs) == 3 * Total(ys)
    ensures forall i :: 0 <= i < |xs| && xs[i] < 3 * ys[i] ==> Total(xs) < 3 * Total(ys)
  {
    if xs != [] {
      TotalTriple(xs[1..], ys[1..]);
      forall i | 0 < i < |xs| && xs[i] < 3 * ys[i] ensures Total(xs[1..]) < 3 * Total(ys[1..]) {
        assert xs[1..][i - 1] == xs[i] && ys[1..][i - 1] == ys[i];
      }
    }
  }

  lemma ClientMovesBounded(ss: seq<Session>, w: World)
    requires ProtocolOk(ss, w)
    ensures Total(AllClientMoves(w)) <= 3 * Requests(ss)
    ensures Finished(ss, w) ==> Total(AllClientMoves(w)) == 3 * Requests(ss)
    ensures w.server.Connected? ==> Total(AllClientMoves(w)) < 3 * Requests(ss)
  {
    var xs, ys := AllClientMoves(w), Lengths(ss);
    forall i | 0 <= i < |ss| ensures xs[i] <= 3 * ys[i] {
      assert ClientOk(ss, w, i);
    }
    TotalTriple(xs, ys);
    if w.server.Connected? {
      var i := w.server.i;
      assert ClientOk(ss, w, i) && Busy(w, i) && Waiting(w, i);
      assert xs[i] < 3 * ys[i];
    }
  }

  lemma ServedBounded(addr: Ip, ss: seq<Session>, base: Table, w: World)
    requires Amounts(addr, ss, base, w)
    ensures |w.served| <= Requests(ss)
    ensures Finished(ss, w) ==> |w.served| == Requests(ss)
  {
    ServedIsProgress(addr, ss, base, w.served);
    Progress(addr, ss, base, w.served);
    var progress := Run(addr, ss, base, w.served).value.progress;
    TotalBelow(progress, Lengths(ss));
    if Finished(ss, w) {
      TotalBelow(Lengths(ss), progress);
    }
  }

  /** Whatever the interleaving, twelve moves a request are all there can be, and a run of
      that length is a finished one: with the absence of deadlock, every run that goes on
      as long as it can ends with every session finished. */
  lemma RunsAreBounded(addr: Ip, ss: seq<Session>, base: Table, moves: seq<Move>)
    requires Reach(addr, ss, base, moves).Some?
    ensures |moves| <= 12 * Requests(ss)
    ensures |moves| == 12 * Requests(ss) <==> Finished(ss, Reach(addr, ss, base, moves).value)
  {
    MovesBounded(addr, ss, base, moves);
    var w := Reach(addr, ss, base, moves).value;
    if !Finished(ss, w) {
      ProtocolHolds(addr, ss, base, moves);
      var m := SomebodyCanGo(ss, w);
      Seqs.Snoc(moves, m);
      MovesBounded(addr, ss, base, moves + [m]);
    }
  }

  lemma MovesBounded(addr: Ip, ss: seq<Session>, base: Table, moves: seq<Move>)
    requires Reach(addr, ss, base, moves).Some?
    ensures |moves| <= 12 * Requests(ss)
    ensures Finished(ss, Reach(addr, ss, base, moves).value) ==> |moves| == 12 * Requests(ss)
  {
    var w := Reach(addr, ss, base, moves).value;
    ProtocolHolds(addr, ss, base, moves);
    EveryRunAmounts(addr, ss, base, moves);
    MovesCounted(addr, ss, base, moves);
    ClientMovesBounded(ss, w);
    ServedBounded(addr, ss, base, w);
    NodeMovesBounded(w);
  }

  lemma NodeMovesBounded(w: World)
    ensures NodeMoves(w) <= 9 * |w.served| + if w.server.Connected? then 1 else 0
  {
  }
}
