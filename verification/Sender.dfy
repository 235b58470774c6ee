/** The MACHETE sender: it provisions source addresses, sets up one path for each pair of
    source and destination, and takes all of them down again. */
module Sender {
  import opened Wrappers
  import opened Text
  import opened NatTable
  import opened Flows
  import opened WireFormats
  import opened LinkedList
  import opened MonitoredPaths
  import opened SenderSpec
  import OverlayNode
  import Seqs

  type Ip = NatTable.Ip

  class Sender {
    /** The addresses in use: sources, overlay nodes and destinations. */
    const plan: Plan
    /** The sender's own NAT table. */
    var table: Table
    /** The NAT tables of the overlay nodes that can be reached, by address. */
    var nodes: map<Ip, Table>

    /** Flows can be set up: there is a hop, every hop is reachable, addresses fit. */
    ghost predicate Ready()
      reads `nodes
    {
      plan.hops != [] && Sendable(plan) && Reachable(plan, nodes.Keys)
    }

    constructor (plan: Plan, table: Table, nodes: map<Ip, Table>)
      ensures this.plan == plan && this.table == table && this.nodes == nodes
    {
      this.plan, this.table, this.nodes := plan, table, nodes;
    }

    method SetSenderOwnRules(src: Ip, dst: Ip, hop: Ip)
      modifies `table
      ensures table == ExecAll(old(table), SenderCommands(Flow(src, hop, dst)))
      ensures table == Table(old(table).prerouting + [Rule(None, src, dst, Dnat(hop))],
                             old(table).output + [Rule(None, src, dst, Dnat(hop))], old(table).postrouting)
    {
      ghost var before := table;
      table := Exec(table, Append(Prerouting, Rule(None, src, dst, Dnat(hop))));
      table := Exec(table, Append(Output, Rule(None, src, dst, Dnat(hop))));
      ghost var rule := OwnRule(Flow(src, hop, dst));
      OverlayNode.ExecTwo(before, Append(Prerouting, rule), Append(Output, rule));
    }

    method RemoveSenderOwnRules(src: Ip, dst: Ip, hop: Ip)
      modifies `table
      ensures table == ExecAll(old(table), Undo(SenderCommands(Flow(src, hop, dst))))
    {
      ghost var before := table;
      table := Exec(table, Delete(Prerouting, Rule(None, src, dst, Dnat(hop))));
      table := Exec(table, Delete(Output, Rule(None, src, dst, Dnat(hop))));
      ghost var cs := SenderCommands(Flow(src, hop, dst));
      OverlayNode.ExecTwo(before, Delete(Prerouting, cs[0].rule), Delete(Output, cs[1].rule));
      UndoNamesTheSameRules(cs, Output);
      assert Undo(cs) == [Delete(Prerouting, cs[0].rule), Delete(Output, cs[1].rule)];
    }

    /** One connection, served by the node at `hop` in one step: the forwarding rule
        message and the answer to it. */
    method SetupOverlayNode(hop: Ip, src: Ip, dst: Ip, port: nat, rule: int)
      requires hop in nodes && IsAddress(src) && IsAddress(dst)
      modifies `nodes
      ensures var cs := NodeCommands(hop, src, dst, Decimal(port));
        nodes == OnNode(old(nodes), hop, if rule == 1 then cs else Undo(cs))
    {
      var spec := ForwardSpec(src, dst, port, rule);
      OverlayNode.SpecMeansRequest(src, dst, port, rule);
      var node := new OverlayNode.Node(hop, nodes[hop]);
      var _ := node.ReceiveForwardingRule(spec);
      nodes := nodes[hop := node.table];
    }

    /** The addresses that one pass of the nested loops picks: those of the flow whose turn
        it is. */
    method Pick(i: nat, j: nat) returns (src: Ip, dst: Ip, hop: Ip)
      requires Ready() && i < |plan.srcs| && j < |plan.dsts|
      ensures Next(plan, i, j) == Flow(src, hop, dst)
      ensures IsAddress(src) && IsAddress(dst) && hop in nodes
    {
      var hopIndex := (i * |plan.dsts| + j) % |plan.hops|;
      src, dst, hop := plan.srcs[i], plan.dsts[j], plan.hops[hopIndex];
      DoneIsFirst(plan, i, j);
    }

    /** Everything the setup touches. */
    ghost function Look(monitored: List<PathStatus>): World
      reads `table, `nodes, monitored`contents
    {
      World(table, nodes, monitored.contents)
    }

    /** What one pass of the setup loops does with the addresses it has picked. */
    method SetupFlow(src: Ip, dst: Ip, hop: Ip, port: nat, monitored: List<PathStatus>)
      requires monitored.Valid() && hop in nodes && IsAddress(src) && IsAddress(dst)
      modifies `table, `nodes, monitored, monitored.repr
      ensures monitored.Valid() && fresh(monitored.repr - old(monitored.repr))
      ensures Look(monitored) == WithFlow(old(Look(monitored)), Flow(src, hop, dst), port)
      ensures nodes.Keys == old(nodes).Keys
    {
      SetSenderOwnRules(src, dst, hop);
      SetupOverlayNode(hop, src, dst, port, 1);
      monitored.InsertEnd(NewPath(src, hop, dst));
    }

    /** One pass of the setup loops. */
    method SetupPair(i: nat, j: nat, port: nat, monitored: List<PathStatus>, ghost before: World)
      requires Ready() && monitored.Valid() && i < |plan.srcs| && j < |plan.dsts|
      requires SetUpTo(i, j, port, plan, before, Look(monitored))
      modifies `table, `nodes, monitored, monitored.repr
      ensures monitored.Valid() && fresh(monitored.repr - old(monitored.repr)) && nodes.Keys == old(nodes).Keys
      ensures SetUpTo(i, j + 1, port, plan, before, Look(monitored))
    {
      var src, dst, hop := Pick(i, j);
      SetupFlow(src, dst, hop, port, monitored);
      Seqs.Snoc(Done(plan, i, j), Next(plan, i, j));
    }

    /** Installs, for every source and destination, the sender's own rules and the rules
        of the overlay node whose turn it is, and registers the path as monitored. */
    method SetupEachFlow(port: nat, monitored: List<PathStatus>)
      requires Ready() && monitored.Valid()
      modifies `table, `nodes, monitored, monitored.repr
      ensures nodes.Keys == old(nodes).Keys
      ensures monitored.Valid() && fresh(monitored.repr - old(monitored.repr))
      ensures Look(monitored) == AfterSetup(old(Look(monitored)), TheFlows(), port)
    {
      ghost var before := Look(monitored);
      for i := 0 to |plan.srcs|
        invariant monitored.Valid() && fresh(monitored.repr - old(monitored.repr)) && nodes.Keys == old(nodes).Keys
        invariant SetUpTo(i, 0, port, plan, before, Look(monitored))
      {
        for j := 0 to |plan.dsts|
          invariant monitored.Valid() && fresh(monitored.repr - old(monitored.repr)) && nodes.Keys == old(nodes).Keys
          invariant SetUpTo(i, j, port, plan, before, Look(monitored))
        {
          SetupPair(i, j, port, monitored, before);
        }
        RowDone(i, port, plan, before, Look(monitored));
      }
    }

    /** The setup, as seen by the rest of the process: only the tables matter. */
    method SetupTables(port: nat, monitored: List<PathStatus>)
      requires Ready() && monitored.Valid()
      modifies `table, `nodes, monitored, monitored.repr
      ensures Ready()
      ensures var up := AfterSetup(World(old(table), old(nodes), []), TheFlows(), port);
        table == up.own && nodes == up.nodes
    {
      ghost var before := Look(monitored);
      SetupEachFlow(port, monitored);
      PathsDoNotMatter(before, [], TheFlows(), port);
    }

    method CleanPairOnNode(i: nat, j: nat, port: nat, ghost before: map<Ip, Table>)
      requires Ready() && i < |plan.srcs| && j < |plan.dsts|
      requires NodesCleanedUpTo(i, j, port, plan, before, nodes)
      modifies `nodes
      ensures nodes.Keys == old(nodes).Keys
      ensures NodesCleanedUpTo(i, j + 1, port, plan, before, nodes)
    {
      var src, dst, hop := Pick(i, j);
      SetupOverlayNode(hop, src, dst, port, 0);
      Seqs.Snoc(Done(plan, i, j), Next(plan, i, j));
    }

    method CleanPairOnSender(i: nat, j: nat, ghost before: Table)
      requires Ready() && i < |plan.srcs| && j < |plan.dsts|
      requires OwnCleanedUpTo(i, j, plan, before, table)
      modifies `table
      ensures OwnCleanedUpTo(i, j + 1, plan, before, table)
    {
      var src, dst, hop := Pick(i, j);
      RemoveSenderOwnRules(src, dst, hop);
      Seqs.Snoc(Done(plan, i, j), Next(plan, i, j));
    }

    /** The first pass of the teardown: a removal message for every flow. */
    method CleanNodes(port: nat)
      requires Ready()
      modifies `nodes
      ensures nodes.Keys == old(nodes).Keys
      ensures NodesCleanedUpTo(|plan.srcs|, 0, port, plan, old(nodes), nodes)
    {
      ghost var before := nodes;
      for i := 0 to |plan.srcs|
        invariant nodes.Keys == old(nodes).Keys
        invariant NodesCleanedUpTo(i, 0, port, plan, before, nodes)
      {
        for j := 0 to |plan.dsts|
          invariant nodes.Keys == old(nodes).Keys
          invariant NodesCleanedUpTo(i, j, port, plan, before, nodes)
        {
          CleanPairOnNode(i, j, port, before);
        }
        CleanedRow(i, port, plan, before, nodes);
      }
    }

    /** The second pass: the sender's own rules. */
    method CleanOwn()
      requires Ready()
      modifies `table
      ensures OwnCleanedUpTo(|plan.srcs|, 0, plan, old(table), table)
    {
      ghost var before := table;
      for i := 0 to |plan.srcs|
        invariant OwnCleanedUpTo(i, 0, plan, before, table)
      {
        for j := 0 to |plan.dsts|
          invariant OwnCleanedUpTo(i, j, plan, before, table)
        {
          CleanPairOnSender(i, j, before);
        }
        OwnCleanedRow(i, plan, before, table);
      }
    }

    /** Removes every rule of the session: from the overlay nodes, then from the sender. */
    method CleanRules(port: nat)
      requires Ready()
      modifies `table, `nodes
      ensures Ready()
      ensures table == OwnCleaned(old(table), TheFlows()) && nodes == NodesCleaned(old(nodes), TheFlows(), port)
    {
      CleanNodes(port);
      CleanOwn();
    }

    /** All flows of the session, in order. */
    ghost function TheFlows(): seq<Flow>
      requires plan.hops != []
    {
      AllFlows(plan)
    }
  }

  /** The nested loops can be about to deal with pair (i, j). */
  ghost predicate Position(i: nat, j: nat, plan: Plan) {
    plan.hops != [] && i <= |plan.srcs| && j <= |plan.dsts| && (i == |plan.srcs| ==> j == 0)
  }

  ghost predicate NodesCleanedUpTo(i: nat, j: nat, port: nat, plan: Plan, before: map<Ip, Table>, now: map<Ip, Table>) {
    Position(i, j, plan) && now == NodesCleaned(before, Done(plan, i, j), port)
  }

  ghost predicate OwnCleanedUpTo(i: nat, j: nat, plan: Plan, before: Table, now: Table) {
    Position(i, j, plan) && now == OwnCleaned(before, Done(plan, i, j))
  }

  lemma CleanedRow(i: nat, port: nat, plan: Plan, ts: map<Ip, Table>, ts': map<Ip, Table>)
    requires i < |plan.srcs| && NodesCleanedUpTo(i, |plan.dsts|, port, plan, ts, ts')
    ensures NodesCleanedUpTo(i + 1, 0, port, plan, ts, ts')
  {
  }

  lemma OwnCleanedRow(i: nat, plan: Plan, t: Table, t': Table)
    requires i < |plan.srcs| && OwnCleanedUpTo(i, |plan.dsts|, plan, t, t')
    ensures OwnCleanedUpTo(i + 1, 0, plan, t, t')
  {
  }

  /** World `w` is `before` with the flows that precede pair (i, j) brought up. */
  ghost predicate SetUpTo(i: nat, j: nat, port: nat, plan: Plan, before: World, w: World) {
    Position(i, j, plan) && w == AfterSetup(before, Done(plan, i, j), port)
  }

  lemma RowDone(i: nat, port: nat, plan: Plan, before: World, w: World)
    requires i < |plan.srcs| && SetUpTo(i, |plan.dsts|, port, plan, before, w)
    ensures SetUpTo(i + 1, 0, port, plan, before, w)
  {
  }
}
