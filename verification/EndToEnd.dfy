/** The sender's setup, as the nested loops perform it, and the packets of a session. */
module EndToEnd {
  import opened NatTable
  import opened Flows
  import opened SenderSpec
  import opened Forwarding
  import opened Probing
  import opened Arithmetic
  import Seqs
  import Sessions
  import Text

  type Ip = NatTable.Ip

  lemma TablesAfterSetup(w: World, plan: Plan, port: nat, node: Ip)
    requires plan.hops != [] && node in w.nodes
    ensures var up, before := AfterSetup(w, AllFlows(plan), port), Before(w.own, w.nodes);
      && up.own == SenderAfter(before, plan)
      && node in up.nodes && up.nodes[node] == NodeAfter(before, plan, port, node)
  {
    DoneIsFirst(plan, |plan.srcs|, 0);
    SetupOfOwnTable(w, AllFlows(plan), port);
    SetupOfNode(w, AllFlows(plan), port, node);
  }

  /** After the setup a segment from srcs[i] for dsts[j] is sent to the hop of that pair,
      and what leaves the hop comes from the hop and is for the destination of the first
      column of row i with that hop: for dsts[j mod numHops] if the hops are distinct. */
  lemma SetupDelivers(w: World, plan: Plan, port: nat, i: nat, j: nat)
    requires ProperPlan(plan) && Unclaimed(Before(w.own, w.nodes), plan, port)
    requires i < |plan.srcs| && j < |plan.dsts|
    ensures var up, h := AfterSetup(w, AllFlows(plan), port), HopOf(plan, i, j);
      var sent := Emit(up.own, Packet(plan.srcs[i], plan.dsts[j], port));
      && sent == Packet(plan.srcs[i], h, port)
      && h in up.nodes && Relay(up.nodes[h], sent) == Packet(h, plan.dsts[FirstColumn(plan, i, j)], port)
    ensures Seqs.Distinct(plan.hops) ==> FirstColumn(plan, i, j) == j % |plan.hops|
  {
    var h := HopOf(plan, i, j);
    assert h in plan.hops;
    TablesAfterSetup(w, plan, port, h);
    WhereFlowsGo(Before(w.own, w.nodes), plan, port, i, j);
    if Seqs.Distinct(plan.hops) {
      FirstColumnOfDistinctHops(plan, i, j);
    }
  }

  /** After the teardown the session has left no trace in where packets go: if none of its
      rules was there before, every packet is treated as it was before the setup. */
  lemma TeardownForgets(w: World, plan: Plan, port: nat, node: Ip, p: Packet)
    requires plan.hops != [] && node in w.nodes
    requires HoldsNone(w.own, SenderSetup(AllFlows(plan)))
    requires HoldsNone(w.nodes[node], NodeSetup(node, AllFlows(plan), Text.Decimal(port)))
    ensures var fs := AllFlows(plan);
      var up := AfterSetup(w, fs, port);
      var down := NodesCleaned(up.nodes, fs, port);
      && Emit(OwnCleaned(up.own, fs), p) == Emit(w.own, p)
      && node in down && Relay(down[node], p) == Relay(w.nodes[node], p)
  {
    TeardownUndoesSetup(w, AllFlows(plan), port);
  }

  // ---------- the sender as one of the sessions of a node ----------

  /** At every node the setup and the clean-up of a sender are the first and the second half
      of the requests of one session: all that is proved of sessions is about this sender. */
  lemma SenderIsASession(w: World, fs: seq<Flow>, port: nat, node: Ip)
    requires node in w.nodes
    ensures var s, t, up := Sessions.RelayedBy(node, fs, Text.Decimal(port)), w.nodes[node], AfterSetup(w, fs, port).nodes;
      var down := NodesCleaned(up, fs, port);
      && node in up && up[node] == ExecAll(t, Sessions.Solo(node, s, |s|))
      && node in down && down[node] == ExecAll(t, Sessions.Solo(node, s, 2 * |s|))
  {
    var text := Text.Decimal(port);
    var cs := NodeSetup(node, fs, text);
    SetupOfNode(w, fs, port, node);
    CleaningKeepsNodes(AfterSetup(w, fs, port).nodes, fs, port);
    CleaningOfNode(AfterSetup(w, fs, port).nodes, fs, port, node);
    Sessions.NodeSetupIsSetup(node, fs, text);
    Sessions.WholeSession(node, Sessions.RelayedBy(node, fs, text));
    ExecAllConcat(w.nodes[node], cs, Undo(cs));
  }

  // ---------- what probing the nodes means for delivery ----------

  /** The hops of the plan are what the probing loop has left of the nodes it was given. */
  ghost predicate Probed(responds: Ip -> bool, numHops: nat, found: seq<Ip>, plan: Plan) {
    && 1 <= numHops <= |found| && Passable(responds, numHops, found)
    && Seqs.Distinct(Read(numHops, found))
    && plan.hops == Kept(responds, found, numHops)[..numHops]
  }

  /** If none but the last of the nodes was silent, all pairs are delivered exactly when
      there are no more destinations than nodes. */
  lemma ProbedNodesDeliver(responds: Ip -> bool, numHops: nat, found: seq<Ip>, before: Before, plan: Plan, port: nat)
    requires Probed(responds, numHops, found, plan) && plan.srcs != []
    requires ProperPlan(plan) && Unclaimed(before, plan, port)
    requires forall k :: 0 <= k < numHops - 1 ==> responds(found[k])
    ensures AllDelivered(before, plan, port) <==> |plan.dsts| <= numHops
  {
    KeptDistinctIff(responds, numHops, found);
    AllDeliveredIffEnoughHops(before, plan, port);
  }

  /** The column before one with hop number k + 1 has hop number k. */
  lemma PreviousHop(plan: Plan, i: nat, j: nat, k: nat)
    requires plan.hops != [] && j > 0 && (i * |plan.dsts| + j) % |plan.hops| == k + 1
    ensures k + 1 < |plan.hops|
    ensures HopOf(plan, i, j) == plan.hops[k + 1] && HopOf(plan, i, j - 1) == plan.hops[k]
  {
    var n := i * |plan.dsts| + (j - 1);
    Successor(n, |plan.hops|);
    assert n + 1 == i * |plan.dsts| + j;
  }

  /** A silent node in front of another one costs deliveries: of two neighbouring columns of
      a row that get these two nodes, the second is not delivered to its destination. */
  lemma SilentNodeMisdelivers(responds: Ip -> bool, numHops: nat, found: seq<Ip>, before: Before, plan: Plan, port: nat,
                              k: nat, i: nat, j: nat)
    requires Probed(responds, numHops, found, plan) && k + 1 < numHops && !responds(found[k])
    requires ProperPlan(plan) && Unclaimed(before, plan, port)
    requires i < |plan.srcs| && 0 < j < |plan.dsts| && (i * |plan.dsts| + j) % numHops == k + 1
    ensures !Delivered(before, plan, port, i, j)
  {
    SilentLeavesDouble(responds, numHops, found, k);
    PreviousHop(plan, i, j, k);
    DoubleIsNotDelivered(before, plan, port, i, j - 1, j);
  }

  lemma DoubleIsNotDelivered(before: Before, plan: Plan, port: nat, i: nat, m: nat, j: nat)
    requires ProperPlan(plan) && Unclaimed(before, plan, port)
    requires i < |plan.srcs| && m < j < |plan.dsts| && HopOf(plan, i, m) == HopOf(plan, i, j)
    ensures !Delivered(before, plan, port, i, j)
  {
    DeliveredIff(before, plan, port, i, j);
  }
}
