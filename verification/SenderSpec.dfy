/** What a sender's setup and teardown do to the NAT tables involved, and why the second
    undoes the first. */
module SenderSpec {
  import opened Wrappers
  import opened Text
  import opened NatTable
  import opened Flows
  import opened WireFormats
  import opened MonitoredPaths
  import Seqs

  type Ip = NatTable.Ip

  /** Every address is one that its buffer and the rule messages can carry. */
  predicate Sendable(plan: Plan) {
    && (forall i :: 0 <= i < |plan.srcs| ==> IsAddress(plan.srcs[i]))
    && (forall i :: 0 <= i < |plan.dsts| ==> IsAddress(plan.dsts[i]))
  }

  predicate Reachable(plan: Plan, nodes: set<Ip>) {
    forall i :: 0 <= i < |plan.hops| ==> plan.hops[i] in nodes
  }

  /** The sender's table, the tables of the nodes, and the list of monitored paths. */
  datatype World = World(own: Table, nodes: map<Ip, Table>, paths: seq<PathStatus>)

  function OnNode(nodes: map<Ip, Table>, node: Ip, cs: seq<Command>): map<Ip, Table> {
    if node in nodes then nodes[node := ExecAll(nodes[node], cs)] else nodes
  }

  function CommandsOf(f: Flow, port: nat): (cs: seq<Command>)
    ensures Appends(cs)
  {
    NodeCommands(f.hop, f.src, f.dst, Decimal(port))
  }

  function PathOf(f: Flow): PathStatus {
    NewPath(f.src, f.hop, f.dst)
  }

  function WithFlow(w: World, f: Flow, port: nat): World {
    World(ExecAll(w.own, SenderCommands(f)), OnNode(w.nodes, f.hop, CommandsOf(f, port)), w.paths + [PathOf(f)])
  }

  /** A list of flows, brought up one after the other. */
  function AfterSetup(w: World, fs: seq<Flow>, port: nat): World {
    if fs == [] then w else WithFlow(AfterSetup(w, fs[..|fs| - 1], port), fs[|fs| - 1], port)
  }

  /** The nodes after the removal messages for a list of flows. */
  function NodesCleaned(nodes: map<Ip, Table>, fs: seq<Flow>, port: nat): map<Ip, Table> {
    if fs == [] then nodes else
      var f := fs[|fs| - 1];
      OnNode(NodesCleaned(nodes, fs[..|fs| - 1], port), f.hop, Undo(CommandsOf(f, port)))
  }

  /** The sender's table after it has removed its own rules for a list of flows. */
  function OwnCleaned(t: Table, fs: seq<Flow>): Table {
    if fs == [] then t else ExecAll(OwnCleaned(t, fs[..|fs| - 1]), Undo(SenderCommands(fs[|fs| - 1])))
  }

  function Paths(fs: seq<Flow>): seq<PathStatus> {
    if fs == [] then [] else Paths(fs[..|fs| - 1]) + [PathOf(fs[|fs| - 1])]
  }

  /** The monitored paths have no influence on the tables. */
  lemma {:induction false} PathsDoNotMatter(w: World, ps: seq<PathStatus>, fs: seq<Flow>, port: nat)
    ensures var a, b := AfterSetup(w, fs, port), AfterSetup(w.(paths := ps), fs, port);
      a.own == b.own && a.nodes == b.nodes
  {
    if fs != [] {
      PathsDoNotMatter(w, ps, fs[..|fs| - 1], port);
    }
  }

  /** The path registered for a flow: unflagged, without times, relayed by the flow's hop. */
  lemma {:induction false} PathsAre(fs: seq<Flow>, k: nat)
    requires k < |fs|
    ensures |Paths(fs)| == |fs|
    ensures Paths(fs)[k] == PathStatus(None, None, fs[k].src, fs[k].hop, fs[k].dst, false)
  {
    PathCount(fs);
    var n := |fs| - 1;
    PathCount(fs[..n]);
    if k < n {
      PathsAre(fs[..n], k);
    }
  }

  lemma {:induction false} PathCount(fs: seq<Flow>)
    ensures |Paths(fs)| == |fs|
  {
    if fs != [] {
      PathCount(fs[..|fs| - 1]);
    }
  }

  /** After a setup that began with no monitored path, entry k is that of the k-th flow. */
  lemma RegisteredPaths(w: World, fs: seq<Flow>, port: nat, k: nat)
    requires w.paths == [] && k < |fs|
    ensures var paths := AfterSetup(w, fs, port).paths;
      && |paths| == |fs|
      && paths[k] == PathStatus(None, None, fs[k].src, fs[k].hop, fs[k].dst, false)
  {
    SetupOfOwnTable(w, fs, port);
    Seqs.NilLeft(Paths(fs));
    PathsAre(fs, k);
  }

  // ---------- the same, table by table ----------

  lemma {:induction false} SetupOfOwnTable(w: World, fs: seq<Flow>, port: nat)
    ensures AfterSetup(w, fs, port).own == ExecAll(w.own, SenderSetup(fs))
    ensures AfterSetup(w, fs, port).paths == w.paths + Paths(fs)
  {
    if fs == [] {
      Seqs.NilRight(w.paths);
    } else {
      var earlier, f := fs[..|fs| - 1], fs[|fs| - 1];
      SetupOfOwnTable(w, earlier, port);
      ExecAllConcat(w.own, SenderSetup(earlier), SenderCommands(f));
      Seqs.Assoc(w.paths, Paths(earlier), [PathOf(f)]);
    }
  }

  lemma {:induction false} SetupOfNode(w: World, fs: seq<Flow>, port: nat, a: Ip)
    requires a in w.nodes
    ensures AfterSetup(w, fs, port).nodes.Keys == w.nodes.Keys
    ensures AfterSetup(w, fs, port).nodes[a] == ExecAll(w.nodes[a], NodeSetup(a, fs, Decimal(port)))
  {
    if fs != [] {
      var earlier, f := fs[..|fs| - 1], fs[|fs| - 1];
      SetupOfNode(w, earlier, port, a);
      if f.hop == a {
        ExecAllConcat(w.nodes[a], NodeSetup(a, earlier, Decimal(port)), CommandsOf(f, port));
      }
    }
  }

  lemma {:induction false} CleaningOfNode(nodes: map<Ip, Table>, fs: seq<Flow>, port: nat, a: Ip)
    requires a in nodes
    ensures NodesCleaned(nodes, fs, port).Keys == nodes.Keys
    ensures NodesCleaned(nodes, fs, port)[a] == ExecAll(nodes[a], Undo(NodeSetup(a, fs, Decimal(port))))
  {
    if fs != [] {
      var earlier, f := fs[..|fs| - 1], fs[|fs| - 1];
      CleaningOfNode(nodes, earlier, port, a);
      if f.hop == a {
        UndoConcat(NodeSetup(a, earlier, Decimal(port)), CommandsOf(f, port));
        ExecAllConcat(nodes[a], Undo(NodeSetup(a, earlier, Decimal(port))), Undo(CommandsOf(f, port)));
      }
    }
  }

  lemma {:induction false} CleaningOfOwnTable(t: Table, fs: seq<Flow>)
    ensures OwnCleaned(t, fs) == ExecAll(t, Undo(SenderSetup(fs)))
  {
    if fs != [] {
      var earlier, f := fs[..|fs| - 1], fs[|fs| - 1];
      CleaningOfOwnTable(t, earlier);
      UndoConcat(SenderSetup(earlier), SenderCommands(f));
      ExecAllConcat(t, Undo(SenderSetup(earlier)), Undo(SenderCommands(f)));
    }
  }

  // ---------- the round trip ----------

  /** None of the rules of `cs` is in the table. */
  ghost predicate HoldsNone(t: Table, cs: seq<Command>) {
    forall i :: 0 <= i < |cs| ==> cs[i].rule !in t.On(cs[i].chain)
  }

  /** What a teardown gives back: on every chain the same rules, counted; and the very same
      chains when none of the rules of `cs` was there at first. */
  ghost predicate Restored(before: Table, after: Table, cs: seq<Command>) {
    && (forall c: Chain :: multiset(after.On(c)) == multiset(before.On(c)))
    && (HoldsNone(before, cs) ==> after == before)
  }

  lemma UndoRestores(before: Table, cs: seq<Command>)
    requires Appends(cs)
    ensures Restored(before, ExecAll(ExecAll(before, cs), Undo(cs)), cs)
  {
    forall c: Chain ensures multiset(ExecAll(ExecAll(before, cs), Undo(cs)).On(c)) == multiset(before.On(c)) {
      UndoRestoresRules(before, cs, c);
    }
    if HoldsNone(before, cs) {
      UndoRestoresChains(before, cs);
    }
  }

  /** Every table of the world is restored. */
  ghost predicate AllRestored(before: World, own: Table, nodes: map<Ip, Table>, fs: seq<Flow>, port: nat) {
    && Restored(before.own, own, SenderSetup(fs))
    && nodes.Keys == before.nodes.Keys
    && forall a :: a in nodes ==> Restored(before.nodes[a], nodes[a], NodeSetup(a, fs, Decimal(port)))
  }

  /** Setup followed by teardown, the nodes first and the sender last, restores the table
      of the sender and of every node, whatever they held and however flows share hops. */
  lemma TeardownUndoesSetup(w: World, fs: seq<Flow>, port: nat)
    ensures var up := AfterSetup(w, fs, port);
      AllRestored(w, OwnCleaned(up.own, fs), NodesCleaned(up.nodes, fs, port), fs, port)
  {
    var up := AfterSetup(w, fs, port);
    SetupOfOwnTable(w, fs, port);
    CleaningOfOwnTable(up.own, fs);
    UndoRestores(w.own, SenderSetup(fs));
    SameNodes(w, fs, port);
    forall a | a in w.nodes
      ensures Restored(w.nodes[a], NodesCleaned(up.nodes, fs, port)[a], NodeSetup(a, fs, Decimal(port)))
    {
      SetupOfNode(w, fs, port, a);
      CleaningOfNode(up.nodes, fs, port, a);
      UndoRestores(w.nodes[a], NodeSetup(a, fs, Decimal(port)));
    }
  }

  lemma {:induction false} SameNodes(w: World, fs: seq<Flow>, port: nat)
    ensures AfterSetup(w, fs, port).nodes.Keys == w.nodes.Keys
    ensures NodesCleaned(AfterSetup(w, fs, port).nodes, fs, port).Keys == w.nodes.Keys
  {
    SetupKeepsNodes(w, fs, port);
    CleaningKeepsNodes(AfterSetup(w, fs, port).nodes, fs, port);
  }

  lemma {:induction false} SetupKeepsNodes(w: World, fs: seq<Flow>, port: nat)
    ensures AfterSetup(w, fs, port).nodes.Keys == w.nodes.Keys
  {
    if fs != [] {
      SetupKeepsNodes(w, fs[..|fs| - 1], port);
    }
  }

  lemma {:induction false} CleaningKeepsNodes(nodes: map<Ip, Table>, fs: seq<Flow>, port: nat)
    ensures NodesCleaned(nodes, fs, port).Keys == nodes.Keys
  {
    if fs != [] {
      CleaningKeepsNodes(nodes, fs[..|fs| - 1], port);
    }
  }
}
