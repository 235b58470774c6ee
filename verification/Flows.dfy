/** Which flow uses which overlay node, and which NAT commands set a flow up. */
module Flows {
  import opened Wrappers
  import opened NatTable
  import opened Arithmetic
  import Seqs

  /** One path: traffic of `src` for `dst` relayed by `hop`. */
  datatype Flow = Flow(src: Ip, hop: Ip, dst: Ip)

  /** The addresses in use: `srcs[..numSrcs]`, `hops[..numHops]` and `dsts[..numDsts]`. */
  datatype Plan = Plan(srcs: seq<Ip>, hops: seq<Ip>, dsts: seq<Ip>) {
    function Size(): nat {
      |srcs| * |dsts|
    }

    /** The flow of iteration `k == i * numDsts + j` of the nested loops. */
    function At(k: nat): Flow
      requires hops != [] && k < Size()
    {
      QuotientBelow(k, |srcs|, |dsts|);
      Flow(srcs[k / |dsts|], hops[k % |hops|], dsts[k % |dsts|])
    }

    function First(n: nat): (fs: seq<Flow>)
      requires hops != [] && n <= Size()
      ensures |fs| == n
    {
      if n == 0 then [] else First(n - 1) + [At(n - 1)]
    }
  }

  /** The flows that the nested loops have dealt with when the outer loop is at `i` and the
      inner one at `j`; the hop is picked by how many flows came before. */
  function Done(plan: Plan, i: nat, j: nat): seq<Flow>
    requires plan.hops != [] && i <= |plan.srcs| && j <= |plan.dsts| && (i == |plan.srcs| ==> j == 0)
    decreases i, j, 0
  {
    if j > 0 then Done(plan, i, j - 1) + [Next(plan, i, j - 1)]
    else if i > 0 then Done(plan, i - 1, |plan.dsts|)
    else []
  }

  function Next(plan: Plan, i: nat, j: nat): Flow
    requires plan.hops != [] && i < |plan.srcs| && j < |plan.dsts|
    decreases i, j, 1
  {
    Flow(plan.srcs[i], plan.hops[|Done(plan, i, j)| % |plan.hops|], plan.dsts[j])
  }

  /** All flows of a session, in the order of the nested loops. */
  function AllFlows(plan: Plan): seq<Flow>
    requires plan.hops != []
  {
    Done(plan, |plan.srcs|, 0)
  }

  /** The loops deal with the flows in the order of their numbers i * numDsts + j. */
  lemma {:induction false} DoneIsFirst(plan: Plan, i: nat, j: nat)
    requires plan.hops != [] && i <= |plan.srcs| && j <= |plan.dsts| && (i == |plan.srcs| ==> j == 0)
    ensures i * |plan.dsts| + j <= plan.Size()
    ensures Done(plan, i, j) == plan.First(i * |plan.dsts| + j)
    decreases i, j
  {
    if j > 0 {
      DoneIsFirst(plan, i, j - 1);
      CellInRange(i, j - 1, |plan.srcs|, |plan.dsts|);
      DivModUnique(i * |plan.dsts| + (j - 1), i, j - 1, |plan.dsts|);
    } else if i > 0 {
      DoneIsFirst(plan, i - 1, |plan.dsts|);
      assert (i - 1) * |plan.dsts| + |plan.dsts| == i * |plan.dsts|;
    }
  }

  lemma {:induction false} FirstAt(plan: Plan, n: nat, k: nat)
    requires plan.hops != [] && k < n <= plan.Size()
    ensures plan.First(n)[k] == plan.At(k)
  {
    if k < n - 1 {
      FirstAt(plan, n - 1, k);
    }
  }

  // ---------- commands ----------

  /** The rule the sender installs on both PREROUTING and OUTPUT for a flow. */
  function OwnRule(f: Flow): Rule {
    Rule(None, f.src, f.dst, Dnat(f.hop))
  }

  function SenderCommands(f: Flow): seq<Command> {
    [Append(Prerouting, OwnRule(f)), Append(Output, OwnRule(f))]
  }

  function ForwardIn(node: Ip, src: Ip, dst: Ip, port: string): Rule {
    Rule(Some(port), src, node, Dnat(dst))
  }

  function ForwardOut(node: Ip, src: Ip, dst: Ip): Rule {
    Rule(None, src, dst, Snat(node))
  }

  /** The four rules of a flow on its overlay node: towards the receiver, then back. */
  function NodeCommands(node: Ip, src: Ip, dst: Ip, port: string): seq<Command> {
    [ Append(Prerouting, ForwardIn(node, src, dst, port)),
      Append(Postrouting, ForwardOut(node, src, dst)),
      Append(Prerouting, ForwardIn(node, dst, src, port)),
      Append(Postrouting, ForwardOut(node, dst, src)) ]
  }

  function SenderSetup(fs: seq<Flow>): (cs: seq<Command>)
    ensures Appends(cs)
  {
    if fs == [] then [] else SenderSetup(fs[..|fs| - 1]) + SenderCommands(fs[|fs| - 1])
  }

  /** Everything a setup sends to the overlay node at address `node`. */
  function NodeSetup(node: Ip, fs: seq<Flow>, port: string): (cs: seq<Command>)
    ensures Appends(cs)
  {
    if fs == [] then [] else
      var earlier, f := NodeSetup(node, fs[..|fs| - 1], port), fs[|fs| - 1];
      if f.hop == node then earlier + NodeCommands(node, f.src, f.dst, port) else earlier
  }

  lemma SetupExtends(fs: seq<Flow>, f: Flow, node: Ip, port: string)
    ensures SenderSetup(fs + [f]) == SenderSetup(fs) + SenderCommands(f)
    ensures NodeSetup(node, fs + [f], port) ==
      if f.hop == node then NodeSetup(node, fs, port) + NodeCommands(node, f.src, f.dst, port)
      else NodeSetup(node, fs, port)
  {
    Seqs.Snoc(fs, f);
  }

  function One(c: Command, chain: Chain): seq<Rule> {
    if c.chain == chain then [c.rule] else []
  }

  lemma RulesOnTwo(a: Command, b: Command, chain: Chain)
    ensures RulesOn([a, b], chain) == One(a, chain) + One(b, chain)
  {
    assert [a, b] == [a] + [b];
    RulesOnConcat([a], [b], chain);
    RulesOnOne(a, chain);
    RulesOnOne(b, chain);
  }

  lemma RulesOnOne(c: Command, chain: Chain)
    ensures RulesOn([c], chain) == One(c, chain)
  {
    assert [c][1..] == [];
    Seqs.NilRight([c.rule]);
  }

  lemma RulesOfSender(f: Flow, chain: Chain)
    requires chain != Postrouting
    ensures RulesOn(SenderCommands(f), chain) == [OwnRule(f)]
  {
    RulesOnTwo(Append(Prerouting, OwnRule(f)), Append(Output, OwnRule(f)), chain);
  }

  lemma RulesOfOneFlow(node: Ip, src: Ip, dst: Ip, port: string)
    ensures RulesOn(NodeCommands(node, src, dst, port), Prerouting)
      == [ForwardIn(node, src, dst, port), ForwardIn(node, dst, src, port)]
    ensures RulesOn(NodeCommands(node, src, dst, port), Postrouting)
      == [ForwardOut(node, src, dst), ForwardOut(node, dst, src)]
  {
    var cs := NodeCommands(node, src, dst, port);
    assert cs == [cs[0], cs[1]] + [cs[2], cs[3]];
    RulesOnConcat([cs[0], cs[1]], [cs[2], cs[3]], Prerouting);
    RulesOnConcat([cs[0], cs[1]], [cs[2], cs[3]], Postrouting);
    RulesOnTwo(cs[0], cs[1], Prerouting);
    RulesOnTwo(cs[2], cs[3], Prerouting);
    RulesOnTwo(cs[0], cs[1], Postrouting);
    RulesOnTwo(cs[2], cs[3], Postrouting);
  }

  /** The k-th flow's own rule is among the sender's rules of the session on both chains. */
  lemma {:induction false} HasOwnRule(fs: seq<Flow>, k: nat, chain: Chain)
    requires k < |fs| && chain != Postrouting
    ensures OwnRule(fs[k]) in RulesOn(SenderSetup(fs), chain)
  {
    var n := |fs| - 1;
    RulesOnConcat(SenderSetup(fs[..n]), SenderCommands(fs[n]), chain);
    RulesOfSender(fs[n], chain);
    if k < n {
      HasOwnRule(fs[..n], k, chain);
    }
  }

  /** Every rule of the session on them is the own rule of some flow. */
  lemma {:induction false} OwnRuleOfSome(fs: seq<Flow>, r: Rule, chain: Chain) returns (k: nat)
    requires r in RulesOn(SenderSetup(fs), chain) && chain != Postrouting
    ensures k < |fs| && r == OwnRule(fs[k])
  {
    var n := |fs| - 1;
    RulesOnConcat(SenderSetup(fs[..n]), SenderCommands(fs[n]), chain);
    RulesOfSender(fs[n], chain);
    if r == OwnRule(fs[n]) {
      k := n;
    } else {
      k := OwnRuleOfSome(fs[..n], r, chain);
    }
  }

  /** Every PREROUTING rule of a node is one of the two of some flow it relays. */
  lemma {:induction false} ForwardInOfSome(node: Ip, fs: seq<Flow>, port: string, r: Rule) returns (k: nat)
    requires r in RulesOn(NodeSetup(node, fs, port), Prerouting)
    ensures k < |fs| && fs[k].hop == node
    ensures r == ForwardIn(node, fs[k].src, fs[k].dst, port) || r == ForwardIn(node, fs[k].dst, fs[k].src, port)
  {
    var n, f := |fs| - 1, fs[|fs| - 1];
    var earlier := RulesOn(NodeSetup(node, fs[..n], port), Prerouting);
    if r in earlier {
      k := ForwardInOfSome(node, fs[..n], port, r);
    } else {
      k := n;
      RulesOnConcat(NodeSetup(node, fs[..n], port), NodeCommands(node, f.src, f.dst, port), Prerouting);
      RulesOfOneFlow(node, f.src, f.dst, port);
    }
  }

  /** Every POSTROUTING rule of a node rewrites the source to the node itself. */
  lemma {:induction false} ForwardOutOfSome(node: Ip, fs: seq<Flow>, port: string, r: Rule)
    requires r in RulesOn(NodeSetup(node, fs, port), Postrouting)
    ensures r.target == Snat(node)
  {
    var n, f := |fs| - 1, fs[|fs| - 1];
    var earlier := RulesOn(NodeSetup(node, fs[..n], port), Postrouting);
    if r in earlier {
      ForwardOutOfSome(node, fs[..n], port, r);
    } else {
      RulesOnConcat(NodeSetup(node, fs[..n], port), NodeCommands(node, f.src, f.dst, port), Postrouting);
      RulesOfOneFlow(node, f.src, f.dst, port);
    }
  }

  lemma {:induction false} HasForwardOut(node: Ip, fs: seq<Flow>, port: string, k: nat)
    requires k < |fs| && fs[k].hop == node
    ensures ForwardOut(node, fs[k].src, fs[k].dst) in RulesOn(NodeSetup(node, fs, port), Postrouting)
  {
    var n, f := |fs| - 1, fs[|fs| - 1];
    RulesOnConcat(NodeSetup(node, fs[..n], port), NodeCommands(node, f.src, f.dst, port), Postrouting);
    if k < n {
      HasForwardOut(node, fs[..n], port, k);
    } else {
      RulesOfOneFlow(node, f.src, f.dst, port);
    }
  }

  // ---------- how evenly hops are used ----------

  /** How many of the first `n` flows use hop number `h` of `hops`. */
  function Load(n: nat, hops: nat, h: nat): nat
    requires hops > 0
  {
    if n == 0 then 0 else Load(n - 1, hops, h) + if (n - 1) % hops == h then 1 else 0
  }

  lemma {:induction false} LoadExact(n: nat, hops: nat, h: nat)
    requires h < hops
    ensures Load(n, hops, h) == n / hops + if h < n % hops then 1 else 0
  {
    if n > 0 {
      LoadExact(n - 1, hops, h);
      Successor(n - 1, hops);
    }
  }

  /** How many of the flows use the hop at address `a`. */
  function Uses(fs: seq<Flow>, a: Ip): nat {
    if fs == [] then 0 else Uses(fs[..|fs| - 1], a) + if fs[|fs| - 1].hop == a then 1 else 0
  }

  /** Load counts flows: those of the plan that use the hop, or some of them if its address
      occurs more than once. */
  lemma {:induction false} LoadCountsFlows(plan: Plan, n: nat, h: nat)
    requires n <= plan.Size() && h < |plan.hops|
    ensures Uses(plan.First(n), plan.hops[h]) >= Load(n, |plan.hops|, h)
    ensures Seqs.Distinct(plan.hops) ==> Uses(plan.First(n), plan.hops[h]) == Load(n, |plan.hops|, h)
  {
    if n > 0 {
      LoadCountsFlows(plan, n - 1, h);
      Seqs.Snoc(plan.First(n - 1), plan.At(n - 1));
    }
  }

  /** Round-robin assignment is balanced: every hop relays between floor(F/H) and
      ceil(F/H) of the F flows; with at least as many flows as hops, none is idle. */
  lemma HopsAreBalanced(n: nat, hops: nat, h: nat)
    requires h < hops
    ensures n / hops <= Load(n, hops, h) <= CeilDiv(n, hops)
    ensures n >= hops ==> Load(n, hops, h) >= 1
  {
    LoadExact(n, hops, h);
    FloorAndCeil(n, hops);
  }
}
